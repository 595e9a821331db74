/**
 * The two stores the monitor works on: the target store (entity HealthCheck,
 * repository HealthCheckRepo) and the result store (entity HealthCheckResult,
 * repository HealthCheckResultRepo). Timestamps are whole seconds.
 */
module Store {
  import opened Wrappers

  datatype HealthStatus = UNKNOWN | UP | DOWN

  /** Enum.name() of a status. */
  function StatusName(s: HealthStatus): string {
    match s
    case UNKNOWN => "UNKNOWN"
    case UP => "UP"
    case DOWN => "DOWN"
  }

  /**
   * The check type. The CheckType enum is not part of this model; HTTP is the
   * one constant the service tests for, and any other constant is OtherType.
   */
  datatype CheckType = HTTP | OtherType(name: string)

  /** A monitored target: its configuration and its live status. */
  datatype HealthCheck = HealthCheck(
    id: nat,
    name: Option<string>,
    checkType: CheckType,
    url: string,
    intervalSeconds: int,
    thresholdN: int,
    windowM: int,
    enabled: bool,
    status: HealthStatus,
    lastCheckedAt: Option<int>,
    failCount: nat,
    lastError: Option<string>,
    responseTimeMs: Option<int>,
    createdAt: Option<int>,
    updatedAt: Option<int>)

  /** One recorded probe outcome, owned by the target healthCheckId. */
  datatype HealthCheckResult = HealthCheckResult(
    id: nat,
    healthCheckId: nat,
    observedAt: int,
    healthStatus: HealthStatus,
    latencyMs: Option<int>,
    httpCode: Option<int>,
    errorMessage: Option<string>)

  // ---- HealthCheckRepo derived queries ----

  /** existsByUrl */
  predicate ExistsByUrl(targets: map<nat, HealthCheck>, url: string): (b: bool)
    ensures targets == map[] ==> !b
    ensures forall id :: id in targets && targets[id].url == url ==> b
  {
    exists id :: id in targets && targets[id].url == url
  }

  /** The ids findByEnabledTrue returns. */
  function EnabledIds(targets: map<nat, HealthCheck>): set<nat> {
    set id | id in targets && targets[id].enabled
  }

  /** The ids of a list of targets. */
  function IdsOf(list: seq<HealthCheck>): (ids: set<nat>)
    ensures forall i :: 0 <= i < |list| ==> list[i].id in ids
    ensures forall id :: id in ids ==> exists i :: 0 <= i < |list| && list[i].id == id
  {
    if list == [] then {}
    else
      var init := list[..|list| - 1];
      assert forall i :: 0 <= i < |init| ==> init[i] == list[i];
      IdsOf(init) + {list[|list| - 1].id}
  }

  /** No two stored targets share a URL: what the duplicate checks protect. */
  predicate UniqueUrls(targets: map<nat, HealthCheck>) {
    forall i, j :: i in targets && j in targets && i != j ==> targets[i].url != targets[j].url
  }

  // ---- HealthCheckResultRepo derived queries ----

  /** The results of one target (the HealthCheck_Id clause), in store order. */
  function ByTarget(results: seq<HealthCheckResult>, id: int): (r: seq<HealthCheckResult>)
    ensures |r| <= |results|
    ensures forall x :: x in r <==> x in results && x.healthCheckId == id
  {
    if results == [] then []
    else
      var last := results[|results| - 1];
      ByTarget(results[..|results| - 1], id) + (if last.healthCheckId == id then [last] else [])
  }

  /** The results observed at or after `from` (the ObservedAtGreaterThanEqual clause), in store order. */
  function ObservedFrom(results: seq<HealthCheckResult>, from: int): (r: seq<HealthCheckResult>)
    ensures |r| <= |results|
    ensures forall x :: x in r <==> x in results && x.observedAt >= from
  {
    if results == [] then []
    else
      var last := results[|results| - 1];
      ObservedFrom(results[..|results| - 1], from) + (if last.observedAt >= from then [last] else [])
  }

  /** The results with the given status (the HealthStatus clause), in store order. */
  function WithStatus(results: seq<HealthCheckResult>, status: HealthStatus): (r: seq<HealthCheckResult>)
    ensures |r| <= |results|
    ensures forall x :: x in r <==> x in results && x.healthStatus == status
  {
    if results == [] then []
    else
      var last := results[|results| - 1];
      WithStatus(results[..|results| - 1], status) + (if last.healthStatus == status then [last] else [])
  }

  /** countByHealthCheck_IdAndObservedAtGreaterThanEqual */
  function CountSince(results: seq<HealthCheckResult>, id: int, from: int): (n: nat)
    ensures n <= |ByTarget(results, id)| <= |results|
  {
    |ObservedFrom(ByTarget(results, id), from)|
  }

  /** countByHealthCheck_IdAndHealthStatusAndObservedAtGreaterThanEqual: never more than CountSince. */
  function CountWithStatusSince(results: seq<HealthCheckResult>, id: int, status: HealthStatus, from: int): (n: nat)
    ensures n <= CountSince(results, id, from)
  {
    |WithStatus(ObservedFrom(ByTarget(results, id), from), status)|
  }

  /*
   * The three filters keep each matching result as often as it is stored
   * and drop every other one: they count, not just select.
   */

  lemma {:induction false} ByTargetCounts(results: seq<HealthCheckResult>, id: int)
    ensures forall x :: multiset(ByTarget(results, id))[x] == if x.healthCheckId == id then multiset(results)[x] else 0
  {
    if results != [] {
      var init := results[..|results| - 1];
      ByTargetCounts(init, id);
      assert results == init + [results[|results| - 1]];
    }
  }

  lemma {:induction false} ObservedFromCounts(results: seq<HealthCheckResult>, from: int)
    ensures forall x :: multiset(ObservedFrom(results, from))[x] == if x.observedAt >= from then multiset(results)[x] else 0
  {
    if results != [] {
      var init := results[..|results| - 1];
      ObservedFromCounts(init, from);
      assert results == init + [results[|results| - 1]];
    }
  }

  lemma {:induction false} WithStatusCounts(results: seq<HealthCheckResult>, status: HealthStatus)
    ensures forall x :: multiset(WithStatus(results, status))[x] == if x.healthStatus == status then multiset(results)[x] else 0
  {
    if results != [] {
      var init := results[..|results| - 1];
      WithStatusCounts(init, status);
      assert results == init + [results[|results| - 1]];
    }
  }

  /** The window the summary counts: the target's results observed from `from` on. */
  function Window(results: seq<HealthCheckResult>, id: int, from: int): seq<HealthCheckResult> {
    ObservedFrom(ByTarget(results, id), from)
  }

  /**
   * The two counts are the number of stored results that match: each result
   * of the target observed from `from` on (with the status, for the second)
   * is counted once for every time it is stored, and nothing else is.
   */
  lemma WindowCounts(results: seq<HealthCheckResult>, id: int, status: HealthStatus, from: int)
    ensures forall x :: multiset(Window(results, id, from))[x] ==
              if x.healthCheckId == id && x.observedAt >= from then multiset(results)[x] else 0
    ensures forall x :: multiset(WithStatus(Window(results, id, from), status))[x] ==
              if x.healthCheckId == id && x.observedAt >= from && x.healthStatus == status then multiset(results)[x] else 0
    ensures CountSince(results, id, from) == |multiset(Window(results, id, from))|
    ensures CountWithStatusSince(results, id, status, from) == |multiset(WithStatus(Window(results, id, from), status))|
  {
    ByTargetCounts(results, id);
    ObservedFromCounts(ByTarget(results, id), from);
    WithStatusCounts(Window(results, id, from), status);
  }

  /** Each filter treats one more stored result on its own, at the end. */
  lemma FiltersOnAppend(results: seq<HealthCheckResult>, x: HealthCheckResult, id: int, from: int, status: HealthStatus)
    ensures ByTarget(results + [x], id) == ByTarget(results, id) + (if x.healthCheckId == id then [x] else [])
    ensures ObservedFrom(results + [x], from) == ObservedFrom(results, from) + (if x.observedAt >= from then [x] else [])
    ensures WithStatus(results + [x], status) == WithStatus(results, status) + (if x.healthStatus == status then [x] else [])
  {
    assert (results + [x])[..|results|] == results;
  }

  /** Storing one more result raises each count by one exactly when the result matches. */
  lemma CountsOnAppend(results: seq<HealthCheckResult>, x: HealthCheckResult, id: int, status: HealthStatus, from: int)
    ensures CountSince([], id, from) == 0 && CountWithStatusSince([], id, status, from) == 0
    ensures CountSince(results + [x], id, from) ==
              CountSince(results, id, from) + (if x.healthCheckId == id && x.observedAt >= from then 1 else 0)
    ensures CountWithStatusSince(results + [x], id, status, from) ==
              CountWithStatusSince(results, id, status, from)
              + (if x.healthCheckId == id && x.observedAt >= from && x.healthStatus == status then 1 else 0)
  {
    var b := ByTarget(results, id);
    var o := ObservedFrom(b, from);
    FiltersOnAppend(results, x, id, from, status);
    if x.healthCheckId != id {
      assert ByTarget(results + [x], id) == b + [] == b;
    } else {
      FiltersOnAppend(b, x, id, from, status);
      if x.observedAt < from {
        assert ObservedFrom(b + [x], from) == o + [] == o;
      } else {
        FiltersOnAppend(o, x, id, from, status);
        assert |WithStatus(o + [x], status)| == |WithStatus(o, status)| + (if x.healthStatus == status then 1 else 0);
      }
    }
  }

  /** Ordered by observedAt, newest first. */
  predicate NewestFirstOrder(s: seq<HealthCheckResult>) {
    forall i, j :: 0 <= i < j < |s| ==> s[i].observedAt >= s[j].observedAt
  }

  /** Puts x before the first result that is not newer than it. */
  function InsertNewest(x: HealthCheckResult, s: seq<HealthCheckResult>): (r: seq<HealthCheckResult>)
    requires NewestFirstOrder(s)
    ensures NewestFirstOrder(r)
    ensures multiset(r) == multiset(s) + multiset{x}
    ensures r[0] == x || (s != [] && r[0] == s[0])
  {
    if s == [] || x.observedAt >= s[0].observedAt then [x] + s
    else
      assert s == [s[0]] + s[1..];
      var rest := InsertNewest(x, s[1..]);
      assert rest[0].observedAt <= s[0].observedAt;
      [s[0]] + rest
  }

  /**
   * The OrderByObservedAtDesc ordering. Among results observed at the same
   * second the one stored later comes first (the store leaves ties unordered).
   */
  function NewestFirst(s: seq<HealthCheckResult>): (r: seq<HealthCheckResult>)
    ensures NewestFirstOrder(r)
    ensures multiset(r) == multiset(s)
  {
    if s == [] then []
    else
      assert s == s[..|s| - 1] + [s[|s| - 1]];
      InsertNewest(s[|s| - 1], NewestFirst(s[..|s| - 1]))
  }

  /** findTop1ByHealthCheck_IdOrderByObservedAtDesc: the newest result of the target, null when it has none. */
  function Top1Newest(results: seq<HealthCheckResult>, id: int): (r: Option<HealthCheckResult>)
    ensures r.None? <==> forall x :: x in results ==> x.healthCheckId != id
    ensures r.Some? ==> r.value in results && r.value.healthCheckId == id
    ensures r.Some? ==> forall x :: x in results && x.healthCheckId == id ==> x.observedAt <= r.value.observedAt
  {
    var s := NewestFirst(ByTarget(results, id));
    if s == [] then
      assert forall x :: x in ByTarget(results, id) ==> x in multiset(s);
      None
    else
      assert s[0] in multiset(ByTarget(results, id));
      assert s[0] in ByTarget(results, id);
      assert forall x :: x in ByTarget(results, id) ==> x in s by {
        forall x | x in ByTarget(results, id) ensures x in s { assert x in multiset(s); }
      }
      Some(s[0])
  }

  /**
   * findByHealthCheck_IdOrderByObservedAtDesc with PageRequest.of(0, size):
   * the first `size` results of the target, newest first.
   */
  function NewestPage(results: seq<HealthCheckResult>, id: int, size: nat): (r: seq<HealthCheckResult>)
    ensures |r| == if size < |ByTarget(results, id)| then size else |ByTarget(results, id)|
    ensures NewestFirstOrder(r)
    ensures forall x :: x in r ==> x in results && x.healthCheckId == id
    ensures |r| < size ==> multiset(r) == multiset(ByTarget(results, id))
    ensures r != [] ==> Top1Newest(results, id) == Some(r[0])
  {
    var s := NewestFirst(ByTarget(results, id));
    var page := if size < |s| then s[..size] else s;
    assert forall x :: x in page ==> x in s;
    assert forall x :: x in s ==> x in ByTarget(results, id) by {
      forall x | x in s ensures x in ByTarget(results, id) { assert x in multiset(s); }
    }
    assert page != [] ==> page[0] == s[0] && Top1Newest(results, id) == Some(s[0]);
    page
  }

  /**
   * The page holds the newest results of the target: each is one of its
   * stored results, and every result left off the page is no newer than
   * any result on it.
   */
  lemma NewestPageIsNewest(results: seq<HealthCheckResult>, id: int, size: nat)
    ensures multiset(NewestPage(results, id, size)) <= multiset(ByTarget(results, id))
    ensures forall x :: x in multiset(ByTarget(results, id)) - multiset(NewestPage(results, id, size)) ==>
              forall y :: y in NewestPage(results, id, size) ==> x.observedAt <= y.observedAt
  {
    var s := NewestFirst(ByTarget(results, id));
    var n := if size < |s| then size else |s|;
    assert NewestPage(results, id, size) == s[..n];
    PrefixIsNewest(s, n);
  }

  /** The first n of a newest-first sequence are among it, and whatever is left out is no newer than any of them. */
  lemma PrefixIsNewest(s: seq<HealthCheckResult>, n: nat)
    requires NewestFirstOrder(s) && n <= |s|
    ensures multiset(s[..n]) <= multiset(s)
    ensures forall x :: x in multiset(s) - multiset(s[..n]) ==> forall y :: y in s[..n] ==> x.observedAt <= y.observedAt
  {
    assert s == s[..n] + s[n..];
    assert multiset(s) == multiset(s[..n]) + multiset(s[n..]);
    forall x | x in multiset(s) - multiset(s[..n])
      ensures forall y :: y in s[..n] ==> x.observedAt <= y.observedAt
    {
      assert x in multiset(s[n..]);
      assert x in s[n..];
      var k :| n <= k < |s| && s[k] == x;
      forall y | y in s[..n] ensures x.observedAt <= y.observedAt {
        var j :| 0 <= j < n && s[j] == y;
      }
    }
  }

  /** How many results deleteByObservedAtBefore(cutoff) removes. */
  function CountObservedBefore(results: seq<HealthCheckResult>, cutoff: int): (n: nat)
    ensures n + |ObservedFrom(results, cutoff)| == |results|
    ensures n == 0 <==> forall x :: x in results ==> x.observedAt >= cutoff
  {
    if results == [] then 0
    else
      var last := results[|results| - 1];
      assert results == results[..|results| - 1] + [last];
      CountObservedBefore(results[..|results| - 1], cutoff) + (if last.observedAt < cutoff then 1 else 0)
  }

  /** Keeping the results observed from the cutoff on keeps all of a sequence already past it. */
  lemma {:induction false} ObservedFromKeepsAll(results: seq<HealthCheckResult>, cutoff: int)
    requires forall x :: x in results ==> x.observedAt >= cutoff
    ensures ObservedFrom(results, cutoff) == results
  {
    if results != [] {
      var init := results[..|results| - 1];
      assert forall x :: x in init ==> x in results;
      ObservedFromKeepsAll(init, cutoff);
      assert results == init + [results[|results| - 1]];
    }
  }

  /** A second delete with the same cutoff keeps everything and finds nothing left to delete. */
  lemma ObservedFromIdempotent(results: seq<HealthCheckResult>, cutoff: int)
    ensures ObservedFrom(ObservedFrom(results, cutoff), cutoff) == ObservedFrom(results, cutoff)
    ensures CountObservedBefore(ObservedFrom(results, cutoff), cutoff) == 0
  {
    ObservedFromKeepsAll(ObservedFrom(results, cutoff), cutoff);
  }

  /** The stores as the repositories hold them, with the identity counters the database keeps. */
  class Stores {
    var targets: map<nat, HealthCheck>
    var results: seq<HealthCheckResult>
    var nextTargetId: nat
    var nextResultId: nat

    /** Every target is filed under its own id; every id handed out is below the counters. */
    ghost predicate Valid()
      reads this
    {
      && (forall id :: id in targets ==> targets[id].id == id && id < nextTargetId)
      && (forall i :: 0 <= i < |results| ==> results[i].id < nextResultId)
    }

    constructor ()
      ensures Valid()
      ensures targets == map[] && results == []
    {
      targets := map[];
      results := [];
      nextTargetId := 1;
      nextResultId := 1;
    }

    /** findByEnabledTrue: every enabled target exactly once, in an order the store chooses. */
    method FindByEnabledTrue() returns (list: seq<HealthCheck>)
      requires Valid()
      ensures forall i :: 0 <= i < |list| ==> list[i].id in targets && targets[list[i].id] == list[i]
      ensures forall i, j :: 0 <= i < j < |list| ==> list[i].id != list[j].id
      ensures IdsOf(list) == EnabledIds(targets)
    {
      list := [];
      var pending := targets.Keys;
      while pending != {}
        invariant pending <= targets.Keys
        invariant forall i :: 0 <= i < |list| ==> list[i].id in targets && list[i].id !in pending && targets[list[i].id] == list[i]
        invariant forall i :: 0 <= i < |list| ==> list[i].enabled
        invariant forall i, j :: 0 <= i < j < |list| ==> list[i].id != list[j].id
        invariant forall k :: k in targets && targets[k].enabled && k !in pending ==> k in IdsOf(list)
        decreases pending
      {
        var key :| key in pending;
        assert targets[key].id == key;
        if targets[key].enabled {
          assert (list + [targets[key]])[..|list|] == list;
          list := list + [targets[key]];
        }
        pending := pending - {key};
      }
      assert forall k :: k in IdsOf(list) ==> k in EnabledIds(targets);
    }

    /** save of a new entity: the database assigns the next id. */
    method Insert(t: HealthCheck) returns (saved: HealthCheck)
      requires Valid()
      modifies this
      ensures Valid()
      ensures saved == t.(id := old(nextTargetId)) && saved.id !in old(targets)
      ensures targets == old(targets)[saved.id := saved] && results == old(results)
      ensures nextResultId == old(nextResultId)
    {
      saved := t.(id := nextTargetId);
      targets := targets[nextTargetId := saved];
      nextTargetId := nextTargetId + 1;
    }

    /** save of an existing entity: its row is overwritten. */
    method Save(t: HealthCheck)
      requires Valid() && t.id in targets
      modifies this
      ensures Valid()
      ensures targets == old(targets)[t.id := t] && results == old(results)
      ensures nextTargetId == old(nextTargetId) && nextResultId == old(nextResultId)
    {
      targets := targets[t.id := t];
    }

    /** deleteById */
    method DeleteById(id: nat)
      requires Valid()
      modifies this
      ensures Valid()
      ensures targets == old(targets) - {id} && results == old(results)
      ensures nextTargetId == old(nextTargetId) && nextResultId == old(nextResultId)
    {
      targets := targets - {id};
    }

    /** save of a new result: it is appended with the next result id. */
    method Append(r: HealthCheckResult) returns (saved: HealthCheckResult)
      requires Valid()
      modifies this
      ensures Valid()
      ensures saved == r.(id := old(nextResultId))
      ensures results == old(results) + [saved] && targets == old(targets)
      ensures nextTargetId == old(nextTargetId) && nextResultId == old(nextResultId) + 1
    {
      saved := r.(id := nextResultId);
      results := results + [saved];
      nextResultId := nextResultId + 1;
    }

    /**
     * deleteByObservedAtBefore: removes exactly the results observed strictly
     * before the cutoff, keeps the rest in order, and reports how many went.
     */
    method DeleteByObservedAtBefore(cutoff: int) returns (deleted: nat)
      requires Valid()
      modifies this
      ensures Valid()
      ensures results == ObservedFrom(old(results), cutoff) && targets == old(targets)
      ensures deleted == CountObservedBefore(old(results), cutoff)
      ensures nextTargetId == old(nextTargetId) && nextResultId == old(nextResultId)
    {
      var kept := [];
      var i := 0;
      deleted := 0;
      while i < |results|
        invariant 0 <= i <= |results|
        invariant kept == ObservedFrom(results[..i], cutoff)
        invariant deleted == CountObservedBefore(results[..i], cutoff)
      {
        assert results[..i + 1][..i] == results[..i];
        if results[i].observedAt < cutoff {
          deleted := deleted + 1;
        } else {
          kept := kept + [results[i]];
        }
        i := i + 1;
      }
      assert results[..i] == results;
      results := kept;
    }
  }
}
