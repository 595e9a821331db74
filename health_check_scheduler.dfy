/**
 * HealthCheckScheduler: the periodic pass over the enabled targets and the
 * nightly retention sweep. The clock reading is the `now` argument; what
 * each due target's check came back with is the `attempt` argument.
 */
module HealthCheckScheduler {
  import opened Wrappers
  import opened Store
  import opened HealthCheckService

  /** The value of uptime.results.retentionDays when it is not configured. */
  const DEFAULT_RETENTION_DAYS := 30

  const SECONDS_PER_DAY := 86400

  /**
   * What became of runOneCheck for one due target: it completed with the
   * given probe outcome, or an exception escaped it (its transaction rolled
   * back, and tick has no catch, so the pass stops there).
   */
  datatype Attempt = Completed(probe: Probe) | Aborted

  /** now.minusDays(retentionDays): results observed before it are deleted. */
  function CleanupCutoff(now: int, retentionDays: int): (cutoff: int)
    ensures retentionDays >= 0 ==> cutoff <= now
    ensures retentionDays > 0 ==> cutoff < now
  {
    now - retentionDays * SECONDS_PER_DAY
  }

  /** The sweep keeps exactly the results at most retentionDays days old at `now`. */
  lemma CleanupKeepsRecent(results: seq<HealthCheckResult>, now: int, retentionDays: int)
    ensures forall x :: x in ObservedFrom(results, CleanupCutoff(now, retentionDays)) <==>
              x in results && now - x.observedAt <= retentionDays * SECONDS_PER_DAY
  {
  }

  /**
   * The result store after a pass that started from `results`: one result
   * appended per checked target, in the order they were checked, numbered on
   * from firstId, all observed at the pass's single `now`.
   */
  function TickResults(results: seq<HealthCheckResult>, targets: map<nat, HealthCheck>, checked: seq<nat>, attempt: nat -> Attempt, now: int, firstId: nat): (r: seq<HealthCheckResult>)
    requires forall k :: 0 <= k < |checked| ==> checked[k] in targets && attempt(checked[k]).Completed?
    ensures |r| == |results| + |checked| && r[..|results|] == results
    ensures forall k :: 0 <= k < |checked| ==>
              r[|results| + k] == ResultOf(targets[checked[k]], attempt(checked[k]).probe, now).(id := firstId + k)
  {
    if checked == [] then results
    else
      var last := checked[|checked| - 1];
      var init := TickResults(results, targets, checked[..|checked| - 1], attempt, now, firstId);
      assert (init + [ResultOf(targets[last], attempt(last).probe, now).(id := firstId + |checked| - 1)])[..|results|] == init[..|results|];
      init + [ResultOf(targets[last], attempt(last).probe, now).(id := firstId + |checked| - 1)]
  }

  /**
   * The targets after one pass: each checked target evaluated against its
   * probe at the pass's `now`, every other target as it was.
   */
  function TickTargets(targets: map<nat, HealthCheck>, checked: seq<nat>, attempt: nat -> Attempt, now: int): (r: map<nat, HealthCheck>)
    requires forall k :: 0 <= k < |checked| ==> checked[k] in targets && attempt(checked[k]).Completed?
    ensures r.Keys == targets.Keys
    ensures forall id :: id in targets ==>
              r[id] == if id in checked then Evaluated(targets[id], attempt(id).probe, now) else targets[id]
  {
    if checked == [] then targets
    else
      var last := checked[|checked| - 1];
      var init := checked[..|checked| - 1];
      assert forall id :: id in checked <==> id in init || id == last;
      TickTargets(targets, init, attempt, now)[last := Evaluated(targets[last], attempt(last).probe, now)]
  }

  /** One more checked target: one more result at the end, and that target evaluated. */
  lemma TickStep(targets: map<nat, HealthCheck>, checked: seq<nat>, id: nat, attempt: nat -> Attempt, now: int, firstId: nat)
    requires forall k :: 0 <= k < |checked| ==> checked[k] in targets && attempt(checked[k]).Completed?
    requires id in targets && attempt(id).Completed?
    ensures forall k :: 0 <= k < |checked + [id]| ==> (checked + [id])[k] in targets && attempt((checked + [id])[k]).Completed?
    ensures forall results ::
              TickResults(results, targets, checked + [id], attempt, now, firstId) ==
              TickResults(results, targets, checked, attempt, now, firstId) + [ResultOf(targets[id], attempt(id).probe, now).(id := firstId + |checked|)]
    ensures TickTargets(targets, checked + [id], attempt, now)
            == TickTargets(targets, checked, attempt, now)[id := Evaluated(targets[id], attempt(id).probe, now)]
  {
    assert (checked + [id])[..|checked|] == checked;
  }

  /** Every result a pass appends is observed at the pass's single `now` and belongs to a checked target. */
  lemma TickResultsShareNow(results: seq<HealthCheckResult>, targets: map<nat, HealthCheck>, checked: seq<nat>, attempt: nat -> Attempt, now: int, firstId: nat)
    requires forall id :: id in targets ==> targets[id].id == id
    requires forall k :: 0 <= k < |checked| ==> checked[k] in targets && attempt(checked[k]).Completed?
    ensures forall i :: |results| <= i < |TickResults(results, targets, checked, attempt, now, firstId)| ==>
              TickResults(results, targets, checked, attempt, now, firstId)[i].observedAt == now
              && TickResults(results, targets, checked, attempt, now, firstId)[i].healthCheckId in checked
  {
    var r := TickResults(results, targets, checked, attempt, now, firstId);
    forall i | |results| <= i < |r| ensures r[i].observedAt == now && r[i].healthCheckId in checked {
      var k := i - |results|;
      assert r[i] == ResultOf(targets[checked[k]], attempt(checked[k]).probe, now).(id := firstId + k);
      assert r[i].healthCheckId == targets[checked[k]].id == checked[k];
    }
  }

  /** What findByEnabledTrue hands the pass: stored, enabled targets with distinct ids. */
  predicate Listing(targets: map<nat, HealthCheck>, list: seq<HealthCheck>) {
    && (forall j :: 0 <= j < |list| ==> list[j].id in targets && targets[list[j].id] == list[j] && list[j].enabled)
    && (forall j, l :: 0 <= j < l < |list| ==> list[j].id != list[l].id)
  }

  /** The targets a pass has checked so far: stored, enabled, due and completed, each once. */
  predicate CheckedSoFar(targets: map<nat, HealthCheck>, checked: seq<nat>, attempt: nat -> Attempt, now: int) {
    && (forall k :: 0 <= k < |checked| ==>
          checked[k] in targets && targets[checked[k]].enabled && ShouldRun(targets[checked[k]], now)
          && attempt(checked[k]).Completed?)
    && (forall k, l :: 0 <= k < l < |checked| ==> checked[k] != checked[l])
  }

  /** After the first i entries of the listing: every due one among them is checked, no later one is. */
  predicate Progress(list: seq<HealthCheck>, i: nat, checked: seq<nat>, now: int)
    requires i <= |list|
  {
    && (forall j :: i <= j < |list| ==> list[j].id !in checked)
    && (forall j :: 0 <= j < i && ShouldRun(list[j], now) ==> list[j].id in checked)
  }

  /** One step of the pass over entry i: skipping it when not due, checking it when due. */
  lemma TickAdvance(targets: map<nat, HealthCheck>, list: seq<HealthCheck>, i: nat, checked: seq<nat>, attempt: nat -> Attempt, now: int)
    requires Listing(targets, list) && i < |list|
    requires CheckedSoFar(targets, checked, attempt, now) && Progress(list, i, checked, now)
    ensures list[i].id in targets && targets[list[i].id] == list[i] && list[i].id !in checked
    ensures list[i].id in EnabledIds(targets)
    ensures !ShouldRun(list[i], now) ==> Progress(list, i + 1, checked, now)
    ensures ShouldRun(list[i], now) && attempt(list[i].id).Completed? ==>
              CheckedSoFar(targets, checked + [list[i].id], attempt, now) && Progress(list, i + 1, checked + [list[i].id], now)
  {
  }

  /** A pass that went through the whole listing has checked every enabled target that was due. */
  lemma TickCovers(targets: map<nat, HealthCheck>, list: seq<HealthCheck>, checked: seq<nat>, now: int)
    requires Listing(targets, list) && IdsOf(list) == EnabledIds(targets)
    requires Progress(list, |list|, checked, now)
    ensures forall id :: id in EnabledIds(targets) && ShouldRun(targets[id], now) ==> id in checked
  {
    forall id | id in EnabledIds(targets) && ShouldRun(targets[id], now)
      ensures id in checked
    {
      var j :| 0 <= j < |list| && list[j].id == id;
    }
  }

  /** The target an aborted pass stopped at: enabled, due, unchecked, and its check aborted. */
  predicate StoppedAt(targets: map<nat, HealthCheck>, checked: seq<nat>, attempt: nat -> Attempt, now: int, id: nat) {
    id in EnabledIds(targets) && ShouldRun(targets[id], now) && id !in checked && attempt(id).Aborted?
  }

  class HealthCheckScheduler {
    const service: HealthCheckService
    const retentionDays: int

    constructor (service: HealthCheckService, configuredRetentionDays: Option<int>)
      ensures this.service == service
      ensures retentionDays == configuredRetentionDays.GetOr(DEFAULT_RETENTION_DAYS)
    {
      this.service := service;
      this.retentionDays := configuredRetentionDays.GetOr(DEFAULT_RETENTION_DAYS);
    }

    /**
     * tick: every enabled target that is due at `now` is checked once, in the
     * order findByEnabledTrue lists them, all with the same `now`; a target
     * that is disabled or not due is left as it was. An aborted check ends
     * the pass: that target and the ones after it are left as they were.
     */
    method Tick(now: int, attempt: nat -> Attempt) returns (checked: seq<nat>, aborted: bool)
      requires service.store.Valid()
      modifies service.store
      ensures service.store.Valid()
      ensures CheckedSoFar(old(service.store.targets), checked, attempt, now)
      ensures service.store.targets == TickTargets(old(service.store.targets), checked, attempt, now)
      ensures service.store.results ==
                TickResults(old(service.store.results), old(service.store.targets), checked, attempt, now, old(service.store.nextResultId))
      ensures !aborted ==> forall id :: id in EnabledIds(old(service.store.targets)) && ShouldRun(old(service.store.targets)[id], now) ==> id in checked
      ensures aborted ==> exists id :: StoppedAt(old(service.store.targets), checked, attempt, now, id)
    {
      var store := service.store;
      var list := store.FindByEnabledTrue();
      ghost var t0 := store.targets;
      ghost var r0 := store.results;
      ghost var n0 := store.nextResultId;
      assert Listing(t0, list);
      checked := [];
      aborted := false;
      var i := 0;
      while i < |list|
        invariant 0 <= i <= |list|
        invariant store.Valid()
        invariant CheckedSoFar(t0, checked, attempt, now) && Progress(list, i, checked, now)
        invariant store.targets == TickTargets(t0, checked, attempt, now)
        invariant store.results == TickResults(r0, t0, checked, attempt, now, n0)
        invariant store.nextResultId == n0 + |checked|
      {
        var t := list[i];
        TickAdvance(t0, list, i, checked, attempt, now);
        if ShouldRun(t, now) {
          match attempt(t.id)
          case Aborted =>
            assert StoppedAt(t0, checked, attempt, now, t.id);
            aborted := true;
            break;
          case Completed(p) =>
            TickStep(t0, checked, t.id, attempt, now, n0);
            assert store.targets[t.id] == t0[t.id];
            var saved := service.RunOneCheck(t.id, p, now);
            assert saved == ResultOf(t0[t.id], attempt(t.id).probe, now).(id := n0 + |checked|);
            checked := checked + [t.id];
        }
        i := i + 1;
      }
      if !aborted {
        TickCovers(t0, list, checked, now);
      }
    }

    /**
     * cleanup: the results observed before now minus retentionDays days are
     * deleted, all others kept in order; the number deleted is returned.
     */
    method Cleanup(now: int) returns (cutoff: int, deleted: nat)
      requires service.store.Valid()
      modifies service.store
      ensures service.store.Valid()
      ensures cutoff == CleanupCutoff(now, retentionDays)
      ensures service.store.results == ObservedFrom(old(service.store.results), cutoff)
      ensures deleted == CountObservedBefore(old(service.store.results), cutoff)
      ensures service.store.targets == old(service.store.targets)
    {
      cutoff := CleanupCutoff(now, retentionDays);
      deleted := service.store.DeleteByObservedAtBefore(cutoff);
    }
  }
}
