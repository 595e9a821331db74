/**
 * HealthCheckService: registration, update and removal of monitored targets,
 * the status evaluation after one probe, the due-check the scheduler uses,
 * and the read side (recent results and the summary over a window).
 * The clock and the HTTP probe are inputs: `now` in whole seconds and a Probe.
 */
module HealthCheckService {
  import opened Wrappers
  import opened JavaText
  import opened UrlNormalizer
  import opened Store

  /** HealthCheckRequest: every field may be null (None). */
  datatype Request = Request(
    name: Option<string>,
    checkType: Option<CheckType>,
    url: Option<string>,
    intervalSeconds: Option<int>,
    thresholdN: Option<int>,
    windowM: Option<int>,
    enabled: Option<bool>)

  /** HealthCheckResponse */
  datatype Response = Response(id: nat, name: Option<string>, checkType: CheckType, url: string, intervalSeconds: int, enabled: bool)

  /** The exceptions the service raises, one constructor per cause. */
  datatype ServiceError =
    | InvalidUrl                 // IllegalArgumentException from normalizeUrl
    | DuplicateUrl(url: string)  // "URL already exists"
    | HttpUrlRequired            // an HTTP check whose URL is not http:// or https://
    | MissingInterval            // unboxing a null intervalSeconds into the builder's int
    | NotFound(id: int)          // "target not found"
    | InvalidWindow              // a window other than "1h" and "24h"
    | InvalidPageSize            // PageRequest.of with a page size below one

  /**
   * What one probe of a target came back with: a status code (0 when the
   * response carried none), or an exception with its message; either way
   * the elapsed milliseconds.
   */
  datatype Probe =
    | Responded(code: int, latencyMs: int)
    | Failed(message: Option<string>, latencyMs: int)

  /** getHealthCheckSummary without the floating-point average and rounding. */
  datatype Summary = Summary(
    healthCheckId: int,
    window: string,
    total: nat,
    up: nat,
    uptimePercent: real,
    latestStatus: string,
    latestHttpCode: Option<int>)

  function ToResponse(t: HealthCheck): Response {
    Response(t.id, t.name, t.checkType, t.url, t.intervalSeconds, t.enabled)
  }

  // ---- registration ----

  /**
   * The checks addHealthCheck makes before saving, in the order it makes them:
   * the URL must normalize, must not be stored already, must be http(s) for
   * an HTTP check, and the interval must be present for the builder's int.
   * Success carries the normalized URL.
   */
  function AddValidation(targets: map<nat, HealthCheck>, req: Request, parse: string -> Option<Uri>): (r: Result<string, ServiceError>)
    requires req.url.Some?
    ensures r.Success? <==>
              && NormalizeUrl(req.url, parse).Url?
              && !ExistsByUrl(targets, NormalizeUrl(req.url, parse).text)
              && (req.checkType == Some(HTTP) ==> HasHttpPrefix(NormalizeUrl(req.url, parse).text))
              && req.intervalSeconds.Some?
    ensures r.Success? ==> NormalizeUrl(req.url, parse) == Url(r.value)
    ensures r == Failure(InvalidUrl) <==> NormalizeUrl(req.url, parse).Invalid?
    ensures NormalizeUrl(req.url, parse).Url? && ExistsByUrl(targets, NormalizeUrl(req.url, parse).text) ==>
              r == Failure(DuplicateUrl(NormalizeUrl(req.url, parse).text))
    ensures r == Failure(HttpUrlRequired) <==>
              && NormalizeUrl(req.url, parse).Url?
              && !ExistsByUrl(targets, NormalizeUrl(req.url, parse).text)
              && req.checkType == Some(HTTP) && !HasHttpPrefix(NormalizeUrl(req.url, parse).text)
    ensures r == Failure(MissingInterval) <==>
              && NormalizeUrl(req.url, parse).Url?
              && !ExistsByUrl(targets, NormalizeUrl(req.url, parse).text)
              && (req.checkType == Some(HTTP) ==> HasHttpPrefix(NormalizeUrl(req.url, parse).text))
              && req.intervalSeconds.None?
  {
    match NormalizeUrl(req.url, parse)
    case Url(url) =>
      if ExistsByUrl(targets, url) then Failure(DuplicateUrl(url))
      else if req.checkType == Some(HTTP) && !HasHttpPrefix(url) then Failure(HttpUrlRequired)
      else if req.intervalSeconds.None? then Failure(MissingInterval)
      else Success(url)
    case _ => Failure(InvalidUrl)
  }

  /**
   * The entity addHealthCheck builds (its id is assigned on save). A new
   * target has never been checked, so it is due at any time, and its status
   * agrees with its failure count.
   */
  function NewTarget(req: Request, url: string, now: int): (t: HealthCheck)
    requires req.intervalSeconds.Some?
    ensures StatusConsistent(t)
    ensures forall later :: ShouldRun(t, later)
    ensures t.status == UNKNOWN && t.failCount == 0 && t.enabled
    ensures t.thresholdN == 1 && t.windowM == 3
    ensures t.lastCheckedAt.None? && t.lastError.None? && t.responseTimeMs.None?
    ensures t.createdAt == Some(now) && t.updatedAt.None?
    ensures t.name == req.name && t.url == url && t.intervalSeconds == req.intervalSeconds.value
    ensures t.checkType == req.checkType.GetOr(HTTP)
  {
    HealthCheck(
      id := 0,
      name := req.name,
      checkType := req.checkType.GetOr(HTTP),
      url := url,
      intervalSeconds := req.intervalSeconds.value,
      thresholdN := 1,
      windowM := 3,
      enabled := true,
      status := UNKNOWN,
      lastCheckedAt := None,
      failCount := 0,
      lastError := None,
      responseTimeMs := None,
      createdAt := Some(now),
      updatedAt := None)
  }

  /** Storing a target whose URL is not yet stored keeps the URLs unique. */
  lemma AddKeepsUrlsUnique(targets: map<nat, HealthCheck>, id: nat, t: HealthCheck)
    requires UniqueUrls(targets) && id !in targets && !ExistsByUrl(targets, t.url)
    ensures UniqueUrls(targets[id := t])
  {
    var m := targets[id := t];
    forall i, j | i in m && j in m && i != j
      ensures m[i].url != m[j].url
    {
      if i == id {
        assert targets[j].url != t.url;
      } else if j == id {
        assert targets[i].url != t.url;
      }
    }
  }

  // ---- update ----

  /**
   * updateHealthCheck applied to the stored target t: each non-null request
   * field replaces its field, the URL after the same normalization and
   * checks as on add (the HTTP test uses the type after the update; the
   * duplicate test is skipped when the URL is the current one), and
   * updatedAt becomes now. The live status fields are never touched.
   */
  function Updated(targets: map<nat, HealthCheck>, t: HealthCheck, req: Request, parse: string -> Option<Uri>, now: int): (r: Result<HealthCheck, ServiceError>)
    ensures req.url.None? ==> r.Success?
    ensures r == Failure(InvalidUrl) <==> req.url.Some? && NormalizeUrl(req.url, parse).Invalid?
    ensures r.Success? ==>
              && r.value.id == t.id && r.value.status == t.status && r.value.failCount == t.failCount
              && r.value.lastCheckedAt == t.lastCheckedAt && r.value.lastError == t.lastError
              && r.value.responseTimeMs == t.responseTimeMs && r.value.createdAt == t.createdAt
              && r.value.updatedAt == Some(now)
    ensures r.Success? ==>
              && r.value.name == (if req.name.Some? then req.name else t.name)
              && r.value.checkType == req.checkType.GetOr(t.checkType)
              && r.value.intervalSeconds == req.intervalSeconds.GetOr(t.intervalSeconds)
              && r.value.thresholdN == req.thresholdN.GetOr(t.thresholdN)
              && r.value.windowM == req.windowM.GetOr(t.windowM)
              && r.value.enabled == req.enabled.GetOr(t.enabled)
    ensures r.Success? && req.url.None? ==> r.value.url == t.url
    ensures r.Success? && req.url.Some? ==>
              && NormalizeUrl(req.url, parse) == Url(r.value.url)
              && (r.value.checkType == HTTP ==> HasHttpPrefix(r.value.url))
              && (r.value.url == t.url || !ExistsByUrl(targets, r.value.url))
    ensures req.url.Some? && NormalizeUrl(req.url, parse).Url? ==>
              var u := NormalizeUrl(req.url, parse).text;
              var httpOk := req.checkType.GetOr(t.checkType) == HTTP ==> HasHttpPrefix(u);
              var notTaken := u == t.url || !ExistsByUrl(targets, u);
              && (r.Success? <==> httpOk && notTaken)
              && (!httpOk ==> r == Failure(HttpUrlRequired))
              && (httpOk && !notTaken ==> r == Failure(DuplicateUrl(u)))
  {
    var checkType := req.checkType.GetOr(t.checkType);
    var url: Result<string, ServiceError> :=
      if req.url.None? then Success(t.url)
      else
        match NormalizeUrl(req.url, parse)
        case Url(u) =>
          if checkType == HTTP && !HasHttpPrefix(u) then Failure(HttpUrlRequired)
          else if u != t.url && ExistsByUrl(targets, u) then Failure(DuplicateUrl(u))
          else Success(u)
        case _ => Failure(InvalidUrl);
    if url.Failure? then Failure(url.error)
    else
      Success(t.(
        name := if req.name.Some? then req.name else t.name,
        checkType := checkType,
        url := url.value,
        intervalSeconds := req.intervalSeconds.GetOr(t.intervalSeconds),
        thresholdN := req.thresholdN.GetOr(t.thresholdN),
        windowM := req.windowM.GetOr(t.windowM),
        enabled := req.enabled.GetOr(t.enabled),
        updatedAt := Some(now)))
  }

  /** Re-submitting a target's own URL never trips the duplicate check. */
  lemma UpdateToSameUrl(targets: map<nat, HealthCheck>, t: HealthCheck, req: Request, parse: string -> Option<Uri>, now: int)
    requires req.url.Some? && NormalizeUrl(req.url, parse) == Url(t.url)
    requires req.checkType.GetOr(t.checkType) == HTTP ==> HasHttpPrefix(t.url)
    ensures Updated(targets, t, req, parse, now) == Success(Updated(targets, t, req, parse, now).value)
    ensures Updated(targets, t, req, parse, now).value.url == t.url
  {
  }

  /** An update that succeeds keeps the stored URLs unique. */
  lemma UpdateKeepsUrlsUnique(targets: map<nat, HealthCheck>, id: nat, req: Request, parse: string -> Option<Uri>, now: int)
    requires UniqueUrls(targets) && id in targets
    requires Updated(targets, targets[id], req, parse, now).Success?
    ensures UniqueUrls(targets[id := Updated(targets, targets[id], req, parse, now).value])
  {
    var t := Updated(targets, targets[id], req, parse, now).value;
    var m := targets[id := t];
    forall i, j | i in m && j in m && i != j
      ensures m[i].url != m[j].url
    {
      if i == id && t.url != targets[id].url {
        assert targets[j].url != t.url;
      } else if j == id && t.url != targets[id].url {
        assert targets[i].url != t.url;
      }
    }
  }

  // ---- evaluation of one probe ----

  /** The status code runOneCheck works with: 0 when the probe threw. */
  function ProbeCode(p: Probe): int {
    match p
    case Responded(code, _) => code
    case Failed(_, _) => 0
  }

  /** The error runOneCheck records: the exception's message, null after a response. */
  function ProbeError(p: Probe): Option<string> {
    match p
    case Responded(_, _) => None
    case Failed(message, _) => message
  }

  /** A target is up exactly when the code is a 2xx or 3xx status. */
  predicate IsUp(code: int): (up: bool)
    ensures code == 0 || code >= 400 ==> !up
    ensures code == 200 || code == 301 || code == 302 || code == 399 ==> up
  {
    200 <= code < 400
  }

  /** The live status agrees with the failure count: only DOWN has failures, and it has at least one. */
  predicate StatusConsistent(t: HealthCheck) {
    if t.status == DOWN then t.failCount >= 1 else t.failCount == 0
  }

  /**
   * The result row runOneCheck appends (its id is assigned on save): status
   * UP exactly for 2xx/3xx, code 0 stored as null, observed at now.
   */
  function ResultOf(t: HealthCheck, p: Probe, now: int): (r: HealthCheckResult)
    ensures r.healthCheckId == t.id && r.observedAt == now
    ensures r.healthStatus == UP <==> IsUp(ProbeCode(p))
    ensures r.healthStatus != UNKNOWN
    ensures r.httpCode.None? <==> ProbeCode(p) == 0
    ensures r.httpCode.Some? ==> r.httpCode.value == ProbeCode(p)
    ensures r.latencyMs == Some(p.latencyMs) && r.errorMessage == ProbeError(p)
  {
    var code := ProbeCode(p);
    HealthCheckResult(
      id := 0,
      healthCheckId := t.id,
      observedAt := now,
      healthStatus := if IsUp(code) then UP else DOWN,
      latencyMs := Some(p.latencyMs),
      httpCode := if code == 0 then None else Some(code),
      errorMessage := ProbeError(p))
  }

  /**
   * The target after runOneCheck: UP resets the failure count and clears the
   * error, DOWN counts one more failure and records the error; the check time,
   * latency and update time are set, and the configuration is untouched.
   */
  function Evaluated(t: HealthCheck, p: Probe, now: int): (r: HealthCheck)
    ensures r.status == ResultOf(t, p, now).healthStatus
    ensures r.status == UP ==> r.failCount == 0 && r.lastError.None?
    ensures r.status == DOWN ==> r.failCount == t.failCount + 1 && r.lastError == ProbeError(p)
    ensures StatusConsistent(r)
    ensures r.lastCheckedAt == Some(now) && r.updatedAt == Some(now) && r.responseTimeMs == Some(p.latencyMs)
    ensures r.(status := t.status, failCount := t.failCount, lastError := t.lastError,
               lastCheckedAt := t.lastCheckedAt, responseTimeMs := t.responseTimeMs, updatedAt := t.updatedAt) == t
  {
    var down := !IsUp(ProbeCode(p));
    t.(
      failCount := if down then t.failCount + 1 else 0,
      lastError := if down then ProbeError(p) else None,
      status := if down then DOWN else UP,
      lastCheckedAt := Some(now),
      responseTimeMs := Some(p.latencyMs),
      updatedAt := Some(now))
  }

  /** One scheduled check: the probe and the time it ran. */
  datatype Check = Check(probe: Probe, now: int)

  /** The target after a series of checks, oldest first. */
  function Replay(t: HealthCheck, checks: seq<Check>): HealthCheck {
    if checks == [] then t
    else
      var last := checks[|checks| - 1];
      Evaluated(Replay(t, checks[..|checks| - 1]), last.probe, last.now)
  }

  /** How many of the latest checks in a row came back down. */
  function TrailingDown(checks: seq<Check>): (n: nat)
    ensures n <= |checks|
    ensures forall i :: |checks| - n <= i < |checks| ==> !IsUp(ProbeCode(checks[i].probe))
    ensures n < |checks| ==> IsUp(ProbeCode(checks[|checks| - n - 1].probe))
  {
    if checks == [] || IsUp(ProbeCode(checks[|checks| - 1].probe)) then 0
    else TrailingDown(checks[..|checks| - 1]) + 1
  }

  /**
   * failCount counts consecutive failures: after any series of checks it is
   * the length of the final run of DOWN results, plus the starting count when
   * every check was down.
   */
  lemma {:induction false} ReplayFailCount(t: HealthCheck, checks: seq<Check>)
    ensures Replay(t, checks).failCount ==
              if TrailingDown(checks) == |checks| then t.failCount + |checks| else TrailingDown(checks)
  {
    if checks != [] {
      ReplayFailCount(t, checks[..|checks| - 1]);
    }
  }

  /** The due-check: never checked, or at least intervalSeconds whole seconds since the last check. */
  predicate ShouldRun(t: HealthCheck, now: int): (due: bool)
    ensures t.lastCheckedAt.None? ==> due
    ensures t.lastCheckedAt.Some? ==> (due <==> t.lastCheckedAt.value + t.intervalSeconds <= now)
  {
    t.lastCheckedAt.None? || now - t.lastCheckedAt.value >= t.intervalSeconds
  }

  /** A target just checked is not due again at the same instant, unless its interval is not positive. */
  lemma JustCheckedNotDue(t: HealthCheck, p: Probe, now: int)
    ensures ShouldRun(Evaluated(t, p, now), now) <==> t.intervalSeconds <= 0
  {
  }

  /** Once due, a target stays due as time goes on. */
  lemma DueStaysDue(t: HealthCheck, now: int, later: int)
    requires ShouldRun(t, now) && now <= later
    ensures ShouldRun(t, later)
  {
  }

  /** A target checked at `now` is next due exactly intervalSeconds later. */
  lemma NextDue(t: HealthCheck, p: Probe, now: int, later: int)
    ensures ShouldRun(Evaluated(t, p, now), later) <==> later >= now + t.intervalSeconds
  {
  }

  // ---- read side ----

  /** The page size getHealthCheckResultRecent asks for: the limit, capped at 500. */
  function RecentPageSize(limit: int): int {
    if limit < 500 then limit else 500
  }

  /**
   * getHealthCheckResultRecent: the newest results of the target, at most
   * min(limit, 500) of them; a limit below one is refused by PageRequest.
   */
  function Recent(results: seq<HealthCheckResult>, id: int, limit: int): (r: Result<seq<HealthCheckResult>, ServiceError>)
    ensures r.Failure? <==> limit < 1
    ensures r.Failure? ==> r.error == InvalidPageSize
    ensures r.Success? ==> |r.value| <= 500 && |r.value| <= limit
    ensures r.Success? ==> |r.value| == if RecentPageSize(limit) < |ByTarget(results, id)| then RecentPageSize(limit) else |ByTarget(results, id)|
    ensures r.Success? ==> NewestFirstOrder(r.value) && forall x :: x in r.value ==> x in results && x.healthCheckId == id
    ensures r.Success? ==> multiset(r.value) <= multiset(ByTarget(results, id))
    ensures r.Success? ==>
              forall x :: x in multiset(ByTarget(results, id)) - multiset(r.value) ==>
                forall y :: y in r.value ==> x.observedAt <= y.observedAt
  {
    var size := RecentPageSize(limit);
    if size < 1 then Failure(InvalidPageSize)
    else
      NewestPageIsNewest(results, id, size);
      Success(NewestPage(results, id, size))
  }

  /** The length of a summary window in seconds: "1h" and "24h" only. */
  function WindowSeconds(window: string): (r: Option<int>)
    ensures r.Some? <==> window == "1h" || window == "24h"
    ensures window == "1h" ==> r == Some(3600)
    ensures window == "24h" ==> r == Some(86400)
  {
    if window == "1h" then Some(3600)
    else if window == "24h" then Some(86400)
    else None
  }

  /** total == 0 ? 0.0 : up * 100.0 / total, as an exact ratio. */
  function UptimePercent(up: nat, total: nat): (r: real)
    requires up <= total
    ensures 0.0 <= r <= 100.0
    ensures total == 0 ==> r == 0.0
    ensures total > 0 ==> r * (total as real) == (up as real) * 100.0
    ensures total > 0 ==> (r == 100.0 <==> up == total)
  {
    if total == 0 then 0.0
    else
      var q := (up as real) * 100.0 / (total as real);
      assert q <= 100.0 by {
        assert (up as real) * 100.0 <= (total as real) * 100.0;
      }
      q
  }

  /**
   * The summary over the results observed from `from` on: the counts, the
   * exact uptime percentage (0 for an empty window), and the newest result's
   * status and code, "UNKNOWN" and null when the target has none.
   */
  function SummaryOf(results: seq<HealthCheckResult>, id: int, window: string, from: int): (s: Summary)
    ensures s.healthCheckId == id && s.window == window
    ensures s.total == CountSince(results, id, from) && s.up == CountWithStatusSince(results, id, UP, from)
    ensures s.up <= s.total && s.uptimePercent == UptimePercent(s.up, s.total)
    ensures Top1Newest(results, id).None? ==> s.latestStatus == "UNKNOWN" && s.latestHttpCode.None?
    ensures Top1Newest(results, id).Some? ==>
              s.latestStatus == StatusName(Top1Newest(results, id).value.healthStatus)
              && s.latestHttpCode == Top1Newest(results, id).value.httpCode
  {
    var total := CountSince(results, id, from);
    var up := CountWithStatusSince(results, id, UP, from);
    var latest := Top1Newest(results, id);
    Summary(
      healthCheckId := id,
      window := window,
      total := total,
      up := up,
      uptimePercent := UptimePercent(up, total),
      latestStatus := if latest.None? then "UNKNOWN" else StatusName(latest.value.healthStatus),
      latestHttpCode := if latest.None? then None else latest.value.httpCode)
  }

  /**
   * getHealthCheckSummary as written: the latency page is fetched with
   * PageRequest.of(0, min(total, 1000)) before the uptime is computed, and a
   * page size of zero throws, so a window without results is an error.
   */
  function SummaryAsWritten(results: seq<HealthCheckResult>, id: int, window: string, now: int): (r: Result<Summary, ServiceError>)
    ensures WindowSeconds(window).None? ==> r == Failure(InvalidWindow)
    ensures WindowSeconds(window).Some? ==>
              (r.Failure? <==> CountSince(results, id, now - WindowSeconds(window).value) == 0)
  {
    match WindowSeconds(window)
    case None => Failure(InvalidWindow)
    case Some(seconds) =>
      var s := SummaryOf(results, id, window, now - seconds);
      var pageSize := if s.total < 1000 then s.total else 1000;
      if pageSize < 1 then Failure(InvalidPageSize) else Success(s)
  }

  /** A target with no result at all has no summary in the code as written. */
  lemma EmptyWindowSummaryFails(id: int, now: int)
    ensures SummaryAsWritten([], id, "1h", now) == Failure(InvalidPageSize)
  {
    assert WindowSeconds("1h") == Some(3600);
  }

  /**
   * getHealthCheckSummary as its zero-total branch intends: the window
   * selects the start of the interval, and an empty window gets a summary
   * like any other.
   */
  function GetSummary(results: seq<HealthCheckResult>, id: int, window: string, now: int): (r: Result<Summary, ServiceError>)
    ensures r.Failure? <==> WindowSeconds(window).None?
    ensures r.Failure? ==> r.error == InvalidWindow
    ensures r.Success? ==> r.value == SummaryOf(results, id, window, now - WindowSeconds(window).value)
  {
    match WindowSeconds(window)
    case None => Failure(InvalidWindow)
    case Some(seconds) => Success(SummaryOf(results, id, window, now - seconds))
  }

  /** Where the code as written gives an error, the corrected summary of an empty window reports 0% and UNKNOWN. */
  lemma EmptyWindowSummaryIsZero(id: int, now: int)
    ensures GetSummary([], id, "1h", now).Success?
    ensures GetSummary([], id, "1h", now).value.uptimePercent == 0.0
    ensures GetSummary([], id, "1h", now).value.latestStatus == "UNKNOWN"
  {
    assert WindowSeconds("1h") == Some(3600);
  }

  /** The two agree whenever the window holds at least one result. */
  lemma SummaryAgreesWhenNonEmpty(results: seq<HealthCheckResult>, id: int, window: string, now: int)
    requires WindowSeconds(window).Some?
    requires CountSince(results, id, now - WindowSeconds(window).value) > 0
    ensures SummaryAsWritten(results, id, window, now) == GetSummary(results, id, window, now)
  {
  }

  // ---- the service over the stores ----

  /** The service bean: the two repositories (one Stores object) and the URL parser normalizeUrl relies on. */
  class HealthCheckService {
    const store: Stores
    const parse: string -> Option<Uri>

    constructor (store: Stores, parse: string -> Option<Uri>)
      ensures this.store == store && this.parse == parse
    {
      this.store := store;
      this.parse := parse;
    }

    /**
     * addHealthCheck: on success the built target is stored under the next id
     * and described in the response; on any error nothing is stored. Unique
     * URLs stay unique.
     */
    method AddHealthCheck(req: Request, now: int) returns (r: Result<Response, ServiceError>)
      requires store.Valid()
      requires req.url.Some?
      modifies store
      ensures store.Valid()
      ensures r.Failure? <==> AddValidation(old(store.targets), req, parse).Failure?
      ensures r.Failure? ==>
                && r.error == AddValidation(old(store.targets), req, parse).error
                && store.targets == old(store.targets) && store.nextTargetId == old(store.nextTargetId)
      ensures r.Success? ==>
                var id := old(store.nextTargetId);
                var t := NewTarget(req, AddValidation(old(store.targets), req, parse).value, now).(id := id);
                && id !in old(store.targets)
                && store.targets == old(store.targets)[id := t]
                && r.value == ToResponse(t)
      ensures store.results == old(store.results) && store.nextResultId == old(store.nextResultId)
      ensures UniqueUrls(old(store.targets)) ==> UniqueUrls(store.targets)
    {
      var url := AddValidation(store.targets, req, parse);
      if url.Failure? {
        return Failure(url.error);
      }
      ghost var before := store.targets;
      var saved := store.Insert(NewTarget(req, url.value, now));
      if UniqueUrls(before) {
        AddKeepsUrlsUnique(before, saved.id, saved);
      }
      r := Success(ToResponse(saved));
    }

    /**
     * updateHealthCheck: an unknown id is NotFound; otherwise the stored
     * target becomes Updated(...) or, on an error, stays as it was.
     */
    method UpdateHealthCheck(id: int, req: Request, now: int) returns (r: Result<Response, ServiceError>)
      requires store.Valid()
      modifies store
      ensures store.Valid()
      ensures id !in old(store.targets) ==> r == Failure(NotFound(id)) && store.targets == old(store.targets)
      ensures id in old(store.targets) ==>
                var u := Updated(old(store.targets), old(store.targets)[id], req, parse, now);
                && (r.Success? <==> u.Success?)
                && (u.Failure? ==> r.error == u.error && store.targets == old(store.targets))
                && (u.Success? ==> store.targets == old(store.targets)[id := u.value] && r.value == ToResponse(u.value))
      ensures store.results == old(store.results)
      ensures store.nextTargetId == old(store.nextTargetId) && store.nextResultId == old(store.nextResultId)
      ensures UniqueUrls(old(store.targets)) ==> UniqueUrls(store.targets)
    {
      if id !in store.targets {
        return Failure(NotFound(id));
      }
      var u := Updated(store.targets, store.targets[id], req, parse, now);
      if u.Failure? {
        return Failure(u.error);
      }
      if UniqueUrls(store.targets) {
        UpdateKeepsUrlsUnique(store.targets, id, req, parse, now);
      }
      store.Save(u.value);
      r := Success(ToResponse(u.value));
    }

    /** deleteHealthCheck: an unknown id is NotFound; otherwise the id leaves the store. */
    method DeleteHealthCheck(id: int) returns (err: Option<ServiceError>)
      requires store.Valid()
      modifies store
      ensures store.Valid()
      ensures err.Some? <==> id !in old(store.targets)
      ensures err.Some? ==> err.value == NotFound(id) && store.targets == old(store.targets)
      ensures err.None? ==> store.targets == old(store.targets) - {id}
      ensures store.results == old(store.results)
      ensures store.nextTargetId == old(store.nextTargetId) && store.nextResultId == old(store.nextResultId)
    {
      if id !in store.targets {
        return Some(NotFound(id));
      }
      store.DeleteById(id);
      err := None;
    }

    /**
     * runOneCheck for the stored target `id`: exactly one result is appended,
     * observed at now, and the target becomes Evaluated(...); no other target changes.
     */
    method RunOneCheck(id: nat, p: Probe, now: int) returns (saved: HealthCheckResult)
      requires store.Valid() && id in store.targets
      modifies store
      ensures store.Valid()
      ensures saved == ResultOf(old(store.targets)[id], p, now).(id := old(store.nextResultId))
      ensures store.results == old(store.results) + [saved]
      ensures store.targets == old(store.targets)[id := Evaluated(old(store.targets)[id], p, now)]
      ensures store.nextTargetId == old(store.nextTargetId) && store.nextResultId == old(store.nextResultId) + 1
    {
      var t := store.targets[id];
      saved := store.Append(ResultOf(t, p, now));
      store.Save(Evaluated(t, p, now));
    }
  }
}
