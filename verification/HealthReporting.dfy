/**
 The operator's health watcher: reports go out on change or when the last one is old, failures are
 reported but not remembered.  The reports handed to the client are compared with the current health.
 */
module HealthReporting {
  import opened Text

  /**
   A health result.  `body` is its canonical JSON without the timestamp, None when it cannot be
   serialised.
   */
  datatype Health = Health(success: bool, timestamp: string, body: Option<string>)

  /** A report handed to the client, with the clock reading of the check. */
  datatype Report = Report(health: Health, at: real)

  datatype Check = Check(health: Health, now: real, raises: bool)

  datatype State = State(last: Option<Health>, lastFullReportTime: real, checkCount: nat, log: seq<Report>)

  const INITIAL := State(None, 0.0, 0, [])

  /** Comparison of the JSON texts; without one the report is sent anyway. */
  predicate Differs(a: Health, b: Health) {
    a.body.None? || b.body.None? || a.body != b.body
  }

  predicate HasChanged(s: State, health: Health) {
    s.last.None? || Differs(s.last.value, health)
  }

  predicate IsForced(s: State, now: real, interval: real) {
    now - s.lastFullReportTime >= interval
  }

  function Step(s: State, c: Check, interval: real): State {
    var counted := s.(checkCount := s.checkCount + 1);
    if !c.health.success then
      if c.raises then counted else counted.(log := s.log + [Report(c.health, c.now)])
    else if IsForced(s, c.now, interval) || HasChanged(s, c.health) then
      if c.raises then counted
      else counted.(log := s.log + [Report(c.health, c.now)], last := Some(c.health), lastFullReportTime := c.now)
    else counted
  }

  class HealthWatcher {
    const interval: real
    var lastHealth: Option<Health>
    var lastFullReportTime: real
    var checkCount: nat
    ghost var handed: seq<Report>

    ghost function Abstract(): State
      reads this
    {
      State(lastHealth, lastFullReportTime, checkCount, handed)
    }

    constructor (interval: real)
      ensures Abstract() == INITIAL && this.interval == interval
    {
      this.interval := interval;
      lastHealth, lastFullReportTime, checkCount, handed := None, 0.0, 0, [];
    }

    /** One check; `raises` when handing the report to the client raises. */
    method CheckAndReport(health: Health, now: real, raises: bool) returns (completed: bool)
      modifies this
      ensures Abstract() == Step(old(Abstract()), Check(health, now, raises), interval)
      ensures !completed ==> raises
      ensures checkCount == old(checkCount) + 1
    {
      checkCount := checkCount + 1;
      if !health.success {
        if raises {
          return false;
        }
        handed := handed + [Report(health, now)];
        return true;
      }
      var forceReport := now - lastFullReportTime >= interval;
      var changed := lastHealth.None? || Differs(lastHealth.value, health);
      if forceReport || changed {
        if raises {
          return false;
        }
        handed := handed + [Report(health, now)];
        lastHealth := Some(health);
        lastFullReportTime := now;
      }
      return true;
    }
  }

  // ---------------------------------------------------------------------------------------
  // Runs
  // ---------------------------------------------------------------------------------------

  /** The successful reports in the log, in order. */
  function Successes(log: seq<Report>): seq<Report> {
    if log == [] then []
    else Successes(log[..|log| - 1]) + if log[|log| - 1].health.success then [log[|log| - 1]] else []
  }

  ghost predicate Invariant(s: State, interval: real) {
    var ok := Successes(s.log);
    && (s.last.None? <==> ok == [])
    && (s.last.Some? ==> ok[|ok| - 1] == Report(s.last.value, s.lastFullReportTime))
    && forall i, j :: 0 <= i < |ok| && 0 <= j < |ok| && j == i + 1 ==> AreApart(ok[i], ok[j], interval)
  }

  /** Far apart in time or different in content. */
  predicate AreApart(a: Report, b: Report, interval: real) {
    b.at - a.at < interval ==> Differs(a.health, b.health)
  }

  lemma StepKeepsInvariant(s: State, c: Check, interval: real)
    requires Invariant(s, interval)
    ensures Invariant(Step(s, c, interval), interval)
  {
  }

  function Run(s: State, checks: seq<Check>, interval: real): State
    decreases |checks|
  {
    if checks == [] then s else Run(Step(s, checks[0], interval), checks[1..], interval)
  }

  lemma {:induction false} RunKeepsInvariant(s: State, checks: seq<Check>, interval: real)
    requires Invariant(s, interval)
    ensures Invariant(Run(s, checks, interval), interval)
    decreases |checks|
  {
    if checks != [] {
      StepKeepsInvariant(s, checks[0], interval);
      RunKeepsInvariant(Step(s, checks[0], interval), checks[1..], interval);
    }
  }

  /** The report at `k` is the last successful one in the log. */
  predicate IsLastSuccess(log: seq<Report>, k: nat) {
    k < |log| && log[k].health.success && forall j :: k < j < |log| ==> !log[j].health.success
  }

  ghost predicate HasNoSuccess(log: seq<Report>) {
    forall k :: 0 <= k < |log| ==> !log[k].health.success
  }

  /** `r` is the last successful report. */
  ghost predicate EndsWith(log: seq<Report>, r: Report) {
    exists k: nat :: IsLastSuccess(log, k) && log[k] == r
  }

  lemma LastSuccessStep(log: seq<Report>, r: Report, last: Report)
    ensures r.health.success ==> EndsWith(log + [r], r)
    ensures !r.health.success && EndsWith(log, last) ==> EndsWith(log + [r], last)
  {
    var all := log + [r];
    if r.health.success {
      assert IsLastSuccess(all, |log|);
    } else if k: nat :| IsLastSuccess(log, k) && log[k] == last {
      assert IsLastSuccess(all, k) && all[k] == last;
    }
  }

  lemma {:induction false} SuccessesEnd(log: seq<Report>)
    ensures Successes(log) == [] <==> HasNoSuccess(log)
    ensures Successes(log) != [] ==> EndsWith(log, Successes(log)[|Successes(log)| - 1])
  {
    if log != [] {
      var front, r := log[..|log| - 1], log[|log| - 1];
      assert log == front + [r];
      SuccessesEnd(front);
      LastSuccessStep(front, r, if Successes(front) == [] then r else Successes(front)[|Successes(front)| - 1]);
    }
  }

  /** A check has something to say: a failure, the first success, another body than the last success, or one of old. */
  ghost predicate IsNews(log: seq<Report>, c: Check, interval: real) {
    || !c.health.success
    || HasNoSuccess(log)
    || c.health.body == None
    || exists k: nat :: IsLastSuccess(log, k) && (log[k].health.body != c.health.body || c.now - log[k].at >= interval)
  }

  /**
   After any run, a check that does not raise appends exactly its own report when it is news, and
   nothing otherwise.
   */
  lemma ReportsExactlyNews(checks: seq<Check>, c: Check, interval: real)
    ensures var log := Run(INITIAL, checks, interval).log;
            Step(Run(INITIAL, checks, interval), c, interval).log
            == if !c.raises && IsNews(log, c, interval) then log + [Report(c.health, c.now)] else log
  {
    RunKeepsInvariant(INITIAL, checks, interval);
    var s := Run(INITIAL, checks, interval);
    SuccessesEnd(s.log);
    if s.last.Some? {
      var k: nat :| IsLastSuccess(s.log, k) && s.log[k] == Successes(s.log)[|Successes(s.log)| - 1];
      forall j: nat | IsLastSuccess(s.log, j)
        ensures j == k
      {
      }
    }
  }

  /** A changed health reaches the client: after a completed successful check the last success in the log has the check's body. */
  lemma ChangedHealthIsReported(checks: seq<Check>, c: Check, interval: real)
    requires c.health.success && !c.raises && c.health.body.Some?
    ensures var log := Step(Run(INITIAL, checks, interval), c, interval).log;
            exists k: nat :: IsLastSuccess(log, k) && log[k].health.body == c.health.body
  {
    ReportsExactlyNews(checks, c, interval);
    var log := Run(INITIAL, checks, interval).log;
    if IsNews(log, c, interval) {
      assert IsLastSuccess(log + [Report(c.health, c.now)], |log|);
    } else {
      SuccessesEnd(log);
    }
  }

  /**
   After any run, once a successful check completes the last successful report equals the checked
   health apart from its timestamp, and it is younger than the full-report interval.
   */
  lemma LastSuccessIsCurrent(checks: seq<Check>, c: Check, interval: real)
    requires interval > 0.0 && c.health.success && !c.raises
    ensures var ok := Successes(Step(Run(INITIAL, checks, interval), c, interval).log);
            && ok != []
            && (ok[|ok| - 1].health == c.health || !Differs(ok[|ok| - 1].health, c.health))
            && c.now - ok[|ok| - 1].at < interval
  {
    RunKeepsInvariant(INITIAL, checks, interval);
    var s := Run(INITIAL, checks, interval);
    StepKeepsInvariant(s, c, interval);
  }

  /** Equal apart from the timestamp. */
  predicate IsSameHealth(a: Health, b: Health) {
    a == b || (a.success == b.success && !Differs(a, b))
  }

  /** The last report of any kind says what `health` says. */
  predicate IsLastReported(log: seq<Report>, health: Health) {
    log != [] && IsSameHealth(log[|log| - 1].health, health)
  }

  predicate EndsInSuccess(log: seq<Report>) {
    log != [] && log[|log| - 1].health.success
  }

  /**
   After any run, once a successful check completes the last report of any kind equals the checked
   health exactly when the previous report was a success or this check was forced or saw a change
   since the last success.  In the remaining case a failure stays the last word.
   */
  lemma LastReportIsCurrentIff(checks: seq<Check>, c: Check, interval: real)
    requires c.health.success && !c.raises
    ensures var s := Run(INITIAL, checks, interval);
            (IsLastReported(Step(s, c, interval).log, c.health)
             <==> EndsInSuccess(s.log) || IsForced(s, c.now, interval) || HasChanged(s, c.health))
  {
    RunKeepsInvariant(INITIAL, checks, interval);
    var s := Run(INITIAL, checks, interval);
    if s.log != [] {
      assert s.log == s.log[..|s.log| - 1] + [s.log[|s.log| - 1]];
    }
  }

  /** Recovery to the health reported before a failure goes unreported until the interval is over. */
  lemma RecoveryIsNotReported(good: Health, bad: Health, t: real, interval: real)
    requires good.success && !bad.success && good.body.Some? && interval > 0.0
    ensures var s := Run(INITIAL, [Check(good, t, false), Check(bad, t, false), Check(good, t, false)], interval);
            s.log == [Report(good, t), Report(bad, t)]
  {
    var a, b := Check(good, t, false), Check(bad, t, false);
    var s1 := Step(INITIAL, a, interval);
    var s2 := Step(s1, b, interval);
    assert s2.last == Some(good) && s2.lastFullReportTime == t;
    var s3 := Step(s2, a, interval);
    assert [a, b, a][1..] == [b, a] && [b, a][1..] == [a] && [a][1..] == [];
    assert Run(s3, [], interval) == s3;
    assert Run(s2, [a], interval) == s3;
    assert Run(s1, [b, a], interval) == s3;
  }

  /** Two successive successful reports closer together than the interval always differ. */
  lemma QuickReportsDiffer(checks: seq<Check>, interval: real, i: nat)
    requires i + 1 < |Successes(Run(INITIAL, checks, interval).log)|
    ensures var ok := Successes(Run(INITIAL, checks, interval).log);
            ok[i + 1].at - ok[i].at < interval ==> Differs(ok[i].health, ok[i + 1].health)
  {
    RunKeepsInvariant(INITIAL, checks, interval);
    var ok := Successes(Run(INITIAL, checks, interval).log);
    assert AreApart(ok[i], ok[i + 1], interval);
  }

  /** Why only successful reports are compared: the same failure is reported again at once. */
  lemma FailureRepeats(h: Health, now: real, interval: real)
    requires !h.success
    ensures Run(INITIAL, [Check(h, now, false), Check(h, now, false)], interval).log == [Report(h, now), Report(h, now)]
  {
    var c := Check(h, now, false);
    var s1 := Step(INITIAL, c, interval);
    var s2 := Step(s1, c, interval);
    assert [c, c][1..] == [c] && [c][1..] == [];
    assert Run(s2, [], interval) == s2;
    assert Run(s1, [c], interval) == s2;
  }
}
