/** Per-account call statistics and what a history of reports makes of them. */
module StatsRecord {
  import opened Prelude

  datatype AccountStats = AccountStats(
    totalCalls: int,
    successCalls: int,
    failedCalls: int,
    consecutiveFailures: int,
    lastUsedAt: Option<int>,
    lastErrorAt: Option<int>,
    lastErrorMsg: string)

  const FRESH := AccountStats(0, 0, 0, 0, None, None, "")

  function StatsOf(store: map<string, AccountStats>, id: string): AccountStats {
    if id in store then store[id] else FRESH
  }

  function AfterSuccess(st: AccountStats, now: int): AccountStats {
    st.(totalCalls := st.totalCalls + 1, successCalls := st.successCalls + 1,
        consecutiveFailures := 0, lastUsedAt := Some(now))
  }

  function AfterFailure(st: AccountStats, now: int, msg: string): AccountStats {
    st.(totalCalls := st.totalCalls + 1, failedCalls := st.failedCalls + 1,
        consecutiveFailures := st.consecutiveFailures + 1, lastErrorAt := Some(now), lastErrorMsg := msg)
  }

  /** One reported call. */
  datatype Report = Succeeded(now: int) | FailedWith(now: int, msg: string)

  function AfterReports(st: AccountStats, reports: seq<Report>): AccountStats {
    if reports == [] then st
    else
      var before := AfterReports(st, reports[..|reports| - 1]);
      match reports[|reports| - 1]
      case Succeeded(now) => AfterSuccess(before, now)
      case FailedWith(now, msg) => AfterFailure(before, now, msg)
  }

  /** n is the length of the run of failures the history ends with. */
  predicate EndsInFailures(reports: seq<Report>, n: nat) {
    && n <= |reports|
    && (forall i :: |reports| - n <= i < |reports| ==> reports[i].FailedWith?)
    && (n < |reports| ==> reports[|reports| - n - 1].Succeeded?)
  }

  function Successes(reports: seq<Report>): set<nat> {
    set i: nat | i < |reports| && reports[i].Succeeded?
  }

  lemma SuccessesNext(reports: seq<Report>, r: Report)
    ensures |Successes(reports + [r])| == |Successes(reports)| + (if r.Succeeded? then 1 else 0)
  {
    var more := reports + [r];
    assert forall i: nat :: i < |reports| ==> more[i] == reports[i];
    if r.Succeeded? {
      assert Successes(more) == Successes(reports) + {|reports|};
    } else {
      assert Successes(more) == Successes(reports);
    }
  }

  lemma FailureRunNext(reports: seq<Report>, r: Report, n: nat)
    requires EndsInFailures(reports, n)
    ensures EndsInFailures(reports + [r], if r.Succeeded? then 0 else n + 1)
  {
    var more := reports + [r];
    assert forall i: nat :: i < |reports| ==> more[i] == reports[i];
  }

  /** Calls add up, and the failure counter is the length of the trailing failure run. */
  lemma {:induction false} StatsCountHistory(reports: seq<Report>)
    ensures var st := AfterReports(FRESH, reports);
            && st.totalCalls == st.successCalls + st.failedCalls == |reports|
            && st.successCalls == |Successes(reports)|
            && st.consecutiveFailures >= 0 && EndsInFailures(reports, st.consecutiveFailures)
  {
    if reports != [] {
      var before, last := reports[..|reports| - 1], reports[|reports| - 1];
      StatsCountHistory(before);
      assert reports == before + [last];
      SuccessesNext(before, last);
      FailureRunNext(before, last, AfterReports(FRESH, before).consecutiveFailures);
    } else {
      assert Successes(reports) == {};
    }
  }

  /** The trailing run is unique, so the counter says exactly how long it is. */
  lemma FailureRunUnique(reports: seq<Report>, m: nat, n: nat)
    requires EndsInFailures(reports, m) && EndsInFailures(reports, n)
    ensures m == n
  {}

  /** What is remembered of a history is its last failure and its last success. */
  lemma {:induction false} LastOutcomes(st: AccountStats, reports: seq<Report>, i: nat)
    requires i < |reports| && forall j :: i < j < |reports| ==> reports[j].FailedWith? != reports[i].FailedWith?
    ensures var end := AfterReports(st, reports);
            match reports[i]
            case FailedWith(now, msg) => end.lastErrorAt == Some(now) && end.lastErrorMsg == msg
            case Succeeded(now) => end.lastUsedAt == Some(now)
  {
    if i < |reports| - 1 {
      LastOutcomes(st, reports[..|reports| - 1], i);
    }
  }

  /** A history of successes only leaves the last error as it was, and one of failures only the last use. */
  lemma {:induction false} OtherOutcomeKept(st: AccountStats, reports: seq<Report>)
    ensures (forall i :: 0 <= i < |reports| ==> reports[i].Succeeded?) ==>
              AfterReports(st, reports).lastErrorAt == st.lastErrorAt
              && AfterReports(st, reports).lastErrorMsg == st.lastErrorMsg
    ensures (forall i :: 0 <= i < |reports| ==> reports[i].FailedWith?) ==>
              AfterReports(st, reports).lastUsedAt == st.lastUsedAt
  {
    if reports != [] {
      OtherOutcomeKept(st, reports[..|reports| - 1]);
    }
  }
}
