/** The health checker: registered schedules, the cached order, and one full run with skip propagation. */
module HealthChecker {
  import opened Prelude
  import opened HealthGraph

  datatype CheckStatus = Passed | Warned | Failed | Skipped | Errored

  datatype CheckResult = CheckResult(checkName: string, status: CheckStatus, severity: Severity, message: string)

  datatype CheckSchedule = CheckSchedule(check: Check, interval: int, enabled: bool)

  predicate Blocks(s: CheckStatus) {
    s == Failed || s == Errored || s == Skipped
  }

  function SkippedResult(check: Check): CheckResult {
    CheckResult(check.name, Skipped, check.severity, "prerequisite dependency check failed, skipping execution")
  }

  // ---- What a run means, without reference to an order ----

  /** A chain of registered dependencies leads from n to a check whose own outcome blocks. */
  ghost predicate BlockingChain(g: Graph, own: map<string, CheckStatus>, n: string, p: seq<string>) {
    && |p| >= 2 && p[0] == n && Walk(g, p)
    && p[|p| - 1] in own && Blocks(own[p[|p| - 1]])
  }

  ghost predicate Blocked(g: Graph, own: map<string, CheckStatus>, n: string) {
    exists p :: BlockingChain(g, own, n, p)
  }

  ghost function Verdict(g: Graph, own: map<string, CheckStatus>, n: string): CheckStatus
    requires n in own
  {
    if Blocked(g, own, n) then Skipped else own[n]
  }

  // ---- The run itself ----

  predicate ShouldSkip(check: Check, statusMap: map<string, CheckStatus>) {
    exists dep :: dep in check.dependsOn && dep in statusMap && Blocks(statusMap[dep])
  }

  /** The status map after running the checks in the given order. */
  function Run(sorted: seq<Check>, probe: Check -> CheckResult): map<string, CheckStatus> {
    if sorted == [] then map[]
    else
      var before, check := Run(sorted[..|sorted| - 1], probe), sorted[|sorted| - 1];
      before[check.name := if ShouldSkip(check, before) then Skipped else probe(check).status]
  }

  lemma ChainExtends(g: Graph, own: map<string, CheckStatus>, n: string, d: string)
    requires Edge(g, n, d) && d in own
    ensures Blocks(own[d]) ==> Blocked(g, own, n)
    ensures Blocked(g, own, d) ==> Blocked(g, own, n)
  {
    if Blocks(own[d]) {
      assert BlockingChain(g, own, n, [n, d]);
    }
    if Blocked(g, own, d) {
      var p :| BlockingChain(g, own, d, p);
      var q := [n] + p;
      assert Walk(g, q);
      assert q[|q| - 1] == p[|p| - 1];
      assert BlockingChain(g, own, n, q);
    }
  }

  /** The first step of a blocking chain already has a blocking verdict. */
  lemma ChainFirstStep(g: Graph, own: map<string, CheckStatus>, n: string) returns (d: string)
    requires Blocked(g, own, n) && own.Keys == g.Keys
    ensures Edge(g, n, d) && Blocks(Verdict(g, own, d))
  {
    var p :| BlockingChain(g, own, n, p);
    d := p[1];
    assert Edge(g, p[0], p[1]);
    if |p| > 2 {
      var q := p[1..];
      assert Walk(g, q) by {
        forall i | 0 <= i < |q| - 1
          ensures Edge(g, q[i], q[i + 1])
        {
          assert Edge(g, p[i + 1], p[i + 1 + 1]);
        }
      }
      assert BlockingChain(g, own, d, q);
    }
  }

  /** A blocked check is blocked by one that really ran: the end of some chain is itself not blocked. */
  lemma {:induction false} BlockedByOneThatRan(g: Graph, own: map<string, CheckStatus>, order: seq<string>, at: nat)
    returns (p: seq<string>)
    requires ValidOrder(g, order) && own.Keys == g.Keys
    requires at < |order| && Blocked(g, own, order[at])
    ensures BlockingChain(g, own, order[at], p) && !Blocked(g, own, p[|p| - 1])
    decreases at
  {
    var n := order[at];
    var d := ChainFirstStep(g, own, n);
    assert d in order[..at];
    var j :| 0 <= j < at && order[j] == d;
    if Blocked(g, own, d) {
      var q := BlockedByOneThatRan(g, own, order, j);
      p := [n] + q;
      assert Walk(g, p);
      assert p[|p| - 1] == q[|q| - 1];
    } else {
      p := [n, d];
    }
  }

  /** The dependency graph of a set of checks sorted or not: each name once. */
  ghost predicate Describes(g: Graph, checks: seq<Check>) {
    && Distinct(NamesOf(checks))
    && Elements(NamesOf(checks)) == g.Keys
    && forall c :: c in checks ==> g[c.name] == Elements(c.dependsOn)
  }

  /** In a valid order, one step of the run skips exactly the blocked checks. */
  lemma SkipIsBlocked(g: Graph, own: map<string, CheckStatus>, sorted: seq<Check>, i: nat,
                      statusMap: map<string, CheckStatus>)
    requires ValidOrder(g, NamesOf(sorted)) && Describes(g, sorted) && own.Keys == g.Keys
    requires i < |sorted|
    requires statusMap.Keys == Elements(NamesOf(sorted)[..i])
    requires forall n :: n in statusMap ==> statusMap[n] == Verdict(g, own, n)
    ensures ShouldSkip(sorted[i], statusMap) <==> Blocked(g, own, sorted[i].name)
  {
    var check, names := sorted[i], NamesOf(sorted);
    assert names[i] in Elements(names) && check in sorted;
    if ShouldSkip(check, statusMap) {
      var dep :| dep in check.dependsOn && dep in statusMap && Blocks(statusMap[dep]);
      assert dep in Elements(names);
      ChainExtends(g, own, check.name, dep);
    }
    if Blocked(g, own, check.name) {
      var d := ChainFirstStep(g, own, check.name);
      assert d in names[..i];
      assert d in check.dependsOn && d in statusMap && Blocks(statusMap[d]);
    }
  }

  /**
   Whatever valid order is used, a check is skipped exactly when it is blocked, and otherwise keeps its own outcome.
   */
  lemma {:induction false} RunIsVerdict(g: Graph, own: map<string, CheckStatus>, sorted: seq<Check>,
                                        probe: Check -> CheckResult, i: nat)
    requires ValidOrder(g, NamesOf(sorted)) && Describes(g, sorted) && own.Keys == g.Keys
    requires forall c :: c in sorted ==> own[c.name] == probe(c).status
    requires i <= |sorted|
    ensures var status := Run(sorted[..i], probe);
            && status.Keys == Elements(NamesOf(sorted)[..i])
            && forall n :: n in status ==> status[n] == Verdict(g, own, n)
  {
    hide Blocked, ShouldSkip;
    if i > 0 {
      RunIsVerdict(g, own, sorted, probe, i - 1);
      var before := Run(sorted[..i - 1], probe);
      SkipIsBlocked(g, own, sorted, i - 1, before);
      assert sorted[..i][..i - 1] == sorted[..i - 1];
      assert NamesOf(sorted)[..i] == NamesOf(sorted)[..i - 1] + [sorted[i - 1].name];
    }
  }

  // ---- Registered schedules ----

  function EnabledGraph(schedules: map<string, CheckSchedule>): Graph {
    map n | n in schedules && schedules[n].enabled :: Elements(schedules[n].check.dependsOn)
  }

  /** The status each enabled check would report if it were run. */
  function Outcomes(schedules: map<string, CheckSchedule>, probe: Check -> CheckResult): map<string, CheckStatus> {
    map n | n in schedules && schedules[n].enabled :: probe(schedules[n].check).status
  }

  predicate KeyedByName(schedules: map<string, CheckSchedule>) {
    forall n :: n in schedules ==> schedules[n].check.name == n
  }

  /** The enabled checks, each once, dependencies first. */
  ghost predicate SortsEnabled(schedules: map<string, CheckSchedule>, sorted: seq<Check>) {
    && ValidOrder(EnabledGraph(schedules), NamesOf(sorted))
    && forall c :: c in sorted ==> c.name in schedules && schedules[c.name].check == c
  }

  /** Every valid order of the enabled checks gives the same statuses: the verdicts. */
  lemma RunOfSchedules(schedules: map<string, CheckSchedule>, sorted: seq<Check>, probe: Check -> CheckResult)
    requires KeyedByName(schedules) && SortsEnabled(schedules, sorted)
    ensures var g, own := EnabledGraph(schedules), Outcomes(schedules, probe);
            Run(sorted, probe) == map n | n in g :: Verdict(g, own, n)
  {
    SortedDescribes(schedules, sorted);
    SortedOutcomes(schedules, sorted, probe);
    assert sorted[..|sorted|] == sorted && NamesOf(sorted)[..|sorted|] == NamesOf(sorted);
    hide Verdict, Run, Describes, Distinct, NamesOf;
    RunIsVerdict(EnabledGraph(schedules), Outcomes(schedules, probe), sorted, probe, |sorted|);
  }

  lemma SortedOutcomes(schedules: map<string, CheckSchedule>, sorted: seq<Check>, probe: Check -> CheckResult)
    requires KeyedByName(schedules) && SortsEnabled(schedules, sorted)
    ensures var g, own := EnabledGraph(schedules), Outcomes(schedules, probe);
            && own.Keys == g.Keys
            && forall c :: c in sorted ==> c.name in own && own[c.name] == probe(c).status
  {
    SortedDescribes(schedules, sorted);
  }

  lemma SortedDescribes(schedules: map<string, CheckSchedule>, sorted: seq<Check>)
    requires KeyedByName(schedules) && SortsEnabled(schedules, sorted)
    ensures Describes(EnabledGraph(schedules), sorted)
    ensures forall c :: c in sorted ==> c.name in schedules && schedules[c.name].enabled
  {
    forall c | c in sorted
      ensures c.name in schedules && schedules[c.name].enabled
    {
      var i :| 0 <= i < |sorted| && sorted[i] == c;
      assert NamesOf(sorted)[i] in Elements(NamesOf(sorted));
    }
  }

  /** Two runs over the same schedules agree on every check, however the map was iterated. */
  lemma OrderIndependent(schedules: map<string, CheckSchedule>, sorted1: seq<Check>, sorted2: seq<Check>,
                         probe: Check -> CheckResult)
    requires KeyedByName(schedules) && SortsEnabled(schedules, sorted1) && SortsEnabled(schedules, sorted2)
    ensures Run(sorted1, probe) == Run(sorted2, probe)
  {
    RunOfSchedules(schedules, sorted1, probe);
    RunOfSchedules(schedules, sorted2, probe);
  }

  /** A skipped check is skipped because some check in its chain of dependencies ran and ended badly. */
  lemma SkippedForAReason(schedules: map<string, CheckSchedule>, sorted: seq<Check>, probe: Check -> CheckResult,
                          n: string)
    requires KeyedByName(schedules) && SortsEnabled(schedules, sorted)
    requires n in EnabledGraph(schedules)
    ensures var g, own := EnabledGraph(schedules), Outcomes(schedules, probe);
            Blocked(g, own, n) <==>
              exists p :: BlockingChain(g, own, n, p) && !Blocked(g, own, p[|p| - 1])
  {
    var g, own := EnabledGraph(schedules), Outcomes(schedules, probe);
    if Blocked(g, own, n) {
      assert n in Elements(NamesOf(sorted));
      var at :| 0 <= at < |sorted| && NamesOf(sorted)[at] == n;
      var p := BlockedByOneThatRan(g, own, NamesOf(sorted), at);
      assert BlockingChain(g, own, n, p);
    }
  }

  datatype Change = Register(schedule: CheckSchedule) | Unregister(name: string)

  function Apply(schedules: map<string, CheckSchedule>, change: Change): map<string, CheckSchedule> {
    match change
    case Register(s) => schedules[s.check.name := s]
    case Unregister(n) => schedules - {n}
  }

  function ApplyAll(schedules: map<string, CheckSchedule>, changes: seq<Change>): map<string, CheckSchedule> {
    if changes == [] then schedules
    else Apply(ApplyAll(schedules, changes[..|changes| - 1]), changes[|changes| - 1])
  }

  /** What a run checks: each check has one outcome on it. ran lists the checks executed on it. */
  class Target {
    const probe: Check -> CheckResult
    ghost var ran: seq<Check>

    constructor (probe: Check -> CheckResult)
      ensures this.probe == probe && ran == []
    {
      this.probe, ran := probe, [];
    }

    method Execute(check: Check) returns (result: CheckResult)
      modifies this
      ensures result == probe(check) && ran == old(ran) + [check]
    {
      ran := ran + [check];
      return probe(check);
    }
  }

  class HealthChecker {
    var schedules: map<string, CheckSchedule>
    var sortedChecks: seq<Check>
    var sortErr: Option<string>

    /** The cached order is a sort of exactly the enabled checks, or the error is set because they have a cycle. */
    ghost predicate Valid()
      reads this
    {
      && KeyedByName(schedules)
      && (sortErr.Some? <==> HasCycle(EnabledGraph(schedules)))
      && (sortErr.None? ==> SortsEnabled(schedules, sortedChecks))
      && (sortErr.Some? ==> sortedChecks == [])
    }

    constructor ()
      ensures Valid() && schedules == map[]
    {
      schedules, sortedChecks, sortErr := map[], [], None;
      new;
      EmptyHasNoCycle();
    }

    method Register(schedule: CheckSchedule)
      requires Valid()
      modifies this
      ensures Valid() && schedules == Apply(old(schedules), Change.Register(schedule))
    {
      schedules := schedules[schedule.check.name := schedule];
      RebuildSortedChecks();
    }

    method Unregister(checkName: string)
      requires Valid()
      modifies this
      ensures Valid() && schedules == Apply(old(schedules), Change.Unregister(checkName))
    {
      schedules := schedules - {checkName};
      RebuildSortedChecks();
    }

    method RebuildSortedChecks()
      requires KeyedByName(schedules)
      modifies this`sortedChecks, this`sortErr
      ensures Valid()
    {
      var enabledChecks := EnabledChecks();
      if |enabledChecks| == 0 {
        sortedChecks, sortErr := [], None;
        EmptyHasNoCycle();
        assert EnabledGraph(schedules) == map[];
        return;
      }
      var r := TopologicalSort(enabledChecks);
      EnabledGraphOf(schedules, enabledChecks);
      match r {
        case Success(sorted) =>
          sortedChecks, sortErr := sorted, None;
          SortedMembers(schedules, enabledChecks, sorted);
        case Failure(e) =>
          sortedChecks, sortErr := [], Some(e);
      }
    }

    /** The enabled checks in whatever order the map is iterated. */
    method EnabledChecks() returns (checks: seq<Check>)
      requires KeyedByName(schedules)
      ensures ListsEnabled(schedules, checks)
    {
      checks := [];
      var remaining := schedules.Keys;
      while remaining != {}
        invariant remaining <= schedules.Keys
        invariant Distinct(NamesOf(checks))
        invariant forall c :: c in checks ==>
                    && c.name in schedules && c.name !in remaining
                    && schedules[c.name].check == c && schedules[c.name].enabled
        invariant forall n :: n in schedules && n !in remaining && schedules[n].enabled ==> schedules[n].check in checks
        decreases |remaining|
      {
        var n :| n in remaining;
        remaining := remaining - {n};
        if schedules[n].enabled {
          ghost var names := NamesOf(checks);
          assert forall i :: 0 <= i < |names| ==> checks[i] in checks && names[i] != n;
          assert NamesOf(checks + [schedules[n].check]) == names + [n];
          checks := checks + [schedules[n].check];
        }
      }
    }

    /** Any history of registrations leaves the cache in agreement with the schedules it leads to. */
    method Replay(changes: seq<Change>)
      requires Valid()
      modifies this
      ensures Valid() && schedules == ApplyAll(old(schedules), changes)
    {
      ghost var start := schedules;
      for i := 0 to |changes|
        invariant Valid() && schedules == ApplyAll(start, changes[..i])
      {
        assert changes[..i + 1][..i] == changes[..i];
        match changes[i] {
          case Register(s) => Register(s);
          case Unregister(n) => Unregister(n);
        }
      }
      assert changes[..|changes|] == changes;
    }

    /**
     Runs every enabled check that is not blocked, once, in order. It fails exactly when the dependencies are cyclic.
     */
    method RunAll(target: Target) returns (r: Result<seq<CheckResult>, string>)
      requires Valid()
      modifies target
      ensures r.Failure? <==> HasCycle(EnabledGraph(schedules))
      ensures r.Failure? ==> target.ran == old(target.ran)
      ensures r.Success? ==>
                var g, own := EnabledGraph(schedules), Outcomes(schedules, target.probe);
                && r.value == ReportOf(g, own, sortedChecks, target.probe)
                && target.ran == old(target.ran) + NotBlocked(g, own, sortedChecks)
      ensures r.Success? ==>
                && |r.value| == |sortedChecks|
                && (forall n :: n in schedules ==> (schedules[n].enabled <==> schedules[n].check in sortedChecks))
                && forall i :: 0 <= i < |sortedChecks| ==>
                     AnswersFor(sortedChecks, r.value, target.ran[|old(target.ran)|..], target.probe, i)
    {
      if sortErr.Some? {
        return Failure("health: topological sort failed: " + sortErr.value);
      }
      var sorted := sortedChecks;
      var results: seq<CheckResult> := [];
      var statusMap: map<string, CheckStatus> := map[];
      ghost var probe := target.probe;
      ghost var g, own := EnabledGraph(schedules), Outcomes(schedules, probe);
      for i := 0 to |sorted|
        invariant statusMap == Run(sorted[..i], probe)
        invariant results == ReportOf(g, own, sorted[..i], probe)
        invariant target.ran == old(target.ran) + NotBlocked(g, own, sorted[..i])
      {
        hide Run, ReportOf, NotBlocked, Blocked, ShouldSkip, SortsEnabled, KeyedByName;
        var check := sorted[i];
        RunStep(schedules, sorted, probe, i);
        if ShouldSkip(check, statusMap) {
          results := results + [SkippedResult(check)];
          statusMap := statusMap[check.name := Skipped];
        } else {
          var result := target.Execute(check);
          results := results + [result];
          statusMap := statusMap[check.name := result.status];
        }
      }
      assert sorted[..|sorted|] == sorted;
      hide Run, Blocked, ShouldSkip, SortsEnabled, KeyedByName, AnswersFor;
      FailuresPropagate(schedules, sorted, probe);
      assert target.ran[|old(target.ran)|..] == NotBlocked(g, own, sorted);
      return Success(results);
    }
  }

  /** Some enabled check that check i depends on is reported as failed, in error or skipped. */
  ghost predicate DependencyReportedBad(sorted: seq<Check>, report: seq<CheckResult>, i: nat)
    requires |report| == |sorted| && i < |sorted|
  {
    exists j :: 0 <= j < |sorted| &&
      sorted[j].name in sorted[i].dependsOn && report[j].status in {Failed, Errored, Skipped}
  }

  /** What the report says of check i, told from what it says of the checks it depends on. */
  ghost predicate AnswersFor(sorted: seq<Check>, report: seq<CheckResult>, executed: seq<Check>,
                             probe: Check -> CheckResult, i: nat)
    requires |report| == |sorted| && i < |sorted|
  {
    if DependencyReportedBad(sorted, report, i) then
      && report[i].checkName == sorted[i].name && report[i].severity == sorted[i].severity
      && report[i].status == Skipped && sorted[i] !in executed
    else report[i] == probe(sorted[i]) && sorted[i] in executed
  }

  lemma {:induction false} ReportAt(g: Graph, own: map<string, CheckStatus>, checks: seq<Check>,
                                    probe: Check -> CheckResult)
    ensures |ReportOf(g, own, checks, probe)| == |checks|
    ensures forall i :: 0 <= i < |checks| ==>
              ReportOf(g, own, checks, probe)[i] ==
              if Blocked(g, own, checks[i].name) then SkippedResult(checks[i]) else probe(checks[i])
  {
    hide Blocked;
    if checks != [] {
      ReportAt(g, own, checks[..|checks| - 1], probe);
    }
  }

  lemma {:induction false} NotBlockedMembers(g: Graph, own: map<string, CheckStatus>, checks: seq<Check>, c: Check)
    ensures c in NotBlocked(g, own, checks) <==> c in checks && !Blocked(g, own, c.name)
  {
    if checks != [] {
      var rest, last := checks[..|checks| - 1], checks[|checks| - 1];
      assert checks == rest + [last];
      NotBlockedMembers(g, own, rest, c);
    }
  }

  /** A check is blocked exactly when the verdict of one it depends on is one of the three bad ones. */
  lemma BlockedByVerdict(g: Graph, own: map<string, CheckStatus>, n: string)
    requires own.Keys == g.Keys
    ensures Blocked(g, own, n) <==>
              exists d :: Edge(g, n, d) && Verdict(g, own, d) in {Failed, Errored, Skipped}
  {
    if Blocked(g, own, n) {
      var d := ChainFirstStep(g, own, n);
    }
    if d :| Edge(g, n, d) && Verdict(g, own, d) in {Failed, Errored, Skipped} {
      ChainExtends(g, own, n, d);
    }
  }

  /**
   A run reports every enabled check: as skipped, without executing it, exactly when an enabled check it depends on is
   reported as failed, in error or skipped; otherwise by what executing it gave.
   */
  lemma FailuresPropagate(schedules: map<string, CheckSchedule>, sorted: seq<Check>, probe: Check -> CheckResult)
    requires KeyedByName(schedules) && SortsEnabled(schedules, sorted)
    ensures forall n :: n in schedules ==> (schedules[n].enabled <==> schedules[n].check in sorted)
    ensures var g, own := EnabledGraph(schedules), Outcomes(schedules, probe);
            var report, executed := ReportOf(g, own, sorted, probe), NotBlocked(g, own, sorted);
            |report| == |sorted| &&
            forall i :: 0 <= i < |sorted| ==> AnswersFor(sorted, report, executed, probe, i)
  {
    var g, own := EnabledGraph(schedules), Outcomes(schedules, probe);
    var report := ReportOf(g, own, sorted, probe);
    SortedListsEnabled(schedules, sorted);
    ReportAt(g, own, sorted, probe);
    forall i | 0 <= i < |sorted|
      ensures AnswersFor(sorted, report, NotBlocked(g, own, sorted), probe, i)
    {
      NotBlockedMembers(g, own, sorted, sorted[i]);
      ReportedIsVerdict(schedules, sorted, probe, i);
    }
  }

  lemma SortedListsEnabled(schedules: map<string, CheckSchedule>, sorted: seq<Check>)
    requires KeyedByName(schedules) && SortsEnabled(schedules, sorted)
    ensures forall n :: n in schedules ==> (schedules[n].enabled <==> schedules[n].check in sorted)
  {
    SortedDescribes(schedules, sorted);
    forall n | n in schedules && schedules[n].enabled
      ensures schedules[n].check in sorted
    {
      assert n in Elements(NamesOf(sorted));
      var i :| 0 <= i < |sorted| && NamesOf(sorted)[i] == n;
      assert sorted[i] in sorted;
    }
  }

  lemma ReportedIsVerdict(schedules: map<string, CheckSchedule>, sorted: seq<Check>, probe: Check -> CheckResult,
                          i: nat)
    requires KeyedByName(schedules) && SortsEnabled(schedules, sorted) && i < |sorted|
    ensures var g, own := EnabledGraph(schedules), Outcomes(schedules, probe);
            var report := ReportOf(g, own, sorted, probe);
            |report| == |sorted| && (Blocked(g, own, sorted[i].name) <==> DependencyReportedBad(sorted, report, i))
  {
    var g, own := EnabledGraph(schedules), Outcomes(schedules, probe);
    SortedDescribes(schedules, sorted);
    SortedOutcomes(schedules, sorted, probe);
    ReportAt(g, own, sorted, probe);
    assert forall j :: 0 <= j < |sorted| ==>
             sorted[j] in sorted && ReportOf(g, own, sorted, probe)[j].status == Verdict(g, own, sorted[j].name);
    hide SortsEnabled, ReportOf, Blocked, Verdict, EnabledGraph, Outcomes, KeyedByName, Edge;
    BlockedByVerdict(g, own, sorted[i].name);
    DependenciesListed(g, sorted, i);
  }

  /** The checks that one depends on are those listed under the names it declares. */
  lemma DependenciesListed(g: Graph, sorted: seq<Check>, i: nat)
    requires Describes(g, sorted) && i < |sorted|
    ensures forall d :: Edge(g, sorted[i].name, d) ==> exists j :: 0 <= j < |sorted| && sorted[j].name == d
    ensures forall j :: 0 <= j < |sorted| ==>
              (Edge(g, sorted[i].name, sorted[j].name) <==> sorted[j].name in sorted[i].dependsOn)
  {
    assert sorted[i] in sorted;
    forall j | 0 <= j < |sorted|
      ensures sorted[j].name in g
    {
      assert NamesOf(sorted)[j] in Elements(NamesOf(sorted));
    }
    forall d | Edge(g, sorted[i].name, d)
      ensures exists j :: 0 <= j < |sorted| && sorted[j].name == d
    {
      assert d in Elements(NamesOf(sorted));
      var j :| 0 <= j < |sorted| && NamesOf(sorted)[j] == d;
      assert sorted[j].name == d;
    }
  }

  /** One result a check: the skip notice for a blocked one, its own result otherwise. */
  ghost function ReportOf(g: Graph, own: map<string, CheckStatus>, checks: seq<Check>,
                          probe: Check -> CheckResult): seq<CheckResult>
  {
    if checks == [] then []
    else
      var last := checks[|checks| - 1];
      ReportOf(g, own, checks[..|checks| - 1], probe) +
        [if Blocked(g, own, last.name) then SkippedResult(last) else probe(last)]
  }

  ghost function NotBlocked(g: Graph, own: map<string, CheckStatus>, checks: seq<Check>): seq<Check> {
    if checks == [] then []
    else
      var last := checks[|checks| - 1];
      NotBlocked(g, own, checks[..|checks| - 1]) + (if Blocked(g, own, last.name) then [] else [last])
  }

  /** What the next iteration of a run adds to the status map, the report and the checks run. */
  lemma RunStep(schedules: map<string, CheckSchedule>, sorted: seq<Check>, probe: Check -> CheckResult, i: nat)
    requires KeyedByName(schedules) && SortsEnabled(schedules, sorted) && i < |sorted|
    ensures var g, own := EnabledGraph(schedules), Outcomes(schedules, probe);
            var before, check := sorted[..i], sorted[i];
            var skip := ShouldSkip(check, Run(before, probe));
            && Run(sorted[..i + 1], probe) ==
               Run(before, probe)[check.name := if skip then Skipped else probe(check).status]
            && ReportOf(g, own, sorted[..i + 1], probe) == ReportOf(g, own, before, probe) +
               [if skip then SkippedResult(check) else probe(check)]
            && NotBlocked(g, own, sorted[..i + 1]) == NotBlocked(g, own, before) + (if skip then [] else [check])
  {
    var g, own := EnabledGraph(schedules), Outcomes(schedules, probe);
    assert sorted[..i + 1][..i] == sorted[..i];
    SortedDescribes(schedules, sorted);
    RunIsVerdict(g, own, sorted, probe, i);
    SkipIsBlocked(g, own, sorted, i, Run(sorted[..i], probe));
  }

  ghost predicate ListsEnabled(schedules: map<string, CheckSchedule>, checks: seq<Check>) {
    && Distinct(NamesOf(checks))
    && (forall c :: c in checks ==> c.name in schedules && schedules[c.name].check == c && schedules[c.name].enabled)
    && (forall n :: n in schedules && schedules[n].enabled ==> schedules[n].check in checks)
  }

  lemma EmptyHasNoCycle()
    ensures !HasCycle(map[])
  {
    forall p: seq<string> | |p| >= 2
      ensures !IsCycle(map[], p)
    {
      assert !Edge(map[], p[0], p[1]);
    }
  }

  lemma EnabledGraphOf(schedules: map<string, CheckSchedule>, checks: seq<Check>)
    requires KeyedByName(schedules) && ListsEnabled(schedules, checks)
    ensures GraphOf(checks) == EnabledGraph(schedules)
  {
    var g := EnabledGraph(schedules);
    assert Registered(checks) == g.Keys by {
      forall n | n in g.Keys
        ensures n in Registered(checks)
      {
        assert schedules[n].check in checks;
      }
    }
    hide DepTable, Distinct, NamesOf, Registered;
    forall n | n in g
      ensures DepTable(checks)[n] == schedules[n].check.dependsOn
    {
      DepTableOfDistinct(checks, schedules[n].check);
    }
  }

  /** With unique names a check's own list is all that is declared under its name. */
  lemma {:induction false} DepTableOfDistinct(checks: seq<Check>, c: Check)
    requires Distinct(NamesOf(checks)) && c in checks
    ensures DepTable(checks)[c.name] == c.dependsOn
  {
    var rest, last := checks[..|checks| - 1], checks[|checks| - 1];
    assert checks == rest + [last];
    LastNameIsNew(rest, last);
    hide Distinct, NamesOf;
    if c != last {
      DepTableOfDistinct(rest, c);
    }
  }

  lemma LastNameIsNew(rest: seq<Check>, last: Check)
    requires Distinct(NamesOf(rest + [last]))
    ensures Distinct(NamesOf(rest)) && forall d :: d in rest ==> d.name != last.name
  {
    var names := NamesOf(rest + [last]);
    assert forall i :: 0 <= i < |rest| ==> names[i] == NamesOf(rest)[i];
    forall d | d in rest
      ensures d.name != last.name
    {
      var i :| 0 <= i < |rest| && rest[i] == d;
      assert names[i] != names[|rest|];
    }
  }

  lemma SortedMembers(schedules: map<string, CheckSchedule>, checks: seq<Check>, sorted: seq<Check>)
    requires ListsEnabled(schedules, checks) && multiset(sorted) == multiset(checks)
    ensures forall c :: c in sorted ==> c.name in schedules && schedules[c.name].check == c
  {
    forall c | c in sorted
      ensures c in checks
    {
      assert c in multiset(sorted);
    }
  }
}
