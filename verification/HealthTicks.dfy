/** The background loop of the health checker: which checks a tick runs, and how far apart runs are over any history. */
module HealthTicks {
  import opened Prelude
  import opened HealthGraph
  import opened HealthChecker

  /** completed is false when cancellation was noticed before the last check of the last target. */
  datatype Tick = Tick(now: int, leader: bool, completed: bool)

  predicate Due(s: CheckSchedule, lastRun: map<string, int>, now: int) {
    && s.enabled && s.interval > 0
    && (s.check.name in lastRun ==> now - lastRun[s.check.name] >= s.interval)
  }

  function DueNames(schedules: map<string, CheckSchedule>, lastRun: map<string, int>, now: int): set<string> {
    set n | n in schedules && Due(schedules[n], lastRun, now)
  }

  function Step(schedules: map<string, CheckSchedule>, lastRun: map<string, int>, tick: Tick): map<string, int> {
    if tick.leader && tick.completed then
      map n | n in lastRun.Keys + DueNames(schedules, lastRun, tick.now) ::
        if n in DueNames(schedules, lastRun, tick.now) then tick.now else lastRun[n]
    else lastRun
  }

  // ---- One tick ----

  ghost predicate ListsDue(schedules: map<string, CheckSchedule>, lastRun: map<string, int>, now: int, due: seq<Check>)
  {
    && Distinct(NamesOf(due))
    && (forall c :: c in due ==>
       c.name in schedules && schedules[c.name].check == c && Due(schedules[c.name], lastRun, now))
    && (forall n :: n in schedules && Due(schedules[n], lastRun, now) ==> schedules[n].check in due)
  }

  function Row<T>(target: T, due: seq<Check>): seq<(T, Check)> {
    if due == [] then [] else Row(target, due[..|due| - 1]) + [(target, due[|due| - 1])]
  }

  function Grid<T>(targets: seq<T>, due: seq<Check>): seq<(T, Check)> {
    if targets == [] then [] else Grid(targets[..|targets| - 1], due) + Row(targets[|targets| - 1], due)
  }

  ghost function Times<A>(s: seq<A>, x: A): nat {
    multiset(s)[x]
  }

  lemma TimesConcat<A>(s: seq<A>, t: seq<A>, x: A)
    ensures Times(s + t, x) == Times(s, x) + Times(t, x)
  {}

  lemma TimesOne<A>(y: A, x: A)
    ensures Times([y], x) == if x == y then 1 else 0
  {}

  lemma {:induction false} RowTimes<T>(target: T, due: seq<Check>, t: T, c: Check)
    ensures Times(Row(target, due), (t, c)) == if t == target then Times(due, c) else 0
  {
    if due != [] {
      hide Times;
      var rest, last := due[..|due| - 1], due[|due| - 1];
      RowTimes(target, rest, t, c);
      assert due == rest + [last];
      TimesConcat(rest, [last], c);
      TimesOne(last, c);
      TimesConcat(Row(target, rest), [(target, last)], (t, c));
      TimesOne((target, last), (t, c));
    }
  }

  lemma GridNext<T>(targets: seq<T>, last: T, due: seq<Check>)
    ensures Grid(targets + [last], due) == Grid(targets, due) + Row(last, due)
  {}

  lemma NoGrid<T>(targets: seq<T>, due: seq<Check>, t: T, c: Check)
    requires targets == []
    ensures Times(Grid(targets, due), (t, c)) == 0 == Times(targets, t)
  {}

  lemma {:induction false} GridTimes<T>(targets: seq<T>, due: seq<Check>, t: T, c: Check)
    ensures Times(Grid(targets, due), (t, c)) == Times(targets, t) * Times(due, c)
  {
    hide *;
    if targets == [] {
      NoGrid(targets, due, t, c);
    } else {
      var rest, last := targets[..|targets| - 1], targets[|targets| - 1];
      assert targets == rest + [last];
      GridTimes(rest, due, t, c);
      GridNext(rest, last, due);
      TimesConcat(Grid(rest, due), Row(last, due), (t, c));
      RowTimes(last, due, t, c);
      TimesConcat(rest, [last], t);
      TimesOne(last, t);
      Distribute(Times(rest, t), if t == last then 1 else 0, Times(due, c));
    }
  }

  lemma Distribute(a: int, b: int, d: int)
    ensures (a + b) * d == a * d + b * d
  {}

  /** A completed tick runs a due check once for each time a target is listed, and nothing else. */
  lemma GridRunsEachOnce<T>(targets: seq<T>, due: seq<Check>, t: T, c: Check)
    requires Distinct(NamesOf(due))
    ensures multiset(Grid(targets, due))[(t, c)] == if c in due then multiset(targets)[t] else 0
  {
    hide Grid, Row;
    DistinctByName(due);
    DistinctMultiplicity(due, c);
    GridTimes(targets, due, t, c);
  }

  /** What a completed tick executes: each target with each check that waited long enough or never ran. */
  lemma GridReaches<T>(schedules: map<string, CheckSchedule>, lastRun: map<string, int>, now: int, due: seq<Check>,
                       targets: seq<T>, t: T, n: string)
    requires KeyedByName(schedules) && ListsDue(schedules, lastRun, now, due) && n in schedules
    ensures (t, schedules[n].check) in Grid(targets, due) <==>
            && t in targets && schedules[n].enabled && schedules[n].interval > 0
            && (n !in lastRun || now >= lastRun[n] + schedules[n].interval)
  {
    hide Grid;
    var c := schedules[n].check;
    GridRunsEachOnce(targets, due, t, c);
    assert c in due <==> Due(schedules[n], lastRun, now);
  }

  lemma {:induction false} RowPrefix<T>(target: T, due: seq<Check>, k: nat)
    requires k <= |due|
    ensures Row(target, due[..k]) <= Row(target, due)
    ensures k < |due| ==> Row(target, due[..k + 1]) == Row(target, due[..k]) + [(target, due[k])]
    ensures |Row(target, due)| == |due|
    decreases |due|
  {
    if k < |due| {
      assert due[..k + 1][..k] == due[..k];
      var shorter := due[..|due| - 1];
      RowPrefix(target, shorter, k);
      assert shorter[..k] == due[..k];
    } else {
      assert due[..k] == due;
      if due != [] {
        RowPrefix(target, due[..|due| - 1], |due| - 1);
      }
    }
  }

  lemma {:induction false} GridPrefix<T>(targets: seq<T>, due: seq<Check>, k: nat)
    requires k <= |targets|
    ensures Grid(targets[..k], due) <= Grid(targets, due)
    ensures k < |targets| ==> Grid(targets[..k + 1], due) == Grid(targets[..k], due) + Row(targets[k], due)
    decreases |targets|
  {
    if k < |targets| {
      assert targets[..k + 1][..k] == targets[..k];
      var shorter := targets[..|targets| - 1];
      GridPrefix(shorter, due, k);
      assert shorter[..k] == targets[..k];
    } else {
      assert targets[..k] == targets;
    }
  }

  /** Executes checks on targets; executed lists them. */
  class Runner<T> {
    ghost var executed: seq<(T, Check)>

    constructor ()
      ensures executed == []
    {
      executed := [];
    }

    method Execute(target: T, check: Check)
      modifies this
      ensures executed == old(executed) + [(target, check)]
    {
      executed := executed + [(target, check)];
    }
  }

  class BackgroundLoop<T> {
    var lastRun: map<string, int>

    constructor ()
      ensures lastRun == map[]
    {
      lastRun := map[];
    }

    /** Cancellation may be noticed before any check; then lastRun keeps its value. */
    method TickRun(schedules: map<string, CheckSchedule>, now: int, leader: bool, targets: seq<T>, runner: Runner<T>)
      returns (completed: bool, ghost due: seq<Check>)
      requires KeyedByName(schedules)
      modifies this, runner
      ensures lastRun == Step(schedules, old(lastRun), Tick(now, leader, completed))
      ensures leader ==> ListsDue(schedules, old(lastRun), now, due)
      ensures !leader ==> runner.executed == old(runner.executed)
      ensures leader && completed ==> runner.executed == old(runner.executed) + Grid(targets, due)
      ensures leader && !completed ==>
                old(runner.executed) <= runner.executed < old(runner.executed) + Grid(targets, due)
      ensures leader && completed ==>
                forall n :: n in schedules && n !in old(lastRun) && schedules[n].enabled && schedules[n].interval > 0
                  ==> schedules[n].check in due && n in lastRun
    {
      hide Row, Grid;
      completed, due := true, [];
      if !leader {
        return;
      }
      var dueChecks := DueChecks(schedules, now);
      due := dueChecks;
      DueListed(schedules, lastRun, now, due);
      if |dueChecks| == 0 {
        EmptyGrid(targets);
        return;
      }
      completed := RunOnTargets(targets, dueChecks, runner);
      if !completed {
        return;
      }
      for k := 0 to |dueChecks|
        invariant lastRun == MarkRun(old(lastRun), due[..k], now)
        invariant runner.executed == old(runner.executed) + Grid(targets, due)
      {
        assert due[..k + 1][..k] == due[..k];
        lastRun := lastRun[dueChecks[k].name := now];
      }
      assert due[..|due|] == due;
      MarkRunIsStep(schedules, old(lastRun), now, due);
    }

    method RunOnTargets(targets: seq<T>, dueChecks: seq<Check>, runner: Runner<T>) returns (completed: bool)
      modifies runner
      ensures completed ==> runner.executed == old(runner.executed) + Grid(targets, dueChecks)
      ensures !completed ==> old(runner.executed) <= runner.executed < old(runner.executed) + Grid(targets, dueChecks)
    {
      hide Row, Grid;
      NoGridYet(targets, dueChecks);
      for i := 0 to |targets|
        invariant runner.executed == old(runner.executed) + Grid(targets[..i], dueChecks)
      {
        GridPrefix(targets, dueChecks, i);
        GridPrefix(targets, dueChecks, i + 1);
        ghost var before := runner.executed;
        completed := RunOnTarget(targets[i], dueChecks, runner);
        if !completed {
          PrefixOfMore(before, old(runner.executed), Grid(targets[..i], dueChecks), Row(targets[i], dueChecks),
                       Grid(targets, dueChecks), runner.executed);
          return;
        }
      }
      assert targets[..|targets|] == targets;
      return true;
    }

    method RunOnTarget(target: T, dueChecks: seq<Check>, runner: Runner<T>) returns (completed: bool)
      modifies runner
      ensures completed ==> runner.executed == old(runner.executed) + Row(target, dueChecks)
      ensures !completed ==> old(runner.executed) <= runner.executed < old(runner.executed) + Row(target, dueChecks)
    {
      for k := 0 to |dueChecks|
        invariant runner.executed == old(runner.executed) + Row(target, dueChecks[..k])
      {
        RowPrefix(target, dueChecks, k);
        RowPrefix(target, dueChecks[..k], k);
        if * {
          return false;
        }
        runner.Execute(target, dueChecks[k]);
      }
      assert dueChecks[..|dueChecks|] == dueChecks;
      return true;
    }

    /** The due checks in whatever order the schedules are iterated. */
    method DueChecks(schedules: map<string, CheckSchedule>, now: int) returns (due: seq<Check>)
      requires KeyedByName(schedules)
      ensures Distinct(NamesOf(due))
      ensures forall c :: c in due ==>
                c.name in schedules && schedules[c.name].check == c && Due(schedules[c.name], lastRun, now)
      ensures forall n :: n in schedules && Due(schedules[n], lastRun, now) ==> schedules[n].check in due
      ensures forall n :: n in schedules ==>
                (schedules[n].check in due <==>
                   && schedules[n].enabled && schedules[n].interval > 0
                   && (n !in lastRun || now >= lastRun[n] + schedules[n].interval))
    {
      due := [];
      var remaining := schedules.Keys;
      while remaining != {}
        invariant remaining <= schedules.Keys
        invariant Distinct(NamesOf(due))
        invariant forall c :: c in due ==>
                    && c.name in schedules && c.name !in remaining
                    && schedules[c.name].check == c && Due(schedules[c.name], lastRun, now)
        invariant forall n :: n in schedules && n !in remaining && Due(schedules[n], lastRun, now) ==>
                  schedules[n].check in due
        decreases |remaining|
      {
        var n :| n in remaining;
        remaining := remaining - {n};
        if Due(schedules[n], lastRun, now) {
          assert forall i :: 0 <= i < |due| ==> due[i] in due && NamesOf(due)[i] != n;
          assert NamesOf(due + [schedules[n].check]) == NamesOf(due) + [n];
          due := due + [schedules[n].check];
        }
      }
    }
  }

  lemma NoGridYet<T>(targets: seq<T>, due: seq<Check>)
    ensures Grid(targets[..0], due) == []
  {}

  lemma PrefixOfMore<A>(before: seq<A>, start: seq<A>, first: seq<A>, next: seq<A>, all: seq<A>, now: seq<A>)
    requires before == start + first && first + next <= all && before <= now < before + next
    ensures start <= now < start + all
  {
    assert before + next == start + (first + next);
    assert start + (first + next) <= start + all;
  }

  lemma DueListed(schedules: map<string, CheckSchedule>, lastRun: map<string, int>, now: int, due: seq<Check>)
    requires Distinct(NamesOf(due))
    requires forall c :: c in due ==>
              c.name in schedules && schedules[c.name].check == c && Due(schedules[c.name], lastRun, now)
    requires forall n :: n in schedules && Due(schedules[n], lastRun, now) ==> schedules[n].check in due
    ensures ListsDue(schedules, lastRun, now, due)
    ensures due == [] ==> Step(schedules, lastRun, Tick(now, true, true)) == lastRun
  {
    if due == [] {
      assert DueNames(schedules, lastRun, now) == {};
    }
  }

  lemma {:induction false} EmptyGrid<T>(targets: seq<T>)
    ensures Grid(targets, []) == []
  {
    if targets != [] {
      EmptyGrid(targets[..|targets| - 1]);
    }
  }

  function MarkRun(lastRun: map<string, int>, due: seq<Check>, now: int): map<string, int> {
    if due == [] then lastRun else MarkRun(lastRun, due[..|due| - 1], now)[due[|due| - 1].name := now]
  }

  lemma {:induction false} MarkRunAt(lastRun: map<string, int>, due: seq<Check>, now: int)
    ensures MarkRun(lastRun, due, now) == map n | n in lastRun.Keys + Elements(NamesOf(due)) ::
                                            if n in Elements(NamesOf(due)) then now else lastRun[n]
  {
    if due != [] {
      var shorter := due[..|due| - 1];
      MarkRunAt(lastRun, shorter, now);
      assert NamesOf(due) == NamesOf(shorter) + [due[|due| - 1].name];
    }
  }

  lemma MarkRunIsStep(schedules: map<string, CheckSchedule>, lastRun: map<string, int>, now: int, due: seq<Check>)
    requires KeyedByName(schedules) && ListsDue(schedules, lastRun, now, due)
    ensures MarkRun(lastRun, due, now) == Step(schedules, lastRun, Tick(now, true, true))
  {
    MarkRunAt(lastRun, due, now);
    RegisteredNames(due);
    assert Registered(due) == DueNames(schedules, lastRun, now) by {
      forall n | n in DueNames(schedules, lastRun, now)
        ensures n in Registered(due)
      {
        assert schedules[n].check in due;
      }
    }
  }

  // ---- Whole histories of ticks over fixed schedules ----

  function LastRunAfter(schedules: map<string, CheckSchedule>, ticks: seq<Tick>, i: nat): map<string, int>
    requires i <= |ticks|
  {
    if i == 0 then map[] else Step(schedules, LastRunAfter(schedules, ticks, i - 1), ticks[i - 1])
  }

  /** Tick i completes a run of check n. */
  predicate RunsAt(schedules: map<string, CheckSchedule>, ticks: seq<Tick>, i: nat, n: string) {
    && i < |ticks| && ticks[i].leader && ticks[i].completed
    && n in DueNames(schedules, LastRunAfter(schedules, ticks, i), ticks[i].now)
  }

  ghost predicate Ordered(ticks: seq<Tick>) {
    forall i, j :: 0 <= i <= j < |ticks| ==> ticks[i].now <= ticks[j].now
  }

  lemma {:induction false} LastRunBounds(schedules: map<string, CheckSchedule>, ticks: seq<Tick>, j: nat, i: nat,
                                         n: string)
    requires KeyedByName(schedules) && Ordered(ticks)
    requires RunsAt(schedules, ticks, j, n) && j < i <= |ticks|
    ensures n in LastRunAfter(schedules, ticks, i)
    ensures ticks[j].now <= LastRunAfter(schedules, ticks, i)[n]
    ensures (forall k :: j < k < i ==> !RunsAt(schedules, ticks, k, n)) ==>
              LastRunAfter(schedules, ticks, i)[n] == ticks[j].now
    decreases i - j
  {
    if i > j + 1 {
      LastRunBounds(schedules, ticks, j, i - 1, n);
      if forall k :: j < k < i ==> !RunsAt(schedules, ticks, k, n) {
        assert !RunsAt(schedules, ticks, i - 1, n);
      }
    }
  }

  /** Whatever is in the table got there by a completed run. */
  lemma {:induction false} TableIsFromRuns(schedules: map<string, CheckSchedule>, ticks: seq<Tick>, i: nat, n: string)
    requires i <= |ticks| && n in LastRunAfter(schedules, ticks, i)
    ensures exists k :: 0 <= k < i && RunsAt(schedules, ticks, k, n)
  {
    if n in LastRunAfter(schedules, ticks, i - 1) {
      TableIsFromRuns(schedules, ticks, i - 1, n);
    } else {
      assert RunsAt(schedules, ticks, i - 1, n);
    }
  }

  /** By the first completed tick of a leader, every registered, enabled check with an interval has run. */
  lemma FirstTickRunsAll(schedules: map<string, CheckSchedule>, ticks: seq<Tick>, i: nat, n: string)
    requires KeyedByName(schedules) && i < |ticks| && ticks[i].leader && ticks[i].completed
    requires n in schedules && schedules[n].enabled && schedules[n].interval > 0
    ensures exists k :: 0 <= k <= i && RunsAt(schedules, ticks, k, n)
  {
    if n in LastRunAfter(schedules, ticks, i) {
      TableIsFromRuns(schedules, ticks, i, n);
    } else {
      assert RunsAt(schedules, ticks, i, n);
    }
  }

  /** Nothing else runs: only a registered, enabled check with an interval, in a completed tick of a leader. */
  lemma OnlyTheseRun(schedules: map<string, CheckSchedule>, ticks: seq<Tick>, i: nat, n: string)
    requires RunsAt(schedules, ticks, i, n)
    ensures i < |ticks| && ticks[i].leader && ticks[i].completed
    ensures n in schedules && schedules[n].enabled && schedules[n].interval > 0
  {}

  /** Completed runs of a check are at least its interval apart. */
  lemma RunsAreSpaced(schedules: map<string, CheckSchedule>, ticks: seq<Tick>, j: nat, i: nat, n: string)
    requires KeyedByName(schedules) && Ordered(ticks)
    requires RunsAt(schedules, ticks, j, n) && RunsAt(schedules, ticks, i, n) && j < i
    ensures ticks[i].now - ticks[j].now >= schedules[n].interval
  {
    LastRunBounds(schedules, ticks, j, i, n);
  }

  ghost predicate AllComplete(ticks: seq<Tick>, p: int) {
    && (forall i :: 0 <= i < |ticks| ==> ticks[i].leader && ticks[i].completed)
    && (forall i :: 0 < i < |ticks| ==> ticks[i].now - ticks[i - 1].now <= p)
  }

  /** When every tick completes and ticks are at most p apart, consecutive runs are less than interval + p apart. */
  lemma RunsAreNotLate(schedules: map<string, CheckSchedule>, ticks: seq<Tick>, j: nat, i: nat, n: string, p: int)
    requires KeyedByName(schedules) && Ordered(ticks) && AllComplete(ticks, p)
    requires RunsAt(schedules, ticks, j, n) && RunsAt(schedules, ticks, i, n) && j < i
    requires forall k :: j < k < i ==> !RunsAt(schedules, ticks, k, n)
    ensures ticks[i].now - ticks[j].now < schedules[n].interval + p
  {
    if i > j + 1 {
      LastRunBounds(schedules, ticks, j, i - 1, n);
      assert !RunsAt(schedules, ticks, i - 1, n);
    }
  }

  /** When every tick completes, a check runs again by the first tick its interval after the previous run. */
  lemma RunsAgain(schedules: map<string, CheckSchedule>, ticks: seq<Tick>, j: nat, i: nat, n: string, p: int)
    requires KeyedByName(schedules) && Ordered(ticks) && AllComplete(ticks, p)
    requires RunsAt(schedules, ticks, j, n) && j < i < |ticks|
    requires ticks[i].now - ticks[j].now >= schedules[n].interval
    ensures exists k :: j < k <= i && RunsAt(schedules, ticks, k, n)
  {
    LastRunBounds(schedules, ticks, j, i, n);
    if forall k :: j < k < i ==> !RunsAt(schedules, ticks, k, n) {
      assert RunsAt(schedules, ticks, i, n);
    }
  }

  /** An aborted tick, or one on an instance that is not the leader, leaves the table unchanged. */
  lemma AbortedTickKeepsTable(schedules: map<string, CheckSchedule>, ticks: seq<Tick>, i: nat)
    requires i < |ticks| && !(ticks[i].leader && ticks[i].completed)
    ensures LastRunAfter(schedules, ticks, i + 1) == LastRunAfter(schedules, ticks, i)
    ensures forall n :: !RunsAt(schedules, ticks, i, n)
  {}

  // ---- The tick period ----

  predicate Periodic(s: CheckSchedule) {
    s.enabled && s.interval > 0
  }

  /** The smallest interval among the enabled periodic checks, 0 when there is none. */
  method GetMinInterval(schedules: map<string, CheckSchedule>) returns (min: int)
    ensures min == 0 <==> forall n :: n in schedules && schedules[n].enabled ==> schedules[n].interval <= 0
    ensures min != 0 ==> exists n :: n in schedules && schedules[n].enabled && schedules[n].interval == min
    ensures forall n :: n in schedules && schedules[n].enabled && schedules[n].interval > 0 ==>
              0 < min <= schedules[n].interval
  {
    min := 0;
    var remaining := schedules.Keys;
    while remaining != {}
      invariant remaining <= schedules.Keys && min >= 0
      invariant min == 0 <==> forall n :: n in schedules && n !in remaining ==> !Periodic(schedules[n])
      invariant min != 0 ==> exists n :: n in schedules && Periodic(schedules[n]) && schedules[n].interval == min
      invariant forall n :: n in schedules && n !in remaining && Periodic(schedules[n]) ==>
                0 < min <= schedules[n].interval
      decreases |remaining|
    {
      var n :| n in remaining;
      remaining := remaining - {n};
      if Periodic(schedules[n]) {
        if min == 0 || schedules[n].interval < min {
          min := schedules[n].interval;
        }
      }
    }
  }
}
