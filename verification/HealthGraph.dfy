/** Dependency ordering of health checks: the graph, its cycles, and Kahn's algorithm. */
module HealthGraph {
  import opened Prelude

  datatype Severity = Info | Warning | Critical

  datatype Check = Check(name: string, severity: Severity, dependsOn: seq<string>)

  /** Name of each registered check to the names it depends on; a dependency that is not a key is not registered. */
  type Graph = map<string, set<string>>

  predicate Edge(g: Graph, n: string, d: string) {
    n in g && d in g && d in g[n]
  }

  ghost predicate Walk(g: Graph, p: seq<string>) {
    forall i :: 0 <= i < |p| - 1 ==> Edge(g, p[i], p[i + 1])
  }

  ghost predicate IsCycle(g: Graph, p: seq<string>) {
    |p| >= 2 && p[0] == p[|p| - 1] && Walk(g, p)
  }

  ghost predicate HasCycle(g: Graph) {
    exists p :: IsCycle(g, p)
  }

  /** Every registered name once, each after all its registered dependencies. */
  ghost predicate ValidOrder(g: Graph, order: seq<string>) {
    && Distinct(order)
    && Elements(order) == g.Keys
    && forall i, d :: 0 <= i < |order| && Edge(g, order[i], d) ==> d in order[..i]
  }

  function NamesOf(checks: seq<Check>): (names: seq<string>)
    ensures |names| == |checks|
    ensures forall i :: 0 <= i < |checks| ==> names[i] == checks[i].name
  {
    seq(|checks|, i requires 0 <= i < |checks| => checks[i].name)
  }

  function Registered(checks: seq<Check>): set<string> {
    set c | c in checks :: c.name
  }

  /** All dependencies declared under each name, repetitions kept. */
  function DepTable(checks: seq<Check>): (deps: map<string, seq<string>>)
    ensures deps.Keys == Registered(checks)
  {
    if checks == [] then map[]
    else
      var rest, last := DepTable(checks[..|checks| - 1]), checks[|checks| - 1];
      assert checks == checks[..|checks| - 1] + [last];
      rest[last.name := DepsIn(rest, last.name) + last.dependsOn]
  }

  function DepsIn(deps: map<string, seq<string>>, n: string): seq<string> {
    if n in deps then deps[n] else []
  }

  function GraphOfTable(deps: map<string, seq<string>>): Graph {
    map n | n in deps :: Elements(deps[n])
  }

  function GraphOf(checks: seq<Check>): Graph {
    GraphOfTable(DepTable(checks))
  }

  // ---- Orders exclude cycles, and a stuck set contains one ----

  /** Along a walk the position in a valid order strictly falls. */
  lemma {:induction false} WalkDescends(g: Graph, order: seq<string>, p: seq<string>, k: nat, at: nat) returns (j: nat)
    requires ValidOrder(g, order) && Walk(g, p) && k < |p|
    requires at < |order| && order[at] == p[0]
    ensures j + k <= at && order[j] == p[k]
  {
    if k == 0 {
      j := at;
    } else {
      var i := WalkDescends(g, order, p, k - 1, at);
      assert Edge(g, p[k - 1], p[k - 1 + 1]);
      assert p[k] in order[..i];
      j :| 0 <= j < i && order[j] == p[k];
    }
  }

  lemma OrderExcludesCycle(g: Graph, order: seq<string>)
    requires ValidOrder(g, order)
    ensures !HasCycle(g)
  {
    forall p | IsCycle(g, p)
      ensures false
    {
      assert Edge(g, p[0], p[1]);
      assert p[0] in Elements(order);
      var at :| 0 <= at < |order| && order[at] == p[0];
      var j := WalkDescends(g, order, p, |p| - 1, at);
    }
  }

  /** n depends on a member of live. */
  ghost predicate Stuck(g: Graph, live: set<string>, n: string) {
    exists d :: d in live && Edge(g, n, d)
  }

  lemma {:induction false} LongWalk(g: Graph, live: set<string>, start: string, length: nat) returns (p: seq<string>)
    requires start in live
    requires forall n {:trigger Stuck(g, live, n)} :: n in live ==> Stuck(g, live, n)
    ensures |p| == length + 1 && p[0] == start && Walk(g, p)
    ensures forall i :: 0 <= i < |p| ==> p[i] in live
    decreases length
  {
    if length == 0 {
      p := [start];
    } else {
      assert Stuck(g, live, start);
      var d :| d in live && Edge(g, start, d);
      var q := LongWalk(g, live, d, length - 1);
      p := [start] + q;
    }
  }

  /** A nonempty set in which every name depends on another member contains a cycle. */
  lemma StuckHasCycle(g: Graph, live: set<string>)
    requires live != {}
    requires forall n {:trigger Stuck(g, live, n)} :: n in live ==> Stuck(g, live, n)
    ensures HasCycle(g)
  {
    var start :| start in live;
    var p := LongWalk(g, live, start, |live|);
    Pigeonhole(p, live);
    var i, j :| 0 <= i < j < |p| && p[i] == p[j];
    assert IsCycle(g, p[i..j + 1]);
  }

  // ---- Counting unmet dependencies ----

  /** How many entries of s, repetitions counted, lie in live. */
  function CountIn(s: seq<string>, live: set<string>): nat {
    if s == [] then 0
    else CountIn(s[..|s| - 1], live) + (if s[|s| - 1] in live then 1 else 0)
  }

  lemma {:induction false} CountInAppend(s: seq<string>, x: string, live: set<string>)
    ensures CountIn(s + [x], live) == CountIn(s, live) + (if x in live then 1 else 0)
  {
    assert (s + [x])[..|s|] == s;
  }

  lemma {:induction false} CountInRemove(s: seq<string>, live: set<string>, c: string)
    requires c in live
    ensures CountIn(s, live) == CountIn(s, live - {c}) + multiset(s)[c]
  {
    if s != [] {
      CountInRemove(s[..|s| - 1], live, c);
      assert s == s[..|s| - 1] + [s[|s| - 1]];
    }
  }

  lemma {:induction false} CountInZero(s: seq<string>, live: set<string>)
    ensures CountIn(s, live) == 0 <==> forall x :: x in s ==> x !in live
  {
    if s != [] {
      CountInZero(s[..|s| - 1], live);
      assert s == s[..|s| - 1] + [s[|s| - 1]];
    }
  }

  /** How often n is listed as waiting for d. */
  function Waiting(dependents: map<string, seq<string>>, d: string, n: string): nat {
    if d in dependents then multiset(dependents[d])[n] else 0
  }

  // ---- Kahn's algorithm ----

  /** The two tables describe the dependencies deps among the registered names. */
  ghost predicate Tables(deps: map<string, seq<string>>, registered: set<string>,
                         inDegree: map<string, int>, dependents: map<string, seq<string>>)
  {
    && inDegree.Keys == deps.Keys
    && (forall n :: n in deps ==> inDegree[n] == CountIn(deps[n], registered))
    && WaitingLists(deps, registered, dependents)
  }

  ghost predicate WaitingLists(deps: map<string, seq<string>>, registered: set<string>,
                               dependents: map<string, seq<string>>)
  {
    forall d, n {:trigger Waiting(dependents, d, n)} :: d in registered ==>
      Waiting(dependents, d, n) == multiset(DepsIn(deps, n))[d]
  }

  lemma TablesAddName(deps: map<string, seq<string>>, registered: set<string>, name: string,
                      inDegree: map<string, int>, dependents: map<string, seq<string>>)
    requires Tables(deps, registered, inDegree, dependents)
    ensures Tables(deps[name := DepsIn(deps, name)], registered,
                   if name in inDegree then inDegree else inDegree[name := 0], dependents)
  {
    var deps' := deps[name := DepsIn(deps, name)];
    assert forall n :: DepsIn(deps', n) == DepsIn(deps, n);
  }

  lemma WaitingAppend(deps: map<string, seq<string>>, registered: set<string>, name: string, dep: string,
                      dependents: map<string, seq<string>>)
    requires WaitingLists(deps, registered, dependents) && name in deps
    ensures WaitingLists(deps[name := deps[name] + [dep]], registered,
                         if dep in registered then dependents[dep := DepsIn(dependents, dep) + [name]] else dependents)
  {
    var deps' := deps[name := deps[name] + [dep]];
    var dependents' := if dep in registered then dependents[dep := DepsIn(dependents, dep) + [name]] else dependents;
    forall d, n | d in registered
      ensures Waiting(dependents', d, n) == multiset(DepsIn(deps', n))[d]
    {
      assert Waiting(dependents, d, n) == multiset(DepsIn(deps, n))[d];
      assert n == name ==> multiset(deps'[n]) == multiset(deps[n]) + multiset{dep};
      if d == dep {
        assert multiset(dependents'[d]) == multiset(DepsIn(dependents, d)) + multiset{name};
      } else {
        assert Waiting(dependents', d, n) == Waiting(dependents, d, n);
      }
    }
  }

  /** The in-degree table and adjacency list; dependencies outside registered are not counted. */
  method BuildTables(checks: seq<Check>, registered: set<string>)
    returns (inDegree: map<string, int>, dependents: map<string, seq<string>>)
    ensures Tables(DepTable(checks), registered, inDegree, dependents)
  {
    inDegree, dependents := map[], map[];
    for i := 0 to |checks|
      invariant Tables(DepTable(checks[..i]), registered, inDegree, dependents)
    {
      ghost var deps := DepTable(checks[..i]);
      var name := checks[i].name;
      TablesAddName(deps, registered, name, inDegree, dependents);
      if name !in inDegree {
        inDegree := inDegree[name := 0];
      }
      deps := deps[name := DepsIn(deps, name)];
      inDegree, dependents := AddDependencies(deps, registered, checks[i], inDegree, dependents);
      DepTableNext(checks, i);
    }
    assert checks[..|checks|] == checks;
  }

  lemma DepTableNext(checks: seq<Check>, i: nat)
    requires i < |checks|
    ensures var deps, c := DepTable(checks[..i]), checks[i];
            DepTable(checks[..i + 1]) == deps[c.name := DepsIn(deps, c.name) + c.dependsOn]
  {
    assert checks[..i + 1][..i] == checks[..i];
  }

  method AddDependencies(ghost deps: map<string, seq<string>>, registered: set<string>, check: Check,
                         inDegree0: map<string, int>, dependents0: map<string, seq<string>>)
    returns (inDegree: map<string, int>, dependents: map<string, seq<string>>)
    requires Tables(deps, registered, inDegree0, dependents0) && check.name in deps
    ensures Tables(deps[check.name := deps[check.name] + check.dependsOn], registered, inDegree, dependents)
  {
    inDegree, dependents := inDegree0, dependents0;
    var name := check.name;
    ghost var cur := deps;
    assert deps[name] + check.dependsOn[..0] == deps[name];
    for j := 0 to |check.dependsOn|
      invariant cur == deps[name := deps[name] + check.dependsOn[..j]]
      invariant Tables(cur, registered, inDegree, dependents)
    {
      var dep := check.dependsOn[j];
      CountInAppend(cur[name], dep, registered);
      WaitingAppend(cur, registered, name, dep, dependents);
      assert check.dependsOn[..j + 1] == check.dependsOn[..j] + [dep];
      assert cur[name] + [dep] == deps[name] + check.dependsOn[..j + 1];
      cur := cur[name := cur[name] + [dep]];
      if dep in registered {
        inDegree := inDegree[name := inDegree[name] + 1];
        dependents := dependents[dep := DepsIn(dependents, dep) + [name]];
      }
    }
    assert check.dependsOn[..|check.dependsOn|] == check.dependsOn;
  }

  /** State between two dequeues: done are the emitted names, inDegree counts what is still unmet. */
  ghost predicate KahnState(deps: map<string, seq<string>>, done: set<string>, queue: seq<string>,
                            inDegree: map<string, int>)
  {
    && done <= deps.Keys
    && (forall n :: n in queue ==> n in deps && n !in done)
    && Distinct(queue)
    && inDegree.Keys == deps.Keys
    && (forall n :: n in deps ==> inDegree[n] == CountIn(deps[n], deps.Keys - done))
    && (forall n :: n in deps ==> (inDegree[n] == 0 <==> n in done || n in queue))
  }

  /** The names of in-degree zero, in whatever order the table is iterated. */
  method InitialQueue(inDegree: map<string, int>) returns (queue: seq<string>)
    ensures Distinct(queue)
    ensures forall n :: n in queue <==> n in inDegree && inDegree[n] == 0
  {
    queue := [];
    var remaining := inDegree.Keys;
    while remaining != {}
      invariant remaining <= inDegree.Keys
      invariant Distinct(queue)
      invariant forall n :: n in queue <==> n in inDegree && n !in remaining && inDegree[n] == 0
      decreases |remaining|
    {
      var name :| name in remaining;
      remaining := remaining - {name};
      if inDegree[name] == 0 {
        queue := queue + [name];
      }
    }
  }

  /** Halfway through the waiting list of the check just emitted: left are the entries not yet seen. */
  ghost predicate ReleaseState(deps: map<string, seq<string>>, done: set<string>, left: multiset<string>,
                               queue: seq<string>, inDegree: map<string, int>)
  {
    && done <= deps.Keys
    && (forall n :: n in queue ==> n in deps && n !in done)
    && Distinct(queue)
    && inDegree.Keys == deps.Keys
    && (forall n :: n in deps ==> inDegree[n] == CountIn(deps[n], deps.Keys - done) + left[n])
    && (forall n :: n in deps ==> (inDegree[n] == 0 <==> n in done || n in queue))
  }

  lemma ReleaseStart(deps: map<string, seq<string>>, done: set<string>, queue: seq<string>, inDegree: map<string, int>,
                     waiting: seq<string>)
    requires KahnState(deps, done, queue, inDegree) && |queue| > 0
    requires forall n :: n in deps ==> multiset(waiting)[n] == multiset(deps[n])[queue[0]]
    ensures ReleaseState(deps, done + {queue[0]}, multiset(waiting), queue[1..], inDegree)
  {
    var current := queue[0];
    assert queue == [current] + queue[1..];
    assert deps.Keys - (done + {current}) == (deps.Keys - done) - {current};
    forall n | n in deps
      ensures inDegree[n] == CountIn(deps[n], deps.Keys - (done + {current})) + multiset(waiting)[n]
    {
      CountInRemove(deps[n], deps.Keys - done, current);
    }
  }

  lemma ReleaseStep(deps: map<string, seq<string>>, done: set<string>, next: string, left: multiset<string>,
                    queue: seq<string>, inDegree: map<string, int>)
    requires ReleaseState(deps, done, multiset{next} + left, queue, inDegree) && next in deps
    ensures next !in queue && next !in done
    ensures ReleaseState(deps, done, left, if inDegree[next] == 1 then queue + [next] else queue,
                         inDegree[next := inDegree[next] - 1])
  {
    var all := multiset{next} + left;
    assert all[next] == left[next] + 1;
    forall n | n in deps && n != next
      ensures all[n] == left[n]
    {}
    var inDegree' := inDegree[next := inDegree[next] - 1];
    var queue' := if inDegree[next] == 1 then queue + [next] else queue;
    assert forall n :: n in queue' <==> n in queue || (inDegree[next] == 1 && n == next);
  }

  /** Takes the emitted check off the waiting lists; the checks it was the last unmet dependency of join the queue. */
  method ReleaseDependents(ghost deps: map<string, seq<string>>, ghost done: set<string>, waiting: seq<string>,
                           queue0: seq<string>, inDegree0: map<string, int>)
    returns (queue: seq<string>, inDegree: map<string, int>)
    requires ReleaseState(deps, done, multiset(waiting), queue0, inDegree0)
    requires forall n :: n in waiting ==> n in deps
    ensures KahnState(deps, done, queue, inDegree)
  {
    queue, inDegree := queue0, inDegree0;
    assert waiting[0..] == waiting;
    for k := 0 to |waiting|
      invariant ReleaseState(deps, done, multiset(waiting[k..]), queue, inDegree)
    {
      var next := waiting[k];
      assert waiting[k..] == [next] + waiting[k + 1..];
      assert next in waiting;
      ReleaseStep(deps, done, next, multiset(waiting[k + 1..]), queue, inDegree);
      inDegree := inDegree[next := inDegree[next] - 1];
      if inDegree[next] == 0 {
        queue := queue + [next];
      }
    }
  }

  /** Every emitted check comes after its registered dependencies. */
  ghost predicate Emitted(deps: map<string, seq<string>>, checkMap: map<string, Check>, sorted: seq<Check>) {
    var order := NamesOf(sorted);
    && Distinct(order)
    && (forall i :: 0 <= i < |sorted| ==> order[i] in checkMap && sorted[i] == checkMap[order[i]])
    && (forall i, d :: 0 <= i < |order| && d in DepsIn(deps, order[i]) && d in deps ==> d in order[..i])
  }

  lemma EmitNext(deps: map<string, seq<string>>, checkMap: map<string, Check>, sorted: seq<Check>,
                 queue: seq<string>, inDegree: map<string, int>)
    requires deps.Keys == checkMap.Keys
    requires forall n :: n in checkMap ==> checkMap[n].name == n
    requires KahnState(deps, Elements(NamesOf(sorted)), queue, inDegree) && |queue| > 0
    requires Emitted(deps, checkMap, sorted)
    ensures Emitted(deps, checkMap, sorted + [checkMap[queue[0]]])
    ensures Elements(NamesOf(sorted + [checkMap[queue[0]]])) == Elements(NamesOf(sorted)) + {queue[0]}
  {
    var current := queue[0];
    var order, order' := NamesOf(sorted), NamesOf(sorted + [checkMap[current]]);
    assert order' == order + [current];
    assert current in queue;
    CountInZero(deps[current], deps.Keys - Elements(order));
    forall i, d | 0 <= i < |order'| && d in DepsIn(deps, order'[i]) && d in deps
      ensures d in order'[..i]
    {
      assert order'[..i] == order[..i];
      if i == |order| {
        assert order[..i] == order;
      }
    }
  }

  method DrainQueue(ghost deps: map<string, seq<string>>, checkMap: map<string, Check>,
                    dependents: map<string, seq<string>>,
                    queue0: seq<string>, inDegree0: map<string, int>)
    returns (sorted: seq<Check>)
    requires deps.Keys == checkMap.Keys
    requires forall n :: n in checkMap ==> checkMap[n].name == n
    requires KahnState(deps, {}, queue0, inDegree0)
    requires WaitingLists(deps, deps.Keys, dependents)
    ensures Emitted(deps, checkMap, sorted)
    ensures AllStuck(deps, deps.Keys - Elements(NamesOf(sorted)))
  {
    sorted := [];
    var queue, inDegree := queue0, inDegree0;
    assert Elements(NamesOf(sorted)) == {};
    while |queue| > 0
      invariant KahnState(deps, Elements(NamesOf(sorted)), queue, inDegree)
      invariant Emitted(deps, checkMap, sorted)
      decreases deps.Keys - Elements(NamesOf(sorted))
    {
      ghost var done := Elements(NamesOf(sorted));
      var current := queue[0];
      EmitNext(deps, checkMap, sorted, queue, inDegree);
      assert current in queue && current in deps.Keys - done;
      var waiting := DepsIn(dependents, current);
      WaitingRegistered(deps, dependents, current);
      ReleaseStart(deps, done, queue, inDegree, waiting);
      queue, inDegree := ReleaseDependents(deps, done + {current}, waiting, queue[1..], inDegree);
      sorted := sorted + [checkMap[current]];
    }
    LeftoverStuck(deps, Elements(NamesOf(sorted)), inDegree);
  }

  ghost predicate AllStuck(deps: map<string, seq<string>>, live: set<string>) {
    forall n {:trigger Stuck(GraphOfTable(deps), live, n)} :: n in live ==> Stuck(GraphOfTable(deps), live, n)
  }

  lemma LeftoverStuck(deps: map<string, seq<string>>, done: set<string>, inDegree: map<string, int>)
    requires KahnState(deps, done, [], inDegree)
    ensures AllStuck(deps, deps.Keys - done)
  {
    var live := deps.Keys - done;
    forall n | n in live
      ensures Stuck(GraphOfTable(deps), live, n)
    {
      CountInZero(deps[n], live);
      var d :| d in deps[n] && d in live;
      assert Edge(GraphOfTable(deps), n, d);
    }
  }

  /** The names waiting for current declare it as a dependency, so they are registered. */
  lemma WaitingRegistered(deps: map<string, seq<string>>, dependents: map<string, seq<string>>, current: string)
    requires WaitingLists(deps, deps.Keys, dependents) && current in deps
    ensures forall n :: n in DepsIn(dependents, current) ==> n in deps
    ensures forall n :: n in deps ==> multiset(DepsIn(dependents, current))[n] == multiset(deps[n])[current]
  {
    forall n
      ensures n in DepsIn(dependents, current) ==> n in deps
      ensures n in deps ==> multiset(DepsIn(dependents, current))[n] == multiset(deps[n])[current]
    {
      assert Waiting(dependents, current, n) == multiset(DepsIn(deps, n))[current];
    }
  }

  const CIRCULAR_DEPENDENCY := "circular dependency detected among check items"

  /** Kahn's algorithm. It answers with an order exactly when the names are unique and no cycle exists. */
  method TopologicalSort(checks: seq<Check>) returns (r: Result<seq<Check>, string>)
    ensures r.Success? <==> Distinct(NamesOf(checks)) && !HasCycle(GraphOf(checks))
    ensures r.Success? ==> multiset(r.value) == multiset(checks) && ValidOrder(GraphOf(checks), NamesOf(r.value))
    ensures r.Failure? ==> r.error == CIRCULAR_DEPENDENCY
  {
    var checkMap := BuildCheckMap(checks);
    var inDegree, dependents := BuildTables(checks, checkMap.Keys);
    var queue := InitialQueue(inDegree);
    ghost var deps := DepTable(checks);
    assert deps.Keys - {} == deps.Keys;
    var sorted := DrainQueue(deps, checkMap, dependents, queue, inDegree);
    SortVerdict(checks, checkMap, sorted);
    if |sorted| != |checks| {
      return Failure(CIRCULAR_DEPENDENCY);
    }
    return Success(sorted);
  }

  /** Later checks replace earlier ones of the same name. */
  method BuildCheckMap(checks: seq<Check>) returns (checkMap: map<string, Check>)
    ensures checkMap.Keys == Registered(checks)
    ensures forall n :: n in checkMap ==> checkMap[n].name == n && checkMap[n] in checks
  {
    checkMap := map[];
    for i := 0 to |checks|
      invariant checkMap.Keys == set c | c in checks[..i] :: c.name
      invariant forall n :: n in checkMap ==> checkMap[n].name == n && checkMap[n] in checks
    {
      assert checks[..i + 1] == checks[..i] + [checks[i]];
      checkMap := checkMap[checks[i].name := checks[i]];
    }
    assert checks[..|checks|] == checks;
  }

  /** What the length test at the end of the algorithm decides. */
  lemma SortVerdict(checks: seq<Check>, checkMap: map<string, Check>, sorted: seq<Check>)
    requires checkMap.Keys == Registered(checks)
    requires forall n :: n in checkMap ==> checkMap[n] in checks
    requires Emitted(DepTable(checks), checkMap, sorted)
    requires AllStuck(DepTable(checks), Registered(checks) - Elements(NamesOf(sorted)))
    ensures |sorted| == |checks| <==> Distinct(NamesOf(checks)) && !HasCycle(GraphOf(checks))
    ensures |sorted| == |checks| ==>
              multiset(sorted) == multiset(checks) && ValidOrder(GraphOf(checks), NamesOf(sorted))
  {
    LengthVerdict(checks, checkMap, sorted);
    if |sorted| == |checks| {
      CompleteOrder(checks, checkMap, sorted);
      OrderExcludesCycle(GraphOf(checks), NamesOf(sorted));
    } else if Distinct(NamesOf(checks)) {
      LeftoverCycle(DepTable(checks), Elements(NamesOf(sorted)));
    }
  }

  lemma LeftoverCycle(deps: map<string, seq<string>>, done: set<string>)
    requires AllStuck(deps, deps.Keys - done)
    requires done <= deps.Keys && done != deps.Keys
    ensures HasCycle(GraphOfTable(deps))
  {
    var n :| n in deps.Keys && n !in done;
    assert n in deps.Keys - done;
    StuckHasCycle(GraphOfTable(deps), deps.Keys - done);
  }

  lemma CompleteOrder(checks: seq<Check>, checkMap: map<string, Check>, sorted: seq<Check>)
    requires checkMap.Keys == Registered(checks)
    requires forall n :: n in checkMap ==> checkMap[n] in checks
    requires Emitted(DepTable(checks), checkMap, sorted)
    requires |sorted| == |checks| && Distinct(NamesOf(checks)) && Elements(NamesOf(sorted)) == Registered(checks)
    ensures multiset(sorted) == multiset(checks) && ValidOrder(GraphOf(checks), NamesOf(sorted))
  {
    forall c | c in sorted
      ensures c in checks
    {
      var i :| 0 <= i < |sorted| && sorted[i] == c;
      assert NamesOf(sorted)[i] in checkMap;
    }
    SameChecks(checks, sorted);
    EmittedOrder(DepTable(checks), checkMap, sorted);
  }

  lemma EmittedOrder(deps: map<string, seq<string>>, checkMap: map<string, Check>, sorted: seq<Check>)
    requires Emitted(deps, checkMap, sorted) && Elements(NamesOf(sorted)) == deps.Keys
    ensures ValidOrder(GraphOfTable(deps), NamesOf(sorted))
  {}

  /** As many checks come out as went in exactly when names are unique and all of them come out. */
  lemma LengthVerdict(checks: seq<Check>, checkMap: map<string, Check>, sorted: seq<Check>)
    requires checkMap.Keys == Registered(checks)
    requires Emitted(DepTable(checks), checkMap, sorted)
    ensures Elements(NamesOf(sorted)) <= Registered(checks)
    ensures |sorted| == |checks| <==> Distinct(NamesOf(checks)) && Elements(NamesOf(sorted)) == Registered(checks)
  {
    RegisteredNames(checks);
    DistinctCardinality(NamesOf(checks));
    DistinctCardinality(NamesOf(sorted));
    SubsetCardinality(Elements(NamesOf(sorted)), Registered(checks));
  }

  lemma RegisteredNames(checks: seq<Check>)
    ensures Elements(NamesOf(checks)) == Registered(checks)
  {
    forall n
      ensures n in NamesOf(checks) <==> n in Registered(checks)
    {
      if n in Registered(checks) {
        var c :| c in checks && c.name == n;
        var i :| 0 <= i < |checks| && checks[i] == c;
        assert NamesOf(checks)[i] == n;
      }
    }
  }

  lemma DistinctByName(checks: seq<Check>)
    requires Distinct(NamesOf(checks))
    ensures Distinct(checks)
  {
    assert forall i :: 0 <= i < |checks| ==> NamesOf(checks)[i] == checks[i].name;
  }

  lemma SameChecks(checks: seq<Check>, sorted: seq<Check>)
    requires Distinct(NamesOf(checks)) && Distinct(NamesOf(sorted)) && |sorted| == |checks|
    requires forall c :: c in sorted ==> c in checks
    ensures multiset(sorted) == multiset(checks)
  {
    DistinctByName(checks);
    DistinctByName(sorted);
    DistinctCardinality(checks);
    DistinctCardinality(sorted);
    SubsetCardinality(Elements(sorted), Elements(checks));
    SameMembersSameMultiset(sorted, checks);
  }
}
