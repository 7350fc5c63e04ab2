/** Which checks a command-line run registers: the named ones and everything they depend on. */
module CheckClosure {
  import opened Prelude
  import opened HealthGraph
  import opened HealthChecker

  /** The dependencies of a known check; an unknown name has none. */
  function DependenciesOf(checkMap: map<string, Check>, n: string): seq<string> {
    if n in checkMap then checkMap[n].dependsOn else []
  }

  ghost predicate ClosedAt(checkMap: map<string, Check>, s: set<string>, n: string) {
    forall d :: d in DependenciesOf(checkMap, n) ==> d in s
  }

  ghost predicate Closed(checkMap: map<string, Check>, s: set<string>) {
    forall n {:trigger ClosedAt(checkMap, s, n)} :: n in s ==> ClosedAt(checkMap, s, n)
  }

  /** The least set that contains the wanted names and every dependency of its members. */
  ghost predicate LeastClosure(checkMap: map<string, Check>, wanted: set<string>, s: set<string>) {
    && wanted <= s && Closed(checkMap, s)
    && forall t {:trigger Closed(checkMap, t)} :: wanted <= t && Closed(checkMap, t) ==> s <= t
  }

  /** Every name that can be reached at all: what bounds the recursion, cycles included. */
  function Mentioned(checkMap: map<string, Check>): set<string> {
    set n, d | n in checkMap && d in checkMap[n].dependsOn :: d
  }

  class Collector {
    const checkMap: map<string, Check>
    var needed: set<string>

    constructor (checkMap: map<string, Check>)
      ensures this.checkMap == checkMap && needed == {}
    {
      this.checkMap := checkMap;
      needed := {};
    }

    /** Marks name and, recursively, its dependencies; a name already marked ends the recursion. */
    method Resolve(name: string, ghost universe: set<string>)
      requires name in universe && Mentioned(checkMap) <= universe && needed <= universe
      modifies this
      ensures old(needed) + {name} <= needed <= universe
      ensures forall n {:trigger ClosedAt(checkMap, needed, n)} :: n in needed && n !in old(needed) ==>
                ClosedAt(checkMap, needed, n)
      ensures forall t {:trigger Closed(checkMap, t)} :: Closed(checkMap, t) && name in t ==> needed <= old(needed) + t
      decreases universe - needed
    {
      if name in needed {
        return;
      }
      ghost var before := needed;
      needed := needed + {name};
      var deps := DependenciesOf(checkMap, name);
      for k := 0 to |deps|
        invariant before + {name} <= needed <= universe
        invariant forall d :: d in deps[..k] ==> d in needed
        invariant forall n {:trigger ClosedAt(checkMap, needed, n)} :: n in needed && n !in before && n != name ==>
                  ClosedAt(checkMap, needed, n)
        invariant forall t {:trigger Closed(checkMap, t)} :: Closed(checkMap, t) && name in t ==> needed <= before + t
      {
        ghost var mid := needed;
        assert name in checkMap && deps[k] in checkMap[name].dependsOn;
        assert deps[k] in Mentioned(checkMap);
        Resolve(deps[k], universe);
        forall n | n in needed && n !in before && n != name
          ensures ClosedAt(checkMap, needed, n)
        {
          if n in mid {
            assert ClosedAt(checkMap, mid, n);
          } else {
            assert ClosedAt(checkMap, needed, n);
          }
        }
        forall t | Closed(checkMap, t) && name in t
          ensures needed <= before + t
        {
          assert ClosedAt(checkMap, t, name);
          assert deps[k] in t;
        }
      }
      assert deps[..|deps|] == deps;
      assert ClosedAt(checkMap, needed, name);
    }
  }

  method CollectDependencies(specified: set<string>, allChecks: seq<CheckSchedule>) returns (needed: set<string>)
    ensures LeastClosure(LastByName(allChecks), specified, needed)
  {
    var checkMap := MapByName(allChecks);
    var c := new Collector(checkMap);
    ghost var universe := specified + Mentioned(checkMap);
    var remaining := specified;
    while remaining != {}
      invariant remaining <= specified
      invariant c.checkMap == checkMap
      invariant specified - remaining <= c.needed <= universe
      invariant Closed(checkMap, c.needed)
      invariant forall t {:trigger Closed(checkMap, t)} :: specified <= t && Closed(checkMap, t) ==> c.needed <= t
      decreases |remaining|
    {
      var name :| name in remaining;
      remaining := remaining - {name};
      ghost var before := c.needed;
      c.Resolve(name, universe);
      forall n | n in c.needed
        ensures ClosedAt(checkMap, c.needed, n)
      {
        if n in before {
          assert ClosedAt(checkMap, before, n);
        }
      }
    }
    needed := c.needed;
  }

  /** The name table of a list of schedules: the last of several with one name wins. */
  function LastByName(schedules: seq<CheckSchedule>): map<string, Check> {
    if schedules == [] then map[]
    else
      var last := schedules[|schedules| - 1];
      LastByName(schedules[..|schedules| - 1])[last.check.name := last.check]
  }

  method MapByName(schedules: seq<CheckSchedule>) returns (m: map<string, Check>)
    ensures m == LastByName(schedules)
  {
    m := map[];
    for i := 0 to |schedules|
      invariant m == LastByName(schedules[..i])
    {
      assert schedules[..i + 1][..i] == schedules[..i];
      m := m[schedules[i].check.name := schedules[i].check];
    }
    assert schedules[..|schedules|] == schedules;
  }

  /** The schedules whose check is named in keep, in their original order. */
  function Keep(schedules: seq<CheckSchedule>, keep: set<string>): seq<CheckSchedule> {
    if schedules == [] then []
    else
      var last := schedules[|schedules| - 1];
      Keep(schedules[..|schedules| - 1], keep) + (if last.check.name in keep then [last] else [])
  }

  /** With names given: exactly the known checks in their dependency closure; with none: all of them. */
  method BuildCheckSchedules(specifiedChecks: seq<string>, allChecks: seq<CheckSchedule>)
    returns (result: seq<CheckSchedule>, ghost needed: set<string>)
    ensures specifiedChecks == [] ==> result == allChecks
    ensures specifiedChecks != [] ==>
              LeastClosure(LastByName(allChecks), Elements(specifiedChecks), needed)
                && result == Keep(allChecks, needed)
  {
    needed := {};
    if |specifiedChecks| == 0 {
      return allChecks, needed;
    }
    var specified := Elements(specifiedChecks);
    var collected := CollectDependencies(specified, allChecks);
    needed := collected;
    result := [];
    for i := 0 to |allChecks|
      invariant result == Keep(allChecks[..i], collected)
    {
      assert allChecks[..i + 1][..i] == allChecks[..i];
      if allChecks[i].check.name in collected {
        result := result + [allChecks[i]];
      }
    }
    assert allChecks[..|allChecks|] == allChecks;
  }

  /** The least closure is unique, so what is registered does not depend on the order names are resolved in. */
  lemma LeastClosureUnique(checkMap: map<string, Check>, wanted: set<string>, s: set<string>, t: set<string>)
    requires LeastClosure(checkMap, wanted, s) && LeastClosure(checkMap, wanted, t)
    ensures s == t
  {}

  /** Nothing registered by name waits for a known check that was left out. */
  lemma KeptDependenciesKept(allChecks: seq<CheckSchedule>, wanted: set<string>, needed: set<string>, s: CheckSchedule,
                             d: string)
    requires Distinct(seq(|allChecks|, i requires 0 <= i < |allChecks| => allChecks[i].check.name))
    requires LeastClosure(LastByName(allChecks), wanted, needed)
    requires s in Keep(allChecks, needed) && d in s.check.dependsOn
    ensures forall other :: other in allChecks && other.check.name == d ==> other in Keep(allChecks, needed)
  {
    KeepMembers(allChecks, needed);
    KnownByName(allChecks, s);
    assert ClosedAt(LastByName(allChecks), needed, s.check.name);
  }

  lemma {:induction false} KeepMembers(schedules: seq<CheckSchedule>, keep: set<string>)
    ensures forall s :: s in Keep(schedules, keep) <==> s in schedules && s.check.name in keep
  {
    if schedules != [] {
      KeepMembers(schedules[..|schedules| - 1], keep);
      assert schedules == schedules[..|schedules| - 1] + [schedules[|schedules| - 1]];
    }
  }

  lemma {:induction false} KnownByName(schedules: seq<CheckSchedule>, s: CheckSchedule)
    requires Distinct(seq(|schedules|, i requires 0 <= i < |schedules| => schedules[i].check.name))
    requires s in schedules
    ensures s.check.name in LastByName(schedules) && LastByName(schedules)[s.check.name] == s.check
  {
    var names := seq(|schedules|, i requires 0 <= i < |schedules| => schedules[i].check.name);
    var rest, last := schedules[..|schedules| - 1], schedules[|schedules| - 1];
    assert schedules == rest + [last];
    if s != last {
      var i :| 0 <= i < |rest| && rest[i] == s;
      assert names[i] != names[|rest|];
      var shorter := seq(|rest|, i requires 0 <= i < |rest| => rest[i].check.name);
      assert forall i :: 0 <= i < |rest| ==> shorter[i] == names[i];
      KnownByName(rest, s);
    }
  }
}
