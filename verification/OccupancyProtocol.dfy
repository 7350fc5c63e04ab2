/**
 Acquire and Release under any interleaving: the counter goes up first, the limit is checked afterwards, and a
 refused attempt takes its increment back in a later step.
 */
module OccupancyProtocol {
  import opened Prelude
  import opened Occupancy

  /** seen is the value the increment returned. */
  datatype Attempt = Undecided(acct: string, seen: int) | Refused(acct: string) | Holding(acct: string)

  datatype State = State(counters: Counters, attempts: map<nat, Attempt>)

  datatype Action = Raise(t: nat, acct: string) | Decide(t: nat) | RollBack(t: nat) | Release(t: nat)

  function Step(limit: string -> int, s: State, act: Action): State {
    match act
    case Raise(t, acct) =>
      if t in s.attempts then s
      else
        var counters := Increment(s.counters, acct);
        State(counters, s.attempts[t := Undecided(acct, CountOf(counters, acct))])
    case Decide(t) =>
      if t in s.attempts && s.attempts[t].Undecided? then
        var u := s.attempts[t];
        s.(attempts := s.attempts[t := if u.seen > limit(u.acct) then Refused(u.acct) else Holding(u.acct)])
      else s
    case RollBack(t) =>
      if t in s.attempts && s.attempts[t].Refused?
      then State(Decrement(s.counters, s.attempts[t].acct), s.attempts - {t})
      else s
    case Release(t) =>
      if t in s.attempts && s.attempts[t].Holding?
      then State(Decrement(s.counters, s.attempts[t].acct), s.attempts - {t})
      else s
  }

  const INITIAL := State(map[], map[])

  function Run(limit: string -> int, acts: seq<Action>): State {
    if acts == [] then INITIAL else Step(limit, Run(limit, acts[..|acts| - 1]), acts[|acts| - 1])
  }

  function On(attempts: map<nat, Attempt>, acct: string): set<nat> {
    set t | t in attempts && attempts[t].acct == acct
  }

  function Holders(attempts: map<nat, Attempt>, acct: string): set<nat> {
    set t | t in attempts && attempts[t] == Holding(acct)
  }

  /** Holders, and attempts that will become holders when they look at what they saw. */
  function Winners(limit: string -> int, attempts: map<nat, Attempt>, acct: string): set<nat> {
    set t | t in attempts && attempts[t].acct == acct
            && (attempts[t].Holding? || (attempts[t].Undecided? && attempts[t].seen <= limit(acct)))
  }

  ghost predicate Fits(limit: string -> int, s: State, acct: string) {
    && CountOf(s.counters, acct) == |On(s.attempts, acct)|
    && |Winners(limit, s.attempts, acct)| <= (if limit(acct) > 0 then limit(acct) else 0)
  }

  ghost predicate Inv(limit: string -> int, s: State) {
    && (forall id :: id in s.counters ==> s.counters[id] > 0)
    && (forall acct {:trigger Fits(limit, s, acct)} :: Fits(limit, s, acct))
  }

  lemma Grow(big: set<nat>, small: set<nat>, t: nat)
    requires t in big && t !in small && forall x :: x != t ==> (x in big <==> x in small)
    ensures |big| == |small| + 1
  {
    assert big == small + {t};
  }

  lemma RaiseFits(limit: string -> int, s: State, t: nat, a: string, acct: string)
    requires Inv(limit, s) && t !in s.attempts
    ensures Fits(limit, Step(limit, s, Raise(t, a)), acct)
  {
    var s' := Step(limit, s, Raise(t, a));
    assert Fits(limit, s, acct);
    if acct == a {
      Grow(On(s'.attempts, a), On(s.attempts, a), t);
      assert Winners(limit, s.attempts, a) <= On(s.attempts, a);
      SubsetCardinality(Winners(limit, s.attempts, a), On(s.attempts, a));
      if s'.attempts[t].seen <= limit(a) {
        Grow(Winners(limit, s'.attempts, a), Winners(limit, s.attempts, a), t);
      } else {
        assert Winners(limit, s'.attempts, a) == Winners(limit, s.attempts, a);
      }
    } else {
      assert On(s'.attempts, acct) == On(s.attempts, acct);
      assert Winners(limit, s'.attempts, acct) == Winners(limit, s.attempts, acct);
    }
  }

  lemma DecideFits(limit: string -> int, s: State, t: nat, acct: string)
    requires Inv(limit, s)
    ensures Fits(limit, Step(limit, s, Decide(t)), acct)
  {
    var s' := Step(limit, s, Decide(t));
    assert Fits(limit, s, acct);
    assert On(s'.attempts, acct) == On(s.attempts, acct);
    assert Winners(limit, s'.attempts, acct) == Winners(limit, s.attempts, acct);
  }

  lemma LeaveFits(limit: string -> int, s: State, t: nat, acct: string)
    requires Inv(limit, s) && t in s.attempts
    ensures Fits(limit, State(Decrement(s.counters, s.attempts[t].acct), s.attempts - {t}), acct)
    ensures CountOf(s.counters, s.attempts[t].acct) > 0
  {
    var a, rest := s.attempts[t].acct, s.attempts - {t};
    assert Fits(limit, s, acct) && Fits(limit, s, a);
    assert t in On(s.attempts, a);
    if acct == a {
      Grow(On(s.attempts, a), On(rest, a), t);
    } else {
      assert On(rest, acct) == On(s.attempts, acct);
    }
    assert Winners(limit, rest, acct) <= Winners(limit, s.attempts, acct);
    SubsetCardinality(Winners(limit, rest, acct), Winners(limit, s.attempts, acct));
  }

  lemma StepKeepsInv(limit: string -> int, s: State, act: Action)
    requires Inv(limit, s)
    ensures Inv(limit, Step(limit, s, act))
  {
    forall acct
      ensures Fits(limit, Step(limit, s, act), acct)
    {
      assert Fits(limit, s, acct);
      match act {
        case Raise(t, a) => if t !in s.attempts { RaiseFits(limit, s, t, a, acct); }
        case Decide(t) => DecideFits(limit, s, t, acct);
        case RollBack(t) => if t in s.attempts { LeaveFits(limit, s, t, acct); }
        case Release(t) => if t in s.attempts { LeaveFits(limit, s, t, acct); }
      }
    }
    CountersStayPositive(limit, s, act);
  }

  lemma CountersStayPositive(limit: string -> int, s: State, act: Action)
    requires Inv(limit, s)
    ensures var counters := Step(limit, s, act).counters; forall id :: id in counters ==> counters[id] > 0
  {
    if act.t in s.attempts {
      LeaveFits(limit, s, act.t, s.attempts[act.t].acct);
    }
  }

  lemma {:induction false} RunKeepsInv(limit: string -> int, acts: seq<Action>)
    ensures Inv(limit, Run(limit, acts))
  {
    if acts == [] {
      forall acct
        ensures Fits(limit, INITIAL, acct)
      {
        assert On(map[], acct) == {} && Winners(limit, map[], acct) == {};
      }
    } else {
      RunKeepsInv(limit, acts[..|acts| - 1]);
      StepKeepsInv(limit, Run(limit, acts[..|acts| - 1]), acts[|acts| - 1]);
    }
  }

  /** In every interleaving the counter is the holders plus the attempts still undecided or not rolled back. */
  lemma CounterIsExact(limit: string -> int, acts: seq<Action>, acct: string)
    ensures var s := Run(limit, acts);
            CountOf(s.counters, acct) == |On(s.attempts, acct)| ==
            |Holders(s.attempts, acct)| + |On(s.attempts, acct) - Holders(s.attempts, acct)|
  {
    RunKeepsInv(limit, acts);
    var s := Run(limit, acts);
    assert Fits(limit, s, acct);
    var h, all := Holders(s.attempts, acct), On(s.attempts, acct);
    assert h <= all && all == h + (all - h);
  }

  /** In every interleaving an account has no more holders than its limit. */
  lemma HoldersWithinLimit(limit: string -> int, acts: seq<Action>, acct: string)
    ensures var h := |Holders(Run(limit, acts).attempts, acct)|; h == 0 || h <= limit(acct)
  {
    RunKeepsInv(limit, acts);
    var s := Run(limit, acts);
    assert Fits(limit, s, acct);
    assert Holders(s.attempts, acct) <= Winners(limit, s.attempts, acct);
    SubsetCardinality(Holders(s.attempts, acct), Winners(limit, s.attempts, acct));
  }

  /** The clamp at zero never fires: whoever takes an increment back finds a positive count. */
  lemma ClampNeverFires(limit: string -> int, acts: seq<Action>, t: nat)
    requires t in Run(limit, acts).attempts
    ensures var s := Run(limit, acts); CountOf(s.counters, s.attempts[t].acct) > 0
  {
    RunKeepsInv(limit, acts);
    LeaveFits(limit, Run(limit, acts), t, Run(limit, acts).attempts[t].acct);
  }

  /** When everyone has left, no counter is left behind. */
  lemma QuiescentStoreIsEmpty(limit: string -> int, acts: seq<Action>)
    requires Run(limit, acts).attempts == map[]
    ensures Run(limit, acts).counters == map[]
  {
    RunKeepsInv(limit, acts);
    var s := Run(limit, acts);
    forall id
      ensures id !in s.counters
    {
      assert Fits(limit, s, id);
      assert On(s.attempts, id) == {};
    }
  }

  // ---- Who gets a slot ----

  lemma RunNext(limit: string -> int, acts: seq<Action>, act: Action)
    ensures Run(limit, acts + [act]) == Step(limit, Run(limit, acts), act)
  {
    assert (acts + [act])[..|acts|] == acts;
  }

  /** What others do leaves an undecided attempt as it is. */
  lemma {:induction false} OthersLeaveIt(limit: string -> int, acts: seq<Action>, between: seq<Action>, t: nat)
    requires t in Run(limit, acts).attempts && forall act :: act in between ==> act.t != t
    ensures t in Run(limit, acts + between).attempts
    ensures Run(limit, acts + between).attempts[t] == Run(limit, acts).attempts[t]
  {
    if between == [] {
      assert acts + between == acts;
    } else {
      var rest, last := between[..|between| - 1], between[|between| - 1];
      assert acts + between == acts + rest + [last];
      OthersLeaveIt(limit, acts, rest, t);
      RunNext(limit, acts + rest, last);
    }
  }

  /**
   Whatever happens between raising the counter and comparing it, an attempt gets its slot exactly when fewer others
   than the limit held one, or were undecided or not yet rolled back, at the moment it raised the counter.
   */
  lemma GetsSlotIff(limit: string -> int, before: seq<Action>, t: nat, acct: string, between: seq<Action>)
    requires t !in Run(limit, before).attempts && forall act :: act in between ==> act.t != t
    ensures var s := Run(limit, before + [Raise(t, acct)] + between + [Decide(t)]);
            t in s.attempts && s.attempts[t] ==
            if |On(Run(limit, before).attempts, acct)| < limit(acct) then Holding(acct) else Refused(acct)
  {
    RunNext(limit, before, Raise(t, acct));
    OthersLeaveIt(limit, before + [Raise(t, acct)], between, t);
    RunNext(limit, before + [Raise(t, acct)] + between, Decide(t));
    CounterIsExact(limit, before, acct);
  }

  /** Only a refused attempt rolls back, only a holder releases, and what is decided is not decided again. */
  lemma NothingOutOfTurn(limit: string -> int, s: State, t: nat, acct: string)
    ensures t in s.attempts ==> Step(limit, s, Raise(t, acct)) == s
    ensures t !in s.attempts || !s.attempts[t].Undecided? ==> Step(limit, s, Decide(t)) == s
    ensures t !in s.attempts || !s.attempts[t].Refused? ==> Step(limit, s, RollBack(t)) == s
    ensures t !in s.attempts || !s.attempts[t].Holding? ==> Step(limit, s, Release(t)) == s
  {}

  /** A refused attempt that rolls back, and a holder that releases, are gone and lower the counter by one. */
  lemma LeavingLowersByOne(limit: string -> int, acts: seq<Action>, t: nat)
    requires t in Run(limit, acts).attempts && !Run(limit, acts).attempts[t].Undecided?
    ensures var s := Run(limit, acts);
            var acct := s.attempts[t].acct;
            var after := Step(limit, s, if s.attempts[t].Holding? then Release(t) else RollBack(t));
            after.attempts == s.attempts - {t} && CountOf(after.counters, acct) == CountOf(s.counters, acct) - 1
  {
    ClampNeverFires(limit, acts, t);
  }
}
