/**
 What a request talks to while an account is picked: the resolver's answers, the strategies, the occupancy counters it
 shares with other requests. The environment keeps a log of every answer it gave.
 */
module PickEnvironment {
  import opened Prelude
  import opened Entities
  import opened Occupancy
  import opened Resolver

  /** What the resolver answers while a request is served. */
  datatype World = World(
    provider: (ProviderKey, string) -> Result<Provider, ResolveError>,
    providers: (string, string) -> Result<seq<Provider>, ResolveError>,
    accounts: (ProviderKey, Tags) -> Result<seq<Account>, ResolveError>)

  datatype SelectorError = SelectorEmpty | SelectorNone | SelectorOther

  /**
   counts and seen are None when the counter store failed; noting says that there is a statistics store to note the use
   of a slot in.
   */
  datatype Event =
    | AccountsListed(key: ProviderKey, tags: Tags, listed: Result<seq<Account>, ResolveError>)
    | RoomChecked(accounts: seq<Account>, available: seq<Account>, counts: Option<Counters>, limitOf: Account -> int)
    | AccountAsked(candidates: seq<Account>, account: Result<Account, SelectorError>)
    | SlotTaken(id: string, raised: int, limit: int, noting: bool)
    | SlotRefused(id: string, seen: Option<int>, limit: int)
    | UseNoted(id: string, stored: bool)
    | SlotReturned(id: string)
    | ProviderAsked(providers: seq<Provider>, provider: Result<Provider, SelectorError>)
    | CancellationNoticed

  /**
   The answer follows from what was looked at: room is there below the limit, or when nobody could count; a slot is kept
   when the raised counter is within the limit, and refused when it is above or could not be raised.
   */
  ghost predicate Justified(e: Event) {
    match e
    case RoomChecked(accounts, available, counts, limitOf) =>
      available == if counts.None? then accounts else KeepWithRoom(accounts, counts.value, limitOf)
    case SlotTaken(_, raised, limit, _) => raised <= limit
    case SlotRefused(_, seen, limit) => seen.Some? ==> seen.value > limit
    case _ => true
  }

  /** What the counters, the limits and the state of the counter store were when others had acted. */
  datatype Moment = Moment(counts: Counters, limitOf: Account -> int, failing: bool)

  /** The answer to an acquisition with this limit that raised the counter at this moment. */
  function SlotAnswer(id: string, limit: int, atRaise: Moment, noting: bool): Event {
    var raised := CountOf(atRaise.counts, id) + 1;
    if atRaise.failing then SlotRefused(id, None, limit)
    else if raised > limit then SlotRefused(id, Some(raised), limit)
    else SlotTaken(id, raised, limit, noting)
  }

  class SelectRequest {
    const userID: string
    const model: string
    const providerKey: Option<ProviderKey>
    const tags: Tags
    var excludeAccountIDs: seq<string>

    constructor (userID: string, model: string, providerKey: Option<ProviderKey>, tags: Tags)
      ensures this.userID == userID && this.model == model && this.providerKey == providerKey && this.tags == tags
      ensures excludeAccountIDs == []
    {
      this.userID, this.model, this.providerKey, this.tags := userID, model, providerKey, tags;
      excludeAccountIDs := [];
    }
  }

  class Environment {
    const hasStats: bool
    var counts: Counters
    var limitOf: Account -> int
    var failing: bool
    ghost var moments: seq<Moment>
    ghost var mine: multiset<string>
    ghost var others: multiset<string>
    ghost var log: seq<Event>

    /** Every counter is the slots of this request plus those of all others. */
    ghost predicate Valid()
      reads this`counts, this`mine, this`others
    {
      forall id {:trigger mine[id]} :: CountOf(counts, id) == mine[id] + others[id]
    }

    constructor (limitOf: Account -> int, hasStats: bool)
      ensures this.hasStats == hasStats
      ensures Valid() && counts == map[] && mine == multiset{} && others == multiset{} && log == [] && moments == []
    {
      counts, mine, others, log := map[], multiset{}, multiset{}, [];
      this.limitOf, this.hasStats, failing, moments := limitOf, hasStats, false, [];
    }

    /**
     Other requests come and go, limits move with quotas, and the counter store may fail for a while. Counters change by
     what the others take and give back.
     */
    method Interfere()
      requires Valid()
      modifies this`counts, this`others, this`limitOf, this`failing, this`moments
      ensures Valid() && moments == old(moments) + [Moment(counts, limitOf, failing)]
    {
      moments := moments + [Moment(counts, limitOf, failing)];
    }

    // ---- Slots ----

    method Raise(id: string) returns (n: int)
      requires Valid()
      modifies this`counts, this`mine
      ensures Valid() && mine == old(mine) + multiset{id} && n == CountOf(counts, id) == CountOf(old(counts), id) + 1
    {
      counts := Increment(counts, id);
      mine := mine + multiset{id};
      n := CountOf(counts, id);
      forall i
        ensures CountOf(counts, i) == mine[i] + others[i]
      {
        assert CountOf(old(counts), i) == old(mine)[i] + others[i];
      }
    }

    /** Giving back a held slot always lowers the counter: the clamp at zero is not reached. */
    method Lower(id: string)
      requires Valid() && id in mine
      modifies this`counts, this`mine
      ensures Valid() && mine == old(mine) - multiset{id} && CountOf(counts, id) == CountOf(old(counts), id) - 1
    {
      assert mine[id] > 0;
      counts := Decrement(counts, id);
      mine := mine - multiset{id};
      forall i
        ensures CountOf(counts, i) == mine[i] + others[i]
      {
        assert CountOf(old(counts), i) == old(mine)[i] + others[i];
      }
    }

    /** Reads the limit and takes the slot. Others act before each step. */
    method Acquire(a: Account) returns (ok: bool, ghost e: Event)
      requires Valid()
      modifies this
      ensures Valid() && mine == if ok then old(mine) + multiset{a.id} else old(mine)
      ensures log == old(log) + [e] && Justified(e) && (ok <==> e.SlotTaken?)
      ensures |moments| >= |old(moments)| + 2
      ensures var atLimit, atRaise := moments[|old(moments)|], moments[|old(moments)| + 1];
              e == SlotAnswer(a.id, atLimit.limitOf(a), atRaise, hasStats)
    {
      hide Valid;
      Interfere();
      var limit := limitOf(a);
      Interfere();
      ok, e := TakeSlot(a.id, limit);
    }

    /** Raises the counter, and takes the slot back when the limit is passed or fails when nobody can count. */
    method TakeSlot(id: string, limit: int) returns (ok: bool, ghost e: Event)
      requires Valid()
      modifies this
      ensures Valid() && mine == if ok then old(mine) + multiset{id} else old(mine)
      ensures e == SlotAnswer(id, limit, old(Moment(counts, limitOf, failing)), hasStats)
      ensures log == old(log) + [e] && (ok <==> e.SlotTaken?) && old(moments) <= moments
    {
      hide Valid;
      e := SlotAnswer(id, limit, Moment(counts, limitOf, failing), hasStats);
      if failing {
        log := log + [e];
        return false, e;
      }
      var newVal := Raise(id);
      Interfere();
      log := log + [e];
      if newVal > limit {
        Lower(id);
        assert mine == old(mine);
        return false, e;
      }
      return true, e;
    }

    method Release(id: string)
      requires Valid() && id in mine
      modifies this
      ensures Valid() && mine == old(mine) - multiset{id} && CountOf(counts, id) == CountOf(old(counts), id) - 1
      ensures others == old(others) && log == old(log) + [SlotReturned(id)]
    {
      Lower(id);
      log := log + [SlotReturned(id)];
    }

    /** The accounts below their limit, in order; all of them when the counters could not be read. */
    method FilterAvailable(accounts: seq<Account>) returns (available: seq<Account>, ghost e: Event)
      requires Valid()
      modifies this
      ensures Valid() && mine == old(mine)
      ensures e == RoomChecked(accounts, available, if failing then None else Some(counts), limitOf) && Justified(e)
      ensures log == old(log) + [e]
    {
      Interfere();
      if failing {
        e := RoomChecked(accounts, accounts, None, limitOf);
        log := log + [e];
        return accounts, e;
      }
      available := [];
      for i := 0 to |accounts|
        invariant available == KeepWithRoom(accounts[..i], counts, limitOf)
      {
        assert accounts[..i + 1][..i] == accounts[..i];
        if CountOf(counts, accounts[i].id) < limitOf(accounts[i]) {
          available := available + [accounts[i]];
        }
      }
      assert accounts[..|accounts|] == accounts;
      e := RoomChecked(accounts, available, Some(counts), limitOf);
      log := log + [e];
    }

    /** Whether the time of use could be stored. */
    method UpdateLastUsed(id: string) returns (stored: bool)
      requires Valid()
      modifies this`log
      ensures Valid() && log == old(log) + [UseNoted(id, stored)]
    {
      stored := *;
      log := log + [UseNoted(id, stored)];
    }

    // ---- Answers ----

    method ListAccounts(w: World, key: ProviderKey, tags: Tags) returns (listed: Result<seq<Account>, ResolveError>)
      requires Valid()
      modifies this`log
      ensures Valid() && listed == w.accounts(key, tags) && log == old(log) + [AccountsListed(key, tags, listed)]
    {
      listed := w.accounts(key, tags);
      log := log + [AccountsListed(key, tags, listed)];
    }

    /** Any account strategy: it answers a candidate or an error. */
    method SelectAccount(candidates: seq<Account>, req: SelectRequest) returns (r: Result<Account, SelectorError>)
      requires Valid()
      modifies this`log
      ensures Valid() && log == old(log) + [AccountAsked(candidates, r)]
      ensures r.Success? ==> r.value in candidates
    {
      if |candidates| > 0 {
        var i :| 0 <= i < |candidates|;
        r := Success(candidates[i]);
      } else {
        r := Failure(SelectorEmpty);
      }
      if * {
        var error: SelectorError := *;
        r := Failure(error);
      }
      log := log + [AccountAsked(candidates, r)];
    }

    /** Any provider strategy. */
    method SelectProvider(candidates: seq<Provider>, req: SelectRequest) returns (r: Result<Provider, SelectorError>)
      requires Valid()
      modifies this`log
      ensures Valid() && log == old(log) + [ProviderAsked(candidates, r)]
      ensures r.Success? ==> r.value in candidates
    {
      if |candidates| > 0 {
        var i :| 0 <= i < |candidates|;
        r := Success(candidates[i]);
      } else {
        r := Failure(SelectorNone);
      }
      if * {
        var error: SelectorError := *;
        r := Failure(error);
      }
      log := log + [ProviderAsked(candidates, r)];
    }

    method Cancelled() returns (cancelled: bool)
      requires Valid()
      modifies this`log
      ensures Valid() && log == old(log) + if cancelled then [CancellationNoticed] else []
    {
      cancelled := *;
      if cancelled {
        log := log + [CancellationNoticed];
      }
    }
  }

  method Shuffle<T>(s: seq<T>) returns (t: seq<T>)
    ensures multiset(t) == multiset(s)
  {
    t := s;
  }

  lemma ShuffledMembers<T>(s: seq<T>, t: seq<T>)
    requires multiset(t) == multiset(s)
    ensures forall x :: x in t <==> x in s
  {
    assert forall x :: x in t <==> x in multiset(t);
    assert forall x :: x in s <==> x in multiset(s);
  }
}
