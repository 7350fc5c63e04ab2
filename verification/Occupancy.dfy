/** Occupancy counters and the controller with a fixed limit per account. */
module Occupancy {
  import opened Prelude
  import opened Entities

  type Counters = map<string, int>

  function CountOf(counters: Counters, id: string): int {
    if id in counters then counters[id] else 0
  }

  function Increment(counters: Counters, id: string): Counters {
    counters[id := CountOf(counters, id) + 1]
  }

  /** Never below zero; the entry goes when the count falls to zero, and a count that was zero leaves an entry. */
  function Decrement(counters: Counters, id: string): Counters {
    if CountOf(counters, id) <= 0 then counters[id := CountOf(counters, id)]
    else if CountOf(counters, id) == 1 then counters - {id}
    else counters[id := counters[id] - 1]
  }

  /** Counters for one store; each call is one atomic step. */
  class OccupancyStore {
    var counters: Counters

    ghost predicate Valid()
      reads this
    {
      forall id :: id in counters ==> counters[id] >= 0
    }

    constructor ()
      ensures Valid() && counters == map[]
    {
      counters := map[];
    }

    method IncrOccupancy(id: string) returns (n: int)
      modifies this
      ensures counters == Increment(old(counters), id) && n == CountOf(counters, id)
      ensures old(Valid()) ==> Valid()
    {
      if id !in counters {
        counters := counters[id := 0];
      }
      counters := counters[id := counters[id] + 1];
      n := counters[id];
      assert counters == Increment(old(counters), id);
    }

    method DecrOccupancy(id: string)
      modifies this
      ensures counters == Decrement(old(counters), id)
      ensures old(Valid()) ==> Valid()
    {
      if id !in counters {
        counters := counters[id := 0];
      }
      var cur := counters[id];
      if cur <= 0 {
        assert counters == Decrement(old(counters), id);
        return;
      }
      counters := counters[id := cur - 1];
      if cur - 1 == 0 {
        counters := counters - {id};
      }
      assert counters == Decrement(old(counters), id);
    }

    /** Accounts without a counter are left out of the answer. */
    method GetOccupancies(ids: seq<string>) returns (found: Counters)
      ensures forall id :: id in found <==> id in ids && id in counters
      ensures forall id :: id in found ==> found[id] == counters[id]
    {
      found := map[];
      for i := 0 to |ids|
        invariant forall id :: id in found <==> id in ids[..i] && id in counters
        invariant forall id :: id in found ==> found[id] == counters[id]
      {
        if ids[i] in counters {
          found := found[ids[i] := counters[ids[i]]];
        }
      }
    }
  }

  const META_OCCUPANCY_LIMIT := "occupancy_limit"

  function Truncate(r: real): int {
    if r >= 0.0 then r.Floor else -((-r).Floor)
  }

  function MetadataInt(a: Account, key: string): Option<int> {
    if key !in a.metadata then None
    else match a.metadata[key]
      case MetaInt(i) => Some(i)
      case MetaFloat(r) => Some(Truncate(r))
      case MetaOther => None
  }

  function KeepWithRoom(accounts: seq<Account>, counters: Counters, limit: Account -> int): seq<Account> {
    if accounts == [] then []
    else
      var last := accounts[|accounts| - 1];
      KeepWithRoom(accounts[..|accounts| - 1], counters, limit) +
        (if CountOf(counters, last.id) < limit(last) then [last] else [])
  }

  lemma {:induction false} KeepWithRoomMembers(accounts: seq<Account>, counters: Counters, limit: Account -> int)
    ensures forall a :: a in KeepWithRoom(accounts, counters, limit) <==>
              a in accounts && CountOf(counters, a.id) < limit(a)
  {
    if accounts != [] {
      KeepWithRoomMembers(accounts[..|accounts| - 1], counters, limit);
      assert accounts == accounts[..|accounts| - 1] + [accounts[|accounts| - 1]];
    }
  }

  datatype Limits = Limits(
    default: int, byType: map<string, int>, byKey: map<ProviderKey, int>, byAccount: map<string, int>)
  {
    /** Metadata, then the account, its provider, its provider type, and last the default. */
    function LimitOf(a: Account): int {
      var meta := MetadataInt(a, META_OCCUPANCY_LIMIT);
      if meta.Some? && meta.value > 0 then meta.value
      else if a.id in byAccount then byAccount[a.id]
      else if a.Key() in byKey then byKey[a.Key()]
      else if a.providerType in byType then byType[a.providerType]
      else default
    }
  }

  class FixedLimit {
    const store: OccupancyStore
    const limits: Limits

    constructor (store: OccupancyStore, limits: Limits)
      ensures this.store == store && this.limits == limits
    {
      this.store, this.limits := store, limits;
    }

    /** Keeps the accounts below their limit, in order: those Acquire would grant at this moment. */
    method FilterAvailable(accounts: seq<Account>) returns (available: seq<Account>)
      ensures available == KeepWithRoom(accounts, store.counters, limits.LimitOf)
    {
      if |accounts| == 0 {
        return accounts;
      }
      var ids := seq(|accounts|, i requires 0 <= i < |accounts| => accounts[i].id);
      var occupancies := store.GetOccupancies(ids);
      available := [];
      for i := 0 to |accounts|
        invariant available == KeepWithRoom(accounts[..i], store.counters, limits.LimitOf)
      {
        assert accounts[..i + 1][..i] == accounts[..i];
        assert ids[i] in ids;
        var limit := limits.LimitOf(accounts[i]);
        var current := CountOf(occupancies, accounts[i].id);
        if current < limit {
          available := available + [accounts[i]];
        }
      }
      assert accounts[..|accounts|] == accounts;
    }

    /** With nobody in between, grants a slot exactly when there is room, and takes none when it refuses. */
    method Acquire(a: Account) returns (ok: bool)
      requires store.Valid()
      modifies store
      ensures store.Valid()
      ensures ok <==> CountOf(old(store.counters), a.id) < limits.LimitOf(a)
      ensures forall id ::
                CountOf(store.counters, id) == CountOf(old(store.counters), id) + (if ok && id == a.id then 1 else 0)
    {
      var limit := limits.LimitOf(a);
      var newVal := store.IncrOccupancy(a.id);
      if newVal > limit {
        DecrementUndoesIncrement(old(store.counters), a.id);
        store.DecrOccupancy(a.id);
        return false;
      }
      return true;
    }

    method Release(id: string)
      requires store.Valid()
      modifies store
      ensures store.Valid()
      ensures forall i :: CountOf(store.counters, i) ==
                          if i == id && CountOf(old(store.counters), i) > 0 then CountOf(old(store.counters), i) - 1
                          else CountOf(old(store.counters), i)
    {
      store.DecrOccupancy(id);
    }
  }

  /** Releasing gives back exactly what acquiring took. */
  lemma DecrementUndoesIncrement(counters: Counters, id: string)
    requires forall i :: i in counters ==> counters[i] >= 0
    ensures forall i :: CountOf(Decrement(Increment(counters, id), id), i) == CountOf(counters, i)
  {}

  /** Fractions are cut off towards zero. */
  lemma TruncateMeans(r: real)
    ensures r >= 0.0 ==> 0.0 <= Truncate(r) as real <= r < (Truncate(r) + 1) as real
    ensures r <= 0.0 ==> (Truncate(r) - 1) as real < r <= Truncate(r) as real <= 0.0
  {}

  /** The account's own metadata carries a positive limit. */
  predicate OwnLimit(a: Account) {
    && "occupancy_limit" in a.metadata
    && match a.metadata["occupancy_limit"]
       case MetaInt(i) => i > 0
       case MetaFloat(r) => r >= 1.0
       case MetaOther => false
  }

  /** The most specific limit wins, and metadata that are not positive or no number are passed over. */
  lemma MostSpecificLimit(limits: Limits, a: Account)
    ensures OwnLimit(a) && a.metadata["occupancy_limit"].MetaInt? ==>
              limits.LimitOf(a) == a.metadata["occupancy_limit"].i
    ensures OwnLimit(a) && a.metadata["occupancy_limit"].MetaFloat? ==>
              limits.LimitOf(a) as real <= a.metadata["occupancy_limit"].r < (limits.LimitOf(a) + 1) as real
    ensures "occupancy_limit" in a.metadata && a.metadata["occupancy_limit"].MetaOther? ==> !OwnLimit(a)
    ensures !OwnLimit(a) ==>
              && (a.id in limits.byAccount ==> limits.LimitOf(a) == limits.byAccount[a.id])
              && (a.id !in limits.byAccount ==>
                    && (a.Key() in limits.byKey ==> limits.LimitOf(a) == limits.byKey[a.Key()])
                    && (a.Key() !in limits.byKey ==>
                          && (a.providerType in limits.byType ==> limits.LimitOf(a) == limits.byType[a.providerType])
                          && (a.providerType !in limits.byType ==> limits.LimitOf(a) == limits.default)))
  {}
}
