/** A provider's counters over any sequence of store operations, batch removals split in their two halves. */
module StoreHistory {
  import opened Entities
  import opened FilterTree
  import opened StoreRelations
  import opened MemoryStore

  /** DebitBatch completes the batch removal that has waited longest but n. Rewrite keeps the counts the record has. */
  datatype Operation =
    | AddOne(a: Account)
    | UpdateOne(a: Account, fields: set<UpdateField>)
    | RemoveOne(id: string)
    | DetachBatch(filter: SearchFilter)
    | DebitBatch(n: nat)
    | AddProvider(info: Provider)
    | Rewrite(info: Provider)
    | RemoveProvider(key: ProviderKey)

  /** Everything that is owed for the batches whose first half has run. */
  function OwedForBatches(pending: seq<seq<Account>>): Owed {
    if pending == [] then multiset{} else OwedForBatches(pending[..|pending| - 1]) + OwedForAll(pending[|pending| - 1])
  }

  lemma OneMoreBatch(pending: seq<seq<Account>>, removed: seq<Account>)
    ensures OwedForBatches(pending + [removed]) == OwedForBatches(pending) + OwedForAll(removed)
  {
    hide OwedForAll;
    assert (pending + [removed])[..|pending|] == pending;
  }

  lemma {:induction false} BatchDebited(pending: seq<seq<Account>>, n: nat)
    requires n < |pending|
    ensures OwedForBatches(pending) == OwedForBatches(pending[..n] + pending[n + 1..]) + OwedForAll(pending[n])
    decreases |pending|
  {
    hide OwedForAll;
    var last := |pending| - 1;
    if n == last {
      assert pending[..n] + pending[n + 1..] == pending[..last];
    } else {
      BatchDebited(pending[..last], n);
      var rest := pending[..last][..n] + pending[..last][n + 1..];
      assert pending[..n] + pending[n + 1..] == rest + [pending[last]];
      OneMoreBatch(rest, pending[last]);
    }
  }

  // ---- What an operation does ----

  datatype Call = Call(op: Operation, now: int)

  /** The tables of the store, what is owed, and the batches whose second half is still to run. */
  datatype Snapshot = Snapshot(accounts: Accounts, providers: Providers, owed: Owed, pending: seq<seq<Account>>)

  ghost function Tables(store: Store, pending: seq<seq<Account>>): Snapshot
    reads store
  {
    Snapshot(store.accounts, store.providers, store.owed, pending)
  }

  /** The record a rewrite stores: the new one with the counts the stored one has. */
  function Rewritten(providers: Providers, info: Provider): Provider
    requires info.Key() in providers
  {
    var current := providers[info.Key()];
    info.(accountCount := current.accountCount, availableAccountCount := current.availableAccountCount)
  }

  /** What each operation makes of the tables; one that is refused changes nothing. */
  ghost predicate Performed(call: Call, before: Snapshot, after: Snapshot) {
    var now := call.now;
    match call.op
    case AddOne(a) =>
      if a.id in before.accounts then after == before
      else after == before.(accounts := before.accounts[a.id := Stored(a, now)],
                            providers := Credit(before.providers, a.Key(), a.Available(), now))
    case UpdateOne(a, fields) =>
      if a.id !in before.accounts || before.accounts[a.id].version != a.version then after == before
      else
        var old' := before.accounts[a.id];
        var new' := Updated(old', a, fields, now);
        after == before.(accounts := before.accounts[a.id := new'],
                         providers := Restatus(before.providers, old'.Key(), old'.status, new'.status, now))
    case RemoveOne(id) =>
      if id !in before.accounts then after == before
      else
        var a := before.accounts[id];
        after == before.(accounts := before.accounts - {id},
                         providers := Debit(before.providers, a.Key(), a.Available(), now))
    case DetachBatch(filter) =>
      if !Convertible(filter.extraCond) then after == before
      else exists removed :: Detached(filter, removed, before, after)
    case DebitBatch(n) =>
      if n >= |before.pending| then after == before
      else
        var removed := before.pending[n];
        after == before.(providers := DebitAll(before.providers, removed, now),
                         owed := before.owed - OwedForAll(removed),
                         pending := before.pending[..n] + before.pending[n + 1..])
    case AddProvider(info) =>
      if info.Key() in before.providers then after == before
      else after == before.(providers := before.providers[info.Key() := StoredProvider(info, now)])
    case Rewrite(info) =>
      if info.Key() !in before.providers then after == before
      else after == before.(providers :=
                              before.providers[info.Key() := Rewritten(before.providers, info).(updatedAt := now)])
    case RemoveProvider(key) =>
      if key !in before.providers then after == before
      else after == before.(accounts := before.accounts - IdsUnder(before.accounts, key),
                            providers := before.providers - {key})
  }

  /** The first half of a batch removal: exactly the selected accounts leave, and their debits are owed. */
  ghost predicate Detached(filter: SearchFilter, removed: seq<Account>, before: Snapshot, after: Snapshot)
    requires Convertible(filter.extraCond)
  {
    && Enumerates(removed, before.accounts, filter)
    && after == before.(accounts := before.accounts - IdsOf(removed),
                        owed := before.owed + OwedForAll(removed),
                        pending := before.pending + [removed])
  }

  /** Each call took the store from one snapshot to the next. */
  ghost predicate Chain(calls: seq<Call>, snapshots: seq<Snapshot>) {
    var n := |calls|;
    && |snapshots| == n + 1
    && (n > 0 ==> Performed(calls[n - 1], snapshots[n - 1], snapshots[n]) && Chain(calls[..n - 1], snapshots[..n]))
  }

  lemma ChainNext(calls: seq<Call>, snapshots: seq<Snapshot>, next: Snapshot)
    requires calls != [] && Chain(calls[..|calls| - 1], snapshots)
    requires Performed(calls[|calls| - 1], snapshots[|calls| - 1], next)
    ensures Chain(calls, snapshots + [next])
  {
    hide Performed;
    assert (snapshots + [next])[..|calls|] == snapshots;
  }

  // ---- The counters ----

  /** The counters of a provider that began with (a0, v0). */
  ghost predicate CountsFrom(s: Snapshot, key: ProviderKey, a0: int, v0: int) {
    && key in s.providers
    && s.providers[key].accountCount == a0 + |IdsUnder(s.accounts, key)| + OwedUnder(s.owed, key)
    && s.providers[key].availableAccountCount == v0 + |AvailableUnder(s.accounts, key)| + s.owed[(key, true)]
  }

  lemma BaseCounts(store: Store, pending: seq<seq<Account>>, key: ProviderKey)
    requires store.Valid() && key in store.base
    ensures CountsFrom(Tables(store, pending), key, store.base[key].accounts, store.base[key].available)
  {
    assert CounterAgrees(store.accounts, store.providers, store.base, store.owed, key);
  }

  /** Performs one operation. What the counters of a provider started from stays, unless it is removed. */
  method Apply(store: Store, call: Call, pending: seq<seq<Account>>, ghost key: ProviderKey)
    returns (waiting: seq<seq<Account>>)
    requires store.Valid() && store.owed == OwedForBatches(pending)
    modifies store
    ensures store.Valid() && store.owed == OwedForBatches(waiting)
    ensures Performed(call, old(Tables(store, pending)), Tables(store, waiting))
    ensures key in old(store.base) && call.op != RemoveProvider(key) ==>
              key in store.base && store.base[key] == old(store.base)[key]
  {
    hide OwedForAll, OwedForBatches, DebitAll, MemoryConvertible, Matches, Selects, Updated, Restatus, Credit, Debit;
    hide Keyed, AccountIndexAgrees, TypeIndexAgrees, ModelIndexAgrees, Enumerates, IdsOf, Stored;
    waiting := pending;
    var now := call.now;
    match call.op {
      case AddOne(a) => ApplyToOne(store, call, pending);
      case UpdateOne(a, fields) => ApplyToOne(store, call, pending);
      case RemoveOne(id) => ApplyToOne(store, call, pending);
      case DetachBatch(filter) =>
        waiting := DetachOne(store, filter, pending);
      case DebitBatch(n) =>
        if n < |pending| {
          BatchDebited(pending, n);
          store.DebitRemoved(pending[n], now);
          waiting := pending[..n] + pending[n + 1..];
        }
      case AddProvider(info) =>
        KnownProvider(store, pending, key);
        var _ := store.AddProvider(info, now);
      case Rewrite(info) =>
        RewriteOne(store, info, now, key);
      case RemoveProvider(other) =>
        var _ := store.RemoveProvider(other);
    }
  }

  predicate OnOneAccount(op: Operation) {
    op.AddOne? || op.UpdateOne? || op.RemoveOne?
  }

  method ApplyToOne(store: Store, call: Call, ghost pending: seq<seq<Account>>)
    requires store.Valid() && OnOneAccount(call.op)
    modifies store
    ensures store.Valid() && store.owed == old(store.owed) && store.base == old(store.base)
    ensures Performed(call, old(Tables(store, pending)), Tables(store, pending))
  {
    hide Updated, Restatus, Credit, Debit, Stored;
    hide Keyed, AccountIndexAgrees, TypeIndexAgrees, ModelIndexAgrees, CountersAgree;
    match call.op {
      case AddOne(a) =>
        var _ := store.AddAccount(a, call.now);
      case UpdateOne(a, fields) =>
        var _ := store.UpdateAccount(a, fields, call.now);
      case RemoveOne(id) =>
        var _ := store.RemoveAccount(id, call.now);
    }
  }

  lemma KnownProvider(store: Store, pending: seq<seq<Account>>, key: ProviderKey)
    requires store.Valid()
    ensures key in store.base ==> key in store.providers
  {
    if key in store.base {
      BaseCounts(store, pending, key);
    }
  }

  method DetachOne(store: Store, filter: SearchFilter, pending: seq<seq<Account>>) returns (waiting: seq<seq<Account>>)
    requires store.Valid() && store.owed == OwedForBatches(pending)
    modifies store`accounts, store`acctProviderIndex, store`owed
    ensures store.Valid() && store.owed == OwedForBatches(waiting)
    ensures if Convertible(filter.extraCond)
            then exists removed :: Detached(filter, removed, old(Tables(store, pending)), Tables(store, waiting))
            else Tables(store, waiting) == old(Tables(store, pending))
  {
    hide OwedForAll, OwedForBatches, MemoryConvertible, Matches, Selects, Enumerates, IdsOf;
    hide Keyed, AccountIndexAgrees, TypeIndexAgrees, ModelIndexAgrees, CountersAgree;
    waiting := pending;
    var conv := MemoryFilter.Convert(filter.extraCond);
    if conv.Success? {
      var removed := store.DetachSelected(filter, conv.value);
      OneMoreBatch(pending, removed);
      waiting := pending + [removed];
      assert Detached(filter, removed, old(Tables(store, pending)), Tables(store, waiting));
    }
  }

  method RewriteOne(store: Store, info: Provider, now: int, ghost key: ProviderKey)
    requires store.Valid()
    modifies store`providers, store`provTypeIndex, store`provModelIndex, store`base
    ensures store.Valid()
    ensures store.providers ==
            if info.Key() !in old(store.providers) then old(store.providers)
            else old(store.providers)[info.Key() := Rewritten(old(store.providers), info).(updatedAt := now)]
    ensures key in old(store.base) ==> key in store.base && store.base[key] == old(store.base)[key]
  {
    hide Keyed, AccountIndexAgrees, TypeIndexAgrees, ModelIndexAgrees;
    if info.Key() in store.providers {
      var next := Rewritten(store.providers, info);
      if info.Key() == key && key in store.base {
        RebaseCurrent(store.accounts, store.providers, store.base, store.owed, next);
      }
      var _ := store.UpdateProvider(next, now);
    }
  }

  /**
   A provider added with counts (a0, v0) while no account has its key: after any sequence of operations that does not
   remove it, its counters are a0 and v0 plus its stored accounts plus those removed in batches and not yet debited.
   snapshots shows that the provider was added and every operation performed, one after the other.
   */
  method CountersThroughHistory(store: Store, info: Provider, added: int, calls: seq<Call>, pending: seq<seq<Account>>)
    returns (waiting: seq<seq<Account>>, ghost snapshots: seq<Snapshot>)
    requires store.Valid() && store.owed == OwedForBatches(pending) && OwedUnder(store.owed, info.Key()) == 0
    requires info.Key() !in store.providers && IdsUnder(store.accounts, info.Key()) == {}
    requires info.accountCount >= 0 && info.availableAccountCount >= 0
    requires forall i :: 0 <= i < |calls| ==> calls[i].op != RemoveProvider(info.Key())
    modifies store
    ensures store.Valid() && store.owed == OwedForBatches(waiting)
    ensures CountsFrom(Tables(store, waiting), info.Key(), info.accountCount, info.availableAccountCount)
    ensures Chain([Call(AddProvider(info), added)] + calls, snapshots)
    ensures snapshots[0] == old(Tables(store, pending)) && snapshots[|calls| + 1] == Tables(store, waiting)
  {
    hide OwedForBatches, Performed;
    ghost var key, first := info.Key(), Call(AddProvider(info), added);
    RebaseFresh(store.accounts, store.base, store.owed, info);
    snapshots := [Tables(store, pending)];
    waiting := AddFirst(store, info, added, pending);
    ChainNext([first], snapshots, Tables(store, waiting));
    snapshots := snapshots + [Tables(store, waiting)];
    assert [first] + calls[..0] == [first];
    for i := 0 to |calls|
      invariant store.Valid() && store.owed == OwedForBatches(waiting)
      invariant key in store.base && store.base[key] == Base(info.accountCount, info.availableAccountCount)
      invariant Chain([first] + calls[..i], snapshots)
      invariant snapshots[0] == old(Tables(store, pending)) && snapshots[i + 1] == Tables(store, waiting)
    {
      hide Chain, Keyed, AccountIndexAgrees, TypeIndexAgrees, ModelIndexAgrees, CountersAgree;
      ghost var more := [first] + calls[..i + 1];
      assert more[..|more| - 1] == [first] + calls[..i] && more[|more| - 1] == calls[i];
      ChainLength([first] + calls[..i], snapshots);
      waiting := Apply(store, calls[i], waiting, key);
      ChainNext(more, snapshots, Tables(store, waiting));
      snapshots := snapshots + [Tables(store, waiting)];
    }
    assert calls[..|calls|] == calls;
    BaseCounts(store, waiting, key);
  }

  lemma ChainLength(calls: seq<Call>, snapshots: seq<Snapshot>)
    requires Chain(calls, snapshots)
    ensures |snapshots| == |calls| + 1
  {}

  /** The provider is added, and its counters start from what it brings. */
  method AddFirst(store: Store, info: Provider, now: int, pending: seq<seq<Account>>)
    returns (waiting: seq<seq<Account>>)
    requires store.Valid() && info.Key() !in store.providers
    modifies store`providers, store`provTypeIndex, store`provModelIndex, store`base
    ensures store.Valid() && waiting == pending
    ensures Performed(Call(AddProvider(info), now), old(Tables(store, pending)), Tables(store, waiting))
    ensures store.base == Rebase(old(store.base), store.accounts, store.owed, info)
  {
    waiting := pending;
    var _ := store.AddProvider(info, now);
  }
}
