/** What the store's indexes and provider counters must say, computed from the primary maps. */
module StoreRelations {
  import opened Entities
  import opened Buckets

  type Accounts = map<string, Account>
  type Providers = map<ProviderKey, Provider>

  /** An account a batch deletion has taken out but not yet debited: its provider, and whether it was available. */
  type Owed = multiset<(ProviderKey, bool)>

  function IdsUnder(accounts: Accounts, k: ProviderKey): set<string> {
    set id | id in accounts && accounts[id].Key() == k
  }

  function AvailableUnder(accounts: Accounts, k: ProviderKey): set<string> {
    set id | id in accounts && accounts[id].Key() == k && accounts[id].Available()
  }

  function KeysOfType(providers: Providers, t: string): set<ProviderKey> {
    set k | k in providers && providers[k].providerType == t
  }

  function KeysWithModel(providers: Providers, m: string): set<ProviderKey> {
    set k | k in providers && providers[k].SupportsModel(m)
  }

  ghost predicate AccountIndexAgrees(accounts: Accounts, index: map<ProviderKey, set<string>>) {
    NoEmptyBucket(index) && forall k {:trigger Bucket(index, k)} :: Bucket(index, k) == IdsUnder(accounts, k)
  }

  ghost predicate TypeIndexAgrees(providers: Providers, index: map<string, set<ProviderKey>>) {
    NoEmptyBucket(index) && forall t {:trigger Bucket(index, t)} :: Bucket(index, t) == KeysOfType(providers, t)
  }

  ghost predicate ModelIndexAgrees(providers: Providers, index: map<string, set<ProviderKey>>) {
    NoEmptyBucket(index) && forall m {:trigger Bucket(index, m)} :: Bucket(index, m) == KeysWithModel(providers, m)
  }

  ghost predicate Keyed(accounts: Accounts, providers: Providers) {
    && (forall id :: id in accounts ==> accounts[id].id == id)
    && (forall k :: k in providers ==> providers[k].Key() == k)
  }

  // ---- Indexes under change ----

  lemma AccountAdded(accounts: Accounts, index: map<ProviderKey, set<string>>, a: Account)
    requires AccountIndexAgrees(accounts, index) && a.id !in accounts
    ensures AccountIndexAgrees(accounts[a.id := a], AddTo(index, a.Key(), a.id))
  {
    AddToBucket(index, a.Key(), a.id);
    forall k
      ensures Bucket(AddTo(index, a.Key(), a.id), k) == IdsUnder(accounts[a.id := a], k)
    {
      assert Bucket(index, k) == IdsUnder(accounts, k);
    }
  }

  lemma AccountRemoved(accounts: Accounts, index: map<ProviderKey, set<string>>, id: string)
    requires AccountIndexAgrees(accounts, index) && id in accounts
    ensures AccountIndexAgrees(accounts - {id}, RemoveFrom(index, accounts[id].Key(), id))
  {
    RemoveFromBucket(index, accounts[id].Key(), id);
    forall k
      ensures Bucket(RemoveFrom(index, accounts[id].Key(), id), k) == IdsUnder(accounts - {id}, k)
    {
      assert Bucket(index, k) == IdsUnder(accounts, k);
    }
  }

  lemma AccountRewritten(accounts: Accounts, index: map<ProviderKey, set<string>>, id: string, a: Account)
    requires AccountIndexAgrees(accounts, index) && id in accounts && a.Key() == accounts[id].Key()
    ensures AccountIndexAgrees(accounts[id := a], index)
  {
    forall k
      ensures Bucket(index, k) == IdsUnder(accounts[id := a], k)
    {
      assert Bucket(index, k) == IdsUnder(accounts, k);
      assert IdsUnder(accounts[id := a], k) == IdsUnder(accounts, k);
    }
  }

  lemma TypeAdded(providers: Providers, index: map<string, set<ProviderKey>>, p: Provider)
    requires TypeIndexAgrees(providers, index) && p.Key() !in providers
    ensures TypeIndexAgrees(providers[p.Key() := p], AddTo(index, p.providerType, p.Key()))
  {
    AddToBucket(index, p.providerType, p.Key());
    forall t
      ensures Bucket(AddTo(index, p.providerType, p.Key()), t) == KeysOfType(providers[p.Key() := p], t)
    {
      assert Bucket(index, t) == KeysOfType(providers, t);
    }
  }

  lemma TypeRemoved(providers: Providers, index: map<string, set<ProviderKey>>, k: ProviderKey)
    requires TypeIndexAgrees(providers, index) && k in providers
    ensures TypeIndexAgrees(providers - {k}, RemoveFrom(index, providers[k].providerType, k))
  {
    RemoveFromBucket(index, providers[k].providerType, k);
    forall t
      ensures Bucket(RemoveFrom(index, providers[k].providerType, k), t) == KeysOfType(providers - {k}, t)
    {
      assert Bucket(index, t) == KeysOfType(providers, t);
    }
  }

  /** Partway through adding or removing a provider's models: the first ones listed are done. */
  ghost predicate ModelsPartlyAdded(before: map<string, set<ProviderKey>>, now: map<string, set<ProviderKey>>,
                                    k: ProviderKey, done: seq<string>)
  {
    && NoEmptyBucket(now)
    && forall m {:trigger Bucket(now, m)} ::
       Bucket(now, m) == if m in done then Bucket(before, m) + {k} else Bucket(before, m)
  }

  ghost predicate ModelsPartlyRemoved(before: map<string, set<ProviderKey>>, now: map<string, set<ProviderKey>>,
                                      k: ProviderKey, done: seq<string>)
  {
    && NoEmptyBucket(now)
    && forall m {:trigger Bucket(now, m)} ::
       Bucket(now, m) == if m in done then Bucket(before, m) - {k} else Bucket(before, m)
  }

  lemma ModelsAdded(providers: Providers, before: map<string, set<ProviderKey>>, now: map<string, set<ProviderKey>>,
                    p: Provider)
    requires ModelIndexAgrees(providers, before) && p.Key() !in providers
    requires ModelsPartlyAdded(before, now, p.Key(), p.supportedModels)
    ensures ModelIndexAgrees(providers[p.Key() := p], now)
  {
    forall m
      ensures Bucket(now, m) == KeysWithModel(providers[p.Key() := p], m)
    {
      assert Bucket(before, m) == KeysWithModel(providers, m);
    }
  }

  lemma ModelsRemoved(providers: Providers, before: map<string, set<ProviderKey>>, now: map<string, set<ProviderKey>>,
                      k: ProviderKey)
    requires ModelIndexAgrees(providers, before) && k in providers
    requires ModelsPartlyRemoved(before, now, k, providers[k].supportedModels)
    ensures ModelIndexAgrees(providers - {k}, now)
  {
    forall m
      ensures Bucket(now, m) == KeysWithModel(providers - {k}, m)
    {
      assert Bucket(before, m) == KeysWithModel(providers, m);
    }
  }

  /** Rewriting a provider without changing its type, name or models changes no index. */
  lemma ProviderRewritten(providers: Providers, types: map<string, set<ProviderKey>>,
                          models: map<string, set<ProviderKey>>,
                          k: ProviderKey, p: Provider)
    requires k in providers && p.providerType == providers[k].providerType
              && p.supportedModels == providers[k].supportedModels
    requires TypeIndexAgrees(providers, types) && ModelIndexAgrees(providers, models)
    ensures TypeIndexAgrees(providers[k := p], types) && ModelIndexAgrees(providers[k := p], models)
  {
    forall t
      ensures Bucket(types, t) == KeysOfType(providers[k := p], t)
    {
      assert Bucket(types, t) == KeysOfType(providers, t);
      assert KeysOfType(providers[k := p], t) == KeysOfType(providers, t);
    }
    forall m
      ensures Bucket(models, m) == KeysWithModel(providers[k := p], m)
    {
      assert Bucket(models, m) == KeysWithModel(providers, m);
      assert KeysWithModel(providers[k := p], m) == KeysWithModel(providers, m);
    }
  }

  // ---- Provider counters ----

  /** Counts a provider carries beyond the accounts the store knows about. */
  datatype Base = Base(accounts: nat, available: nat)

  function OwedUnder(owed: Owed, k: ProviderKey): nat {
    owed[(k, true)] + owed[(k, false)]
  }

  /** Every provider with a base counts base + stored accounts + accounts deleted but not yet debited. */
  ghost predicate CountersAgree(accounts: Accounts, providers: Providers, base: map<ProviderKey, Base>, owed: Owed) {
    forall k {:trigger CounterAgrees(accounts, providers, base, owed, k)} :: k in base ==>
      CounterAgrees(accounts, providers, base, owed, k)
  }

  ghost predicate CounterAgrees(accounts: Accounts, providers: Providers, base: map<ProviderKey, Base>, owed: Owed,
                                k: ProviderKey)
    requires k in base
  {
    && k in providers
    && providers[k].accountCount == base[k].accounts + |IdsUnder(accounts, k)| + OwedUnder(owed, k)
    && providers[k].availableAccountCount == base[k].available + |AvailableUnder(accounts, k)| + owed[(k, true)]
  }

  function OneIf(b: bool): int {
    if b then 1 else 0
  }

  lemma CountWithout(accounts: Accounts, id: string, k: ProviderKey)
    requires id in accounts
    ensures |IdsUnder(accounts, k)| == |IdsUnder(accounts - {id}, k)| + OneIf(accounts[id].Key() == k)
    ensures |AvailableUnder(accounts, k)| == |AvailableUnder(accounts - {id}, k)| +
              OneIf(accounts[id].Key() == k && accounts[id].Available())
  {
    var rest, a := accounts - {id}, accounts[id];
    OneMore(IdsUnder(accounts, k), IdsUnder(rest, k), id, a.Key() == k);
    OneMore(AvailableUnder(accounts, k), AvailableUnder(rest, k), id, a.Key() == k && a.Available());
  }

  lemma OneMore(all: set<string>, rest: set<string>, id: string, more: bool)
    requires id !in rest && (id in all <==> more)
    requires forall x :: x != id ==> (x in all <==> x in rest)
    ensures |all| == |rest| + OneIf(more)
  {
    assert all == if more then rest + {id} else rest;
  }

  lemma CountWith(accounts: Accounts, id: string, a: Account, k: ProviderKey)
    requires id !in accounts
    ensures |IdsUnder(accounts[id := a], k)| == |IdsUnder(accounts, k)| + OneIf(a.Key() == k)
    ensures |AvailableUnder(accounts[id := a], k)| == |AvailableUnder(accounts, k)| +
              OneIf(a.Key() == k && a.Available())
  {
    CountWithout(accounts[id := a], id, k);
    assert accounts[id := a] - {id} == accounts;
  }

  lemma CountRewritten(accounts: Accounts, id: string, a: Account, k: ProviderKey)
    requires id in accounts && a.Key() == accounts[id].Key()
    ensures |IdsUnder(accounts[id := a], k)| == |IdsUnder(accounts, k)|
    ensures |AvailableUnder(accounts[id := a], k)| - OneIf(a.Key() == k && a.Available()) ==
            |AvailableUnder(accounts, k)| - OneIf(a.Key() == k && accounts[id].Available())
  {
    CountWithout(accounts[id := a], id, k);
    CountWithout(accounts, id, k);
    assert accounts[id := a] - {id} == accounts - {id};
  }

  function Credit(providers: Providers, k: ProviderKey, available: bool, now: int): Providers {
    if k !in providers then providers
    else providers[k := providers[k].(
      accountCount := providers[k].accountCount + 1,
      availableAccountCount := providers[k].availableAccountCount + OneIf(available),
      updatedAt := now)]
  }

  /** One deleted account off the counters, never below zero. */
  function Debit(providers: Providers, k: ProviderKey, available: bool, now: int): Providers {
    if k !in providers then providers
    else providers[k := providers[k].(
      accountCount := if providers[k].accountCount > 0 then providers[k].accountCount - 1
        else providers[k].accountCount,
      availableAccountCount :=
        if available && providers[k].availableAccountCount > 0 then providers[k].availableAccountCount - 1
        else providers[k].availableAccountCount,
      updatedAt := now)]
  }

  /** A status change moves an account in or out of the available count. */
  function Restatus(providers: Providers, k: ProviderKey, oldStatus: int, newStatus: int, now: int): Providers {
    if oldStatus == newStatus || k !in providers then providers
    else
      var p := providers[k];
      var count := p.availableAccountCount;
      providers[k := p.(
        availableAccountCount :=
          if oldStatus == STATUS_AVAILABLE
              && newStatus != STATUS_AVAILABLE then (if count > 0 then count - 1 else count)
          else if oldStatus != STATUS_AVAILABLE && newStatus == STATUS_AVAILABLE then count + 1
          else count,
        updatedAt := now)]
  }

  lemma CreditAgrees(accounts: Accounts, providers: Providers, base: map<ProviderKey, Base>, owed: Owed, a: Account,
                     now: int)
    requires CountersAgree(accounts, providers, base, owed) && a.id !in accounts
    ensures CountersAgree(accounts[a.id := a], Credit(providers, a.Key(), a.Available(), now), base, owed)
  {
    forall k | k in base
      ensures CounterAgrees(accounts[a.id := a], Credit(providers, a.Key(), a.Available(), now), base, owed, k)
    {
      assert CounterAgrees(accounts, providers, base, owed, k);
      CountWith(accounts, a.id, a, k);
    }
  }

  function OwedFor(a: Account): (ProviderKey, bool) {
    (a.Key(), a.Available())
  }

  /** Taking an account out moves it from stored to owed. */
  lemma DetachAgrees(accounts: Accounts, providers: Providers, base: map<ProviderKey, Base>, owed: Owed, id: string)
    requires CountersAgree(accounts, providers, base, owed) && id in accounts
    ensures CountersAgree(accounts - {id}, providers, base, owed + multiset{OwedFor(accounts[id])})
  {
    forall k | k in base
      ensures CounterAgrees(accounts - {id}, providers, base, owed + multiset{OwedFor(accounts[id])}, k)
    {
      assert CounterAgrees(accounts, providers, base, owed, k);
      CountWithout(accounts, id, k);
    }
  }

  /** The debit finds something to take, so the guards against going below zero change nothing. */
  lemma DebitAgrees(accounts: Accounts, providers: Providers, base: map<ProviderKey, Base>, owed: Owed,
                    o: (ProviderKey, bool), now: int)
    requires CountersAgree(accounts, providers, base, owed) && o in owed
    ensures CountersAgree(accounts, Debit(providers, o.0, o.1, now), base, owed - multiset{o})
    ensures o.0 in base ==>
              o.0 in providers && providers[o.0].accountCount > 0 && (o.1 ==> providers[o.0].availableAccountCount > 0)
  {
    if o.0 in base {
      assert CounterAgrees(accounts, providers, base, owed, o.0);
    }
    forall k | k in base
      ensures CounterAgrees(accounts, Debit(providers, o.0, o.1, now), base, owed - multiset{o}, k)
    {
      assert CounterAgrees(accounts, providers, base, owed, k);
    }
  }

  lemma RestatusAgrees(accounts: Accounts, providers: Providers, base: map<ProviderKey, Base>, owed: Owed, id: string,
                       a: Account, now: int)
    requires CountersAgree(accounts, providers, base, owed) && id in accounts && a.Key() == accounts[id].Key()
    ensures CountersAgree(accounts[id := a], Restatus(providers, a.Key(), accounts[id].status, a.status, now), base,
              owed)
    ensures a.Key() in base && accounts[id].Available() ==>
              a.Key() in providers && providers[a.Key()].availableAccountCount > 0
  {
    if a.Key() in base {
      assert CounterAgrees(accounts, providers, base, owed, a.Key());
      CountWithout(accounts, id, a.Key());
    }
    forall k | k in base
      ensures CounterAgrees(accounts[id := a], Restatus(providers, a.Key(), accounts[id].status, a.status, now), base,
                owed, k)
    {
      assert CounterAgrees(accounts, providers, base, owed, k);
      CountRewritten(accounts, id, a, k);
    }
  }

  /** A provider written with counts at least covering its accounts has a base; one written with less has none. */
  function Rebase(base: map<ProviderKey, Base>, accounts: Accounts, owed: Owed, p: Provider): map<ProviderKey, Base> {
    var a := p.accountCount - |IdsUnder(accounts, p.Key())| - OwedUnder(owed, p.Key());
    var v := p.availableAccountCount - |AvailableUnder(accounts, p.Key())| - owed[(p.Key(), true)];
    if a >= 0 && v >= 0 then base[p.Key() := Base(a, v)] else base - {p.Key()}
  }

  lemma RebaseAgrees(accounts: Accounts, providers: Providers, base: map<ProviderKey, Base>, owed: Owed, p: Provider)
    requires CountersAgree(accounts, providers, base, owed)
    ensures CountersAgree(accounts, providers[p.Key() := p], Rebase(base, accounts, owed, p), owed)
  {
    var base' := Rebase(base, accounts, owed, p);
    forall k | k in base'
      ensures CounterAgrees(accounts, providers[p.Key() := p], base', owed, k)
    {
      if k != p.Key() {
        assert CounterAgrees(accounts, providers, base, owed, k);
      }
    }
  }

  /** A provider added while the store knows no account under its key starts from the counts it brings. */
  lemma RebaseFresh(accounts: Accounts, base: map<ProviderKey, Base>, owed: Owed, p: Provider)
    requires IdsUnder(accounts, p.Key()) == {} && OwedUnder(owed, p.Key()) == 0
    requires p.accountCount >= 0 && p.availableAccountCount >= 0
    ensures Rebase(base, accounts, owed, p) == base[p.Key() := Base(p.accountCount, p.availableAccountCount)]
  {
    assert AvailableUnder(accounts, p.Key()) <= IdsUnder(accounts, p.Key());
  }

  /** A replacement that carries the current counts leaves the base as it is. */
  lemma RebaseCurrent(accounts: Accounts, providers: Providers, base: map<ProviderKey, Base>, owed: Owed, p: Provider)
    requires CountersAgree(accounts, providers, base, owed) && p.Key() in base
    requires p.Key() in providers
    requires p.accountCount == providers[p.Key()].accountCount
              && p.availableAccountCount == providers[p.Key()].availableAccountCount
    ensures Rebase(base, accounts, owed, p) == base
  {
    assert CounterAgrees(accounts, providers, base, owed, p.Key());
  }

  /** Removing the provider and all its accounts disturbs no other counter. */
  lemma CascadeAgrees(accounts: Accounts, accounts': Accounts, providers: Providers, base: map<ProviderKey, Base>,
                      owed: Owed, gone: ProviderKey)
    requires CountersAgree(accounts, providers, base, owed)
    requires forall k {:trigger IdsUnder(accounts', k)} :: k != gone ==> IdsUnder(accounts', k) == IdsUnder(accounts, k)
    requires forall id :: id in accounts' ==> id in accounts && accounts'[id] == accounts[id]
    ensures CountersAgree(accounts', providers - {gone}, base - {gone}, owed)
  {
    forall k | k in base - {gone}
      ensures CounterAgrees(accounts', providers - {gone}, base - {gone}, owed, k)
    {
      assert CounterAgrees(accounts, providers, base, owed, k);
      assert IdsUnder(accounts', k) == IdsUnder(accounts, k);
      forall id | id in AvailableUnder(accounts, k)
        ensures id in AvailableUnder(accounts', k)
      {
        assert id in IdsUnder(accounts, k);
      }
      assert AvailableUnder(accounts', k) == AvailableUnder(accounts, k);
    }
  }
}
