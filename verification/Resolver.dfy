/** Which providers and accounts are offered for selection, read from the store. */
module Resolver {
  import opened Prelude
  import opened Entities
  import opened FilterTree
  import opened StoreRelations
  import opened MemoryStore

  datatype ResolveError = ProviderNotFound | ProviderInactive | ModelNotSupported | NoAccount | StorageFailure

  type Tags = map<string, string>

  predicate MatchTags(has: Tags, required: Tags) {
    forall k :: k in required ==> k in has && has[k] == required[k]
  }

  /** Every required pair of key and value is among the account's. */
  lemma TagsMatchIff(has: Tags, required: Tags)
    ensures MatchTags(has, required) <==> required.Items <= has.Items
  {
    if required.Items <= has.Items {
      forall k | k in required
        ensures k in has && has[k] == required[k]
      {
        assert (k, required[k]) in required.Items;
      }
    }
  }

  /** A provider that may be chosen for a model, within a type when one is given. */
  predicate Offered(p: Provider, model: string, providerType: string) {
    && p.IsActive()
    && (model == "" || p.SupportsModel(model))
    && (providerType == "" || p.providerType == providerType)
    && p.accountCount > 0 && p.availableAccountCount > 0
  }

  /** An account that may be chosen under a provider key. */
  predicate Eligible(a: Account, key: ProviderKey, tags: Tags) {
    && (key.kind == "" || a.providerType == key.kind)
    && (key.name == "" || a.providerName == key.name)
    && a.Available() && MatchTags(a.tags, tags)
  }

  /** The answer for one provider: the first check that fails decides the error. */
  function ProviderAnswer(providers: Providers, key: ProviderKey, model: string): Result<Provider, ResolveError> {
    if key !in providers then Failure(ProviderNotFound)
    else
      var p := providers[key];
      if !p.IsActive() then Failure(ProviderInactive)
      else if !p.SupportsModel(model) then Failure(ModelNotSupported)
      else if p.accountCount <= 0 || p.availableAccountCount <= 0 then Failure(NoAccount)
      else Success(p)
  }

  /** The offered providers, each once, in some order. */
  ghost predicate ListsOffered(found: seq<Provider>, providers: Providers, model: string, providerType: string) {
    && (forall i, j :: 0 <= i < j < |found| ==> found[i].Key() != found[j].Key())
    && (forall p :: p in found <==> p.Key() in providers && providers[p.Key()] == p && Offered(p, model, providerType))
  }

  /** The eligible accounts outside excluded, each once, in some order. */
  ghost predicate ListsEligible(found: seq<Account>, accounts: Accounts, key: ProviderKey, tags: Tags,
                                excluded: set<string>)
  {
    && (forall i, j :: 0 <= i < j < |found| ==> found[i].id != found[j].id)
    && (forall a :: a in found <==>
       a.id in accounts && accounts[a.id] == a && Eligible(a, key, tags) && a.id !in excluded)
  }

  function KeepAccounts(accounts: seq<Account>, keep: Account -> bool): seq<Account> {
    if accounts == [] then []
    else
      KeepAccounts(accounts[..|accounts| - 1], keep) +
      (if keep(accounts[|accounts| - 1]) then [accounts[|accounts| - 1]] else [])
  }

  ghost predicate DistinctIDs(accounts: seq<Account>) {
    forall i, j :: 0 <= i < j < |accounts| ==> accounts[i].id != accounts[j].id
  }

  lemma {:induction false} KeepAccountsMembers(accounts: seq<Account>, keep: Account -> bool)
    ensures forall a :: a in KeepAccounts(accounts, keep) <==> a in accounts && keep(a)
    ensures DistinctIDs(accounts) ==> DistinctIDs(KeepAccounts(accounts, keep))
  {
    if accounts != [] {
      var rest, last := accounts[..|accounts| - 1], accounts[|accounts| - 1];
      KeepAccountsMembers(rest, keep);
      assert accounts == rest + [last];
      if DistinctIDs(accounts) {
        forall a | a in KeepAccounts(rest, keep)
          ensures a.id != last.id
        {
          assert a in rest;
        }
      }
    }
  }

  class StorageResolver {
    const store: Store

    constructor (store: Store)
      ensures this.store == store
    {
      this.store := store;
    }

    method ResolveProvider(key: ProviderKey, model: string) returns (r: Result<Provider, ResolveError>)
      ensures r == ProviderAnswer(store.providers, key, model)
      ensures r == Failure(ProviderNotFound) <==> key !in store.providers
      ensures key in store.providers ==>
                var p := store.providers[key];
                && (r == Failure(ProviderInactive) <==> p.status != PROVIDER_ACTIVE && p.status != PROVIDER_DEGRADED)
                && (r == Failure(ModelNotSupported) ==> model !in p.supportedModels)
                && (r == Failure(NoAccount) ==> p.accountCount <= 0 || p.availableAccountCount <= 0)
                && (r.Success? ==> r.value == p)
                && (r.Success? <==>
                      && p.status in {PROVIDER_ACTIVE, PROVIDER_DEGRADED} && model in p.supportedModels
                      && p.accountCount > 0 && p.availableAccountCount > 0)
    {
      var got := store.GetProvider(key);
      if got.Failure? {
        return Failure(ProviderNotFound);
      }
      var p := got.value;
      if !p.IsActive() {
        return Failure(ProviderInactive);
      }
      if !p.SupportsModel(model) {
        return Failure(ModelNotSupported);
      }
      if p.accountCount <= 0 || p.availableAccountCount <= 0 {
        return Failure(NoAccount);
      }
      return Success(p);
    }

    /** Active and degraded providers alike, found through the model index. */
    method ResolveProviders(model: string, providerType: string) returns (active: seq<Provider>)
      requires store.Valid()
      ensures ListsOffered(active, store.providers, model, providerType)
      ensures forall k :: k in store.providers ==>
                var p := store.providers[k];
                (p in active <==>
                   && p.status in {PROVIDER_ACTIVE, PROVIDER_DEGRADED}
                   && (model == "" || model in p.supportedModels)
                   && (providerType == "" || p.providerType == providerType)
                   && p.accountCount > 0 && p.availableAccountCount > 0)
    {
      var filter := ANY.(providerType := providerType, supportedModel := model);
      var candidates := store.SearchProviders(filter, _ => true);
      active := [];
      for i := 0 to |candidates|
        invariant forall p :: p in active <==> p in candidates[..i] && Offered(p, model, providerType)
        invariant forall m, n :: 0 <= m < n < |active| ==> active[m].Key() != active[n].Key()
      {
        var p := candidates[i];
        assert candidates[..i + 1] == candidates[..i] + [p];
        assert p in candidates;
        if !p.IsActive() {
          continue;
        }
        if p.accountCount > 0 && p.availableAccountCount > 0 {
          forall m | 0 <= m < |active|
            ensures active[m].Key() != p.Key()
          {
            assert active[m] in candidates[..i];
          }
          active := active + [p];
        }
      }
      assert candidates[..|candidates|] == candidates;
    }

    method ResolveAccounts(key: ProviderKey, tags: Tags, excludeIDs: seq<string>) returns (found: seq<Account>)
      requires store.Valid()
      ensures ListsEligible(found, store.accounts, key, tags, Elements(excludeIDs))
      ensures forall id :: id in store.accounts ==>
                var a := store.accounts[id];
                (a in found <==>
                   && (key.kind == "" || a.providerType == key.kind)
                   && (key.name == "" || a.providerName == key.name)
                   && a.status == STATUS_AVAILABLE && tags.Items <= a.tags.Items && id !in excludeIDs)
    {
      hide AccountIndexAgrees, TypeIndexAgrees, ModelIndexAgrees, CountersAgree, Matches, MemoryConvertible,
        KeepAccounts;
      var filter := ANY.(providerType := key.kind, providerName := key.name, status := STATUS_AVAILABLE);
      var r := store.SearchAccounts(filter);
      found := r.value;
      assert DistinctIDs(found);
      assert forall a :: a in found <==> a.id in store.accounts && store.accounts[a.id] == a && Selects(filter, a);
      if |excludeIDs| > 0 {
        var excluded := Elements(excludeIDs);
        found := FilterAccounts(found, (a: Account) => a.id !in excluded);
      }
      if |tags| > 0 {
        found := FilterAccounts(found, (a: Account) => MatchTags(a.tags, tags));
      }
      ListedAsEligible(found, store.accounts, key, tags, Elements(excludeIDs));
    }
  }

  /** What being listed says of an account, field by field. */
  lemma ListedAsEligible(found: seq<Account>, accounts: Accounts, key: ProviderKey, tags: Tags, excluded: set<string>)
    requires ListsEligible(found, accounts, key, tags, excluded)
    requires forall id :: id in accounts ==> accounts[id].id == id
    ensures forall id :: id in accounts ==>
              var a := accounts[id];
              (a in found <==>
                 && (key.kind == "" || a.providerType == key.kind)
                 && (key.name == "" || a.providerName == key.name)
                 && a.status == STATUS_AVAILABLE && tags.Items <= a.tags.Items && id !in excluded)
  {
    forall id | id in accounts
      ensures MatchTags(accounts[id].tags, tags) <==> tags.Items <= accounts[id].tags.Items
    {
      TagsMatchIff(accounts[id].tags, tags);
    }
  }

  /** Keeps the accounts that pass, in order. */
  method FilterAccounts(accounts: seq<Account>, keep: Account -> bool) returns (kept: seq<Account>)
    ensures kept == KeepAccounts(accounts, keep)
    ensures forall a :: a in kept <==> a in accounts && keep(a)
    ensures DistinctIDs(accounts) ==> DistinctIDs(kept)
  {
    kept := [];
    for i := 0 to |accounts|
      invariant kept == KeepAccounts(accounts[..i], keep)
    {
      assert accounts[..i + 1][..i] == accounts[..i];
      if keep(accounts[i]) {
        kept := kept + [accounts[i]];
      }
    }
    assert accounts[..|accounts|] == accounts;
    KeepAccountsMembers(accounts, keep);
  }
}
