/** The in-memory store: accounts, providers, their indexes and counters, statistics and tracked usage. */
module MemoryStore {
  import opened Prelude
  import opened Entities
  import opened FilterTree
  import opened Buckets
  import opened StoreRelations
  import opened StatsRecord
  import opened UsageRecord
  import MemoryFilter

  datatype StoreError = NotFound | AlreadyExists | VersionConflict | BadIndex | BadCondition(reason: string)

  datatype UpdateField = FieldCredential | FieldStatus | FieldPriority | FieldTags | FieldMetadata | FieldUsageRules

  /** What a new account is stored as: its version starts at 1 whatever it carried. */
  function Stored(a: Account, now: int): Account {
    a.(createdAt := if a.createdAt == ZERO_TIME then now else a.createdAt, updatedAt := now, version := 1)
  }

  function StoredProvider(info: Provider, now: int): Provider {
    info.(createdAt := if info.createdAt == ZERO_TIME then now else info.createdAt, updatedAt := now)
  }

  /** The named fields taken from the update, everything else kept, one version later. */
  function Updated(prev: Account, a: Account, fields: set<UpdateField>, now: int): Account {
    prev.(
      credential := if FieldCredential in fields then a.credential else prev.credential,
      status := if FieldStatus in fields then a.status else prev.status,
      cooldownUntil := if FieldStatus in fields then a.cooldownUntil else prev.cooldownUntil,
      circuitOpenUntil := if FieldStatus in fields then a.circuitOpenUntil else prev.circuitOpenUntil,
      priority := if FieldPriority in fields then a.priority else prev.priority,
      tags := if FieldTags in fields then a.tags else prev.tags,
      metadata := if FieldMetadata in fields then a.metadata else prev.metadata,
      usageRules := if FieldUsageRules in fields then a.usageRules else prev.usageRules,
      updatedAt := now,
      version := prev.version + 1)
  }

  /** What is stored of a new account: all it brings but the times and the version, which starts at 1. */
  lemma StoredMeans(a: Account, now: int)
    ensures var s := Stored(a, now);
            && s == a.(createdAt := s.createdAt, updatedAt := s.updatedAt, version := s.version)
            && s.version == 1 && s.updatedAt == now
            && (a.createdAt == ZERO_TIME ==> s.createdAt == now)
            && (a.createdAt != ZERO_TIME ==> s.createdAt == a.createdAt)
  {}

  lemma StoredProviderMeans(info: Provider, now: int)
    ensures var s := StoredProvider(info, now);
            && s == info.(createdAt := s.createdAt, updatedAt := s.updatedAt)
            && s.updatedAt == now
            && (info.createdAt == ZERO_TIME ==> s.createdAt == now)
            && (info.createdAt != ZERO_TIME ==> s.createdAt == info.createdAt)
  {}

  /** A field is taken from the update exactly when it is named; the status brings its two times along. */
  lemma UpdateWritesNamed(prev: Account, a: Account, fields: set<UpdateField>, now: int)
    ensures var u := Updated(prev, a, fields, now);
            && u.Key() == prev.Key() && u.id == prev.id && u.createdAt == prev.createdAt
            && u.updatedAt == now && u.version == prev.version + 1
            && u.credential == (if FieldCredential in fields then a else prev).credential
            && u.priority == (if FieldPriority in fields then a else prev).priority
            && u.tags == (if FieldTags in fields then a else prev).tags
            && u.metadata == (if FieldMetadata in fields then a else prev).metadata
            && u.usageRules == (if FieldUsageRules in fields then a else prev).usageRules
            && var from := if FieldStatus in fields then a else prev;
               u.status == from.status && u.cooldownUntil == from.cooldownUntil
               && u.circuitOpenUntil == from.circuitOpenUntil
  {}

  /** Two updates in a row are one update that names the fields of both, when they bring the same values. */
  lemma UpdatesCompose(prev: Account, a: Account, first: set<UpdateField>, second: set<UpdateField>, t1: int, t2: int)
    ensures Updated(Updated(prev, a, first, t1), a, second, t2) ==
            Updated(prev, a, first + second, t2).(version := prev.version + 2)
  {}

  predicate Convertible(f: Filter) {
    f.NilFilter? || MemoryConvertible(f)
  }

  /** The accounts a filter selects, each once, in some order. */
  ghost predicate Enumerates(found: seq<Account>, accounts: Accounts, filter: SearchFilter)
    requires Convertible(filter.extraCond)
  {
    && (forall i, j :: 0 <= i < j < |found| ==> found[i].id != found[j].id)
    && (forall a :: a in found ==> a.id in accounts && accounts[a.id] == a && Selects(filter, a))
    && (forall id :: id in accounts && Selects(filter, accounts[id]) ==> accounts[id] in found)
  }

  predicate MatchesProvider(p: Provider, filter: SearchFilter) {
    && (filter.providerType == "" || p.providerType == filter.providerType)
    && (filter.providerName == "" || p.providerName == filter.providerName)
    && (filter.status == 0 || p.status == filter.status)
  }

  predicate SelectsProvider(p: Provider, filter: SearchFilter, filterFn: Provider -> bool) {
    MatchesProvider(p, filter) && (filter.supportedModel == "" || p.SupportsModel(filter.supportedModel)) && filterFn(p)
  }

  ghost predicate EnumeratesProviders(found: seq<Provider>, providers: Providers, filter: SearchFilter,
                                      filterFn: Provider -> bool)
  {
    && (forall i, j :: 0 <= i < j < |found| ==> found[i].Key() != found[j].Key())
    && (forall p :: p in found ==>
       p.Key() in providers && providers[p.Key()] == p && SelectsProvider(p, filter, filterFn))
    && (forall k :: k in providers && SelectsProvider(providers[k], filter, filterFn) ==> providers[k] in found)
  }

  function IdsOf(found: seq<Account>): set<string> {
    set a | a in found :: a.id
  }

  function OwedForAll(removed: seq<Account>): Owed {
    if removed == [] then multiset{}
    else OwedForAll(removed[..|removed| - 1]) + multiset{OwedFor(removed[|removed| - 1])}
  }

  function DebitAll(providers: Providers, removed: seq<Account>, now: int): Providers {
    if removed == [] then providers
    else
      var last := removed[|removed| - 1];
      Debit(DebitAll(providers, removed[..|removed| - 1], now), last.Key(), last.Available(), now)
  }

  class Store {
    var accounts: Accounts
    var acctProviderIndex: map<ProviderKey, set<string>>
    var providers: Providers
    var provTypeIndex: map<string, set<ProviderKey>>
    var provModelIndex: map<string, set<ProviderKey>>
    var statsStore: map<string, AccountStats>
    var usageStore: map<string, seq<TrackedUsage>>

    ghost var base: map<ProviderKey, Base>
    ghost var owed: Owed

    /** Indexes are what a full scan would compute, and counters what a full count would. */
    ghost predicate Valid()
      reads this
    {
      && Keyed(accounts, providers)
      && AccountIndexAgrees(accounts, acctProviderIndex)
      && TypeIndexAgrees(providers, provTypeIndex)
      && ModelIndexAgrees(providers, provModelIndex)
      && CountersAgree(accounts, providers, base, owed)
    }

    constructor ()
      ensures Valid() && accounts == map[] && providers == map[] && base == map[] && owed == multiset{}
      ensures statsStore == map[] && usageStore == map[]
    {
      accounts, acctProviderIndex := map[], map[];
      providers, provTypeIndex, provModelIndex := map[], map[], map[];
      statsStore, usageStore := map[], map[];
      base, owed := map[], multiset{};
    }

    // ---- Accounts ----

    method GetAccount(id: string) returns (r: Result<Account, StoreError>)
      ensures r == if id in accounts then Success(accounts[id]) else Failure(NotFound)
    {
      if id !in accounts {
        return Failure(NotFound);
      }
      return Success(accounts[id]);
    }

    /** Both the indexed path and the full scan return exactly the selected accounts. */
    method SearchAccounts(filter: SearchFilter) returns (r: Result<seq<Account>, StoreError>)
      requires Valid()
      ensures r.Success? <==> Convertible(filter.extraCond)
      ensures r.Success? ==> Enumerates(r.value, accounts, filter)
    {
      var conv := MemoryFilter.Convert(filter.extraCond);
      if conv.Failure? {
        return Failure(BadCondition(conv.error));
      }
      var filterFn := conv.value;
      var ids := accounts.Keys;
      if filter.providerType != "" && filter.providerName != "" {
        var key := ProviderKey(filter.providerType, filter.providerName);
        assert Bucket(acctProviderIndex, key) == IdsUnder(accounts, key);
        assert forall id :: id in accounts && Selects(filter, accounts[id]) ==> id in IdsUnder(accounts, key);
        if key !in acctProviderIndex {
          return Success([]);
        }
        ids := acctProviderIndex[key];
      }
      var found := Scan(ids, filter, filterFn);
      return Success(found);
    }

    method Scan(ids: set<string>, filter: SearchFilter, filterFn: MemoryFilter.AccountPredicate)
      returns (found: seq<Account>)
      requires Keyed(accounts, providers) && Convertible(filter.extraCond)
      requires forall a :: filterFn(a) == (filter.extraCond.NilFilter? || Matches(filter.extraCond, a))
      requires forall id :: id in accounts && Selects(filter, accounts[id]) ==> id in ids
      ensures Enumerates(found, accounts, filter)
    {
      found := [];
      var remaining := ids;
      while remaining != {}
        invariant remaining <= ids
        invariant forall i, j :: 0 <= i < j < |found| ==> found[i].id != found[j].id
        invariant forall a :: a in found ==>
                  a.id !in remaining && a.id in accounts && accounts[a.id] == a && Selects(filter, a)
        invariant forall id :: id in accounts && Selects(filter, accounts[id]) && id !in remaining ==>
                  accounts[id] in found
        decreases |remaining|
      {
        var id :| id in remaining;
        remaining := remaining - {id};
        if id in accounts && MatchesFirstLevel(accounts[id], filter) && filterFn(accounts[id]) {
          assert forall i :: 0 <= i < |found| ==> found[i] in found;
          found := found + [accounts[id]];
        }
      }
    }

    method AddAccount(a: Account, now: int) returns (err: Option<StoreError>)
      requires Valid()
      modifies this`accounts, this`acctProviderIndex, this`providers
      ensures Valid()
      ensures a.id in old(accounts) ==>
                err == Some(AlreadyExists) && accounts == old(accounts) && providers == old(providers)
      ensures a.id !in old(accounts) ==>
                && err.None?
                && accounts == old(accounts)[a.id := Stored(a, now)]
                && providers == Credit(old(providers), a.Key(), a.Available(), now)
    {
      hide AccountIndexAgrees, TypeIndexAgrees, ModelIndexAgrees, CountersAgree;
      if a.id in accounts {
        return Some(AlreadyExists);
      }
      var stored := Stored(a, now);
      AccountAdded(accounts, acctProviderIndex, stored);
      CreditAgrees(accounts, providers, base, owed, stored, now);
      accounts := accounts[a.id := stored];
      acctProviderIndex := AddTo(acctProviderIndex, stored.Key(), stored.id);
      var key := stored.Key();
      if key in providers {
        var p := providers[key];
        p := p.(accountCount := p.accountCount + 1);
        if stored.status == STATUS_AVAILABLE {
          p := p.(availableAccountCount := p.availableAccountCount + 1);
        }
        ProviderRewritten(providers, provTypeIndex, provModelIndex, key, p.(updatedAt := now));
        providers := providers[key := p.(updatedAt := now)];
      }
      return None;
    }

    /** Commits only against the version the caller read; then every field it names and no other changes. */
    method UpdateAccount(a: Account, fields: set<UpdateField>, now: int) returns (err: Option<StoreError>)
      requires Valid()
      modifies this`accounts, this`providers
      ensures Valid()
      ensures a.id !in old(accounts) ==> err == Some(NotFound)
      ensures a.id in old(accounts) && old(accounts)[a.id].version != a.version ==> err == Some(VersionConflict)
      ensures err.Some? ==> accounts == old(accounts) && providers == old(providers)
      ensures a.id in old(accounts) && old(accounts)[a.id].version == a.version ==>
                var before := old(accounts)[a.id];
                var after := Updated(before, a, fields, now);
                && err.None?
                && accounts == old(accounts)[a.id := after]
                && providers == Restatus(old(providers), before.Key(), before.status, after.status, now)
    {
      hide AccountIndexAgrees, TypeIndexAgrees, ModelIndexAgrees, CountersAgree;
      if a.id !in accounts {
        return Some(NotFound);
      }
      var before := accounts[a.id];
      if before.version != a.version {
        return Some(VersionConflict);
      }
      var after := CopyFields(before, a, fields, now);
      AccountRewritten(accounts, acctProviderIndex, a.id, after);
      RestatusAgrees(accounts, providers, base, owed, a.id, after, now);
      accounts := accounts[a.id := after];
      if FieldStatus in fields && before.status != after.status {
        MoveAvailable(before, after, now);
      }
      return None;
    }

    /** The stored account with the named fields taken from the update. */
    method CopyFields(before: Account, a: Account, fields: set<UpdateField>, now: int) returns (after: Account)
      ensures after == Updated(before, a, fields, now)
    {
      after := before;
      if FieldCredential in fields {
        after := after.(credential := a.credential);
      }
      if FieldStatus in fields {
        after := after.(status := a.status, cooldownUntil := a.cooldownUntil, circuitOpenUntil := a.circuitOpenUntil);
      }
      if FieldPriority in fields {
        after := after.(priority := a.priority);
      }
      if FieldTags in fields {
        after := after.(tags := a.tags);
      }
      if FieldMetadata in fields {
        after := after.(metadata := a.metadata);
      }
      if FieldUsageRules in fields {
        after := after.(usageRules := a.usageRules);
      }
      after := after.(updatedAt := now, version := before.version + 1);
    }

    method MoveAvailable(before: Account, after: Account, now: int)
      requires before.Key() == after.Key() && before.status != after.status
      requires TypeIndexAgrees(providers, provTypeIndex) && ModelIndexAgrees(providers, provModelIndex)
      requires Keyed(accounts, providers)
      modifies this`providers
      ensures providers == Restatus(old(providers), before.Key(), before.status, after.status, now)
      ensures TypeIndexAgrees(providers, provTypeIndex) && ModelIndexAgrees(providers, provModelIndex)
      ensures Keyed(accounts, providers)
    {
      var key := after.Key();
      if key in providers {
        var p := providers[key];
        if before.status == STATUS_AVAILABLE && after.status != STATUS_AVAILABLE {
          if p.availableAccountCount > 0 {
            p := p.(availableAccountCount := p.availableAccountCount - 1);
          }
        } else if before.status != STATUS_AVAILABLE && after.status == STATUS_AVAILABLE {
          p := p.(availableAccountCount := p.availableAccountCount + 1);
        }
        ProviderRewritten(providers, provTypeIndex, provModelIndex, key, p.(updatedAt := now));
        providers := providers[key := p.(updatedAt := now)];
      }
    }

    /** Takes an account out of the map and its index; its provider is not debited yet. */
    method Detach(id: string)
      requires Valid() && id in accounts
      modifies this`accounts, this`acctProviderIndex, this`owed
      ensures Valid()
      ensures accounts == old(accounts) - {id}
      ensures owed == old(owed) + multiset{OwedFor(old(accounts)[id])}
    {
      AccountRemoved(accounts, acctProviderIndex, id);
      DetachAgrees(accounts, providers, base, owed, id);
      owed := owed + multiset{OwedFor(accounts[id])};
      acctProviderIndex := RemoveFrom(acctProviderIndex, accounts[id].Key(), id);
      accounts := accounts - {id};
    }

    /** The debit that is owed for a removed account. */
    method DebitOne(a: Account, now: int)
      requires Valid() && OwedFor(a) in owed
      modifies this`providers, this`owed
      ensures Valid()
      ensures providers == Debit(old(providers), a.Key(), a.Available(), now)
      ensures owed == old(owed) - multiset{OwedFor(a)}
    {
      hide AccountIndexAgrees, TypeIndexAgrees, ModelIndexAgrees, CountersAgree;
      var key := a.Key();
      DebitAgrees(accounts, providers, base, owed, OwedFor(a), now);
      owed := owed - multiset{OwedFor(a)};
      if key in providers {
        var p := providers[key];
        if p.accountCount > 0 {
          p := p.(accountCount := p.accountCount - 1);
        }
        if a.status == STATUS_AVAILABLE && p.availableAccountCount > 0 {
          p := p.(availableAccountCount := p.availableAccountCount - 1);
        }
        ProviderRewritten(providers, provTypeIndex, provModelIndex, key, p.(updatedAt := now));
        providers := providers[key := p.(updatedAt := now)];
      }
    }

    method RemoveAccount(id: string, now: int) returns (err: Option<StoreError>)
      requires Valid()
      modifies this`accounts, this`acctProviderIndex, this`providers, this`owed, this`statsStore, this`usageStore
      ensures Valid() && owed == old(owed)
      ensures id !in old(accounts) ==>
                && err == Some(NotFound) && accounts == old(accounts) && providers == old(providers)
                && statsStore == old(statsStore) && usageStore == old(usageStore)
      ensures id in old(accounts) ==>
                var a := old(accounts)[id];
                && err.None?
                && accounts == old(accounts) - {id}
                && providers == Debit(old(providers), a.Key(), a.Available(), now)
                && statsStore == old(statsStore) - {id}
                && usageStore == old(usageStore) - {id}
    {
      hide AccountIndexAgrees, TypeIndexAgrees, ModelIndexAgrees, CountersAgree;
      if id !in accounts {
        return Some(NotFound);
      }
      var a := accounts[id];
      Detach(id);
      DebitOne(a, now);
      statsStore := statsStore - {id};
      usageStore := usageStore - {id};
      return None;
    }

    /** First half of a batch removal: the selected accounts leave the map and the index. */
    method DetachSelected(filter: SearchFilter, filterFn: MemoryFilter.AccountPredicate) returns (removed: seq<Account>)
      requires Valid() && Convertible(filter.extraCond)
      requires forall a :: filterFn(a) == (filter.extraCond.NilFilter? || Matches(filter.extraCond, a))
      modifies this`accounts, this`acctProviderIndex, this`owed
      ensures Valid()
      ensures Enumerates(removed, old(accounts), filter)
      ensures accounts == old(accounts) - IdsOf(removed)
      ensures owed == old(owed) + OwedForAll(removed)
    {
      removed := Scan(accounts.Keys, filter, filterFn);
      hide Enumerates, Selects, OwedForAll, OwedFor, Without, IdsOf;
      hide Keyed, AccountIndexAgrees, TypeIndexAgrees, ModelIndexAgrees, CountersAgree;
      NothingRemoved(removed);
      MinusNone(accounts);
      for i := 0 to |removed|
        invariant Valid()
        invariant accounts == Without(old(accounts), IdsOf(removed[..i]))
        invariant owed == old(owed) + OwedForAll(removed[..i])
      {
        RemovedNext(removed, i, old(accounts), filter);
        MinusMore(old(accounts), IdsOf(removed[..i]), removed[i].id);
        StillThere(old(accounts), IdsOf(removed[..i]), removed[i].id);
        Detach(removed[i].id);
      }
      assert removed[..|removed|] == removed;
      MinusAll(old(accounts), IdsOf(removed));
    }

    /** Second half: every removed account comes off its provider's counters. */
    method DebitRemoved(removed: seq<Account>, now: int)
      requires Valid() && OwedForAll(removed) <= owed
      modifies this`providers, this`owed
      ensures Valid()
      ensures providers == DebitAll(old(providers), removed, now)
      ensures owed == old(owed) - OwedForAll(removed)
    {
      assert OwedForAll(removed[..0]) == multiset{};
      hide OwedForAll, OwedFor, Debit;
      for i := 0 to |removed|
        invariant Valid()
        invariant providers == DebitAll(old(providers), removed[..i], now)
        invariant owed == old(owed) - OwedForAll(removed[..i])
      {
        DebitNext(old(providers), removed, i, now);
        OwedPrefix(removed, i);
        MultisetStep(old(owed), OwedForAll(removed[..i]), OwedForAll(removed), OwedFor(removed[i]));
        DebitOne(removed[i], now);
      }
      assert removed[..|removed|] == removed;
    }

    /** A batch removal with nothing in between its two halves. */
    method RemoveAccounts(filter: SearchFilter, now: int) returns (err: Option<StoreError>, ghost removed: seq<Account>)
      requires Valid()
      modifies this`accounts, this`acctProviderIndex, this`providers, this`owed, this`statsStore, this`usageStore
      ensures Valid() && owed == old(owed)
      ensures err.None? <==> Convertible(filter.extraCond)
      ensures err.Some? ==>
                && accounts == old(accounts) && providers == old(providers)
                && statsStore == old(statsStore) && usageStore == old(usageStore)
      ensures err.None? ==>
                && Enumerates(removed, old(accounts), filter)
                && var ids := IdsOf(removed);
                   && accounts == old(accounts) - ids
                   && providers == DebitAll(old(providers), removed, now)
                   && statsStore == old(statsStore) - ids
                   && usageStore == old(usageStore) - ids
    {
      hide Enumerates, OwedForAll, DebitAll, MemoryConvertible, Matches;
      removed := [];
      var conv := MemoryFilter.Convert(filter.extraCond);
      if conv.Failure? {
        return Some(BadCondition(conv.error)), removed;
      }
      var toRemove := DetachSelected(filter, conv.value);
      removed := toRemove;
      DebitRemoved(toRemove, now);
      var ids := IdsOf(toRemove);
      statsStore := statsStore - ids;
      usageStore := usageStore - ids;
      return None, removed;
    }

    // ---- Providers ----

    method GetProvider(key: ProviderKey) returns (r: Result<Provider, StoreError>)
      ensures r == if key in providers then Success(providers[key]) else Failure(NotFound)
    {
      if key !in providers {
        return Failure(NotFound);
      }
      return Success(providers[key]);
    }

    /** With a model named, only the model index is looked at; the answer is that of a full scan. */
    method SearchProviders(filter: SearchFilter, filterFn: Provider -> bool) returns (found: seq<Provider>)
      requires Valid()
      ensures EnumeratesProviders(found, providers, filter, filterFn)
      ensures forall k :: k in providers ==>
                var p := providers[k];
                (p in found <==>
                   && filter.providerType in {"", p.providerType} && filter.providerName in {"", p.providerName}
                   && filter.status in {0, p.status}
                   && (filter.supportedModel == "" || filter.supportedModel in p.supportedModels) && filterFn(p))
    {
      var candidates := providers.Keys;
      if filter.supportedModel != "" {
        assert Bucket(provModelIndex, filter.supportedModel) == KeysWithModel(providers, filter.supportedModel);
        assert forall k :: k in providers && SelectsProvider(providers[k], filter, filterFn) ==>
               k in KeysWithModel(providers, filter.supportedModel);
        if filter.supportedModel !in provModelIndex {
          return [];
        }
        candidates := provModelIndex[filter.supportedModel];
      }
      found := ScanProviders(candidates, filter, filterFn);
    }

    method ScanProviders(candidates: set<ProviderKey>, filter: SearchFilter, filterFn: Provider -> bool)
      returns (found: seq<Provider>)
      requires Keyed(accounts, providers) && candidates <= providers.Keys
      requires forall k :: k in candidates ==>
                filter.supportedModel == "" || providers[k].SupportsModel(filter.supportedModel)
      requires forall k :: k in providers && SelectsProvider(providers[k], filter, filterFn) ==> k in candidates
      ensures EnumeratesProviders(found, providers, filter, filterFn)
    {
      found := [];
      var remaining := candidates;
      while remaining != {}
        invariant remaining <= candidates
        invariant forall i, j :: 0 <= i < j < |found| ==> found[i].Key() != found[j].Key()
        invariant forall p :: p in found ==>
                    && p.Key() !in remaining && p.Key() in providers
                    && providers[p.Key()] == p && SelectsProvider(p, filter, filterFn)
        invariant forall k :: k in providers && SelectsProvider(providers[k], filter, filterFn) && k !in remaining ==>
                  providers[k] in found
        decreases |remaining|
      {
        var k :| k in remaining;
        remaining := remaining - {k};
        if MatchesProvider(providers[k], filter) && filterFn(providers[k]) {
          assert forall i :: 0 <= i < |found| ==> found[i] in found;
          found := found + [providers[k]];
        }
      }
    }

    method AddProvider(info: Provider, now: int) returns (err: Option<StoreError>)
      requires Valid()
      modifies this`providers, this`provTypeIndex, this`provModelIndex, this`base
      ensures Valid()
      ensures info.Key() in old(providers) ==>
                err == Some(AlreadyExists) && providers == old(providers) && base == old(base)
      ensures info.Key() !in old(providers) ==>
                && err.None?
                && providers == old(providers)[info.Key() := StoredProvider(info, now)]
                && base == Rebase(old(base), accounts, owed, info)
    {
      var key := info.Key();
      if key in providers {
        return Some(AlreadyExists);
      }
      var stored := StoredProvider(info, now);
      RebaseAgrees(accounts, providers, base, owed, stored);
      base := Rebase(base, accounts, owed, stored);
      AddToProviderIndexes(stored);
      providers := providers[key := stored];
      return None;
    }

    /** A full replacement: the new record is indexed, the old one is not. */
    method UpdateProvider(info: Provider, now: int) returns (err: Option<StoreError>)
      requires Valid()
      modifies this`providers, this`provTypeIndex, this`provModelIndex, this`base
      ensures Valid()
      ensures info.Key() !in old(providers) ==>
                err == Some(NotFound) && providers == old(providers) && base == old(base)
      ensures info.Key() in old(providers) ==>
                && err.None?
                && providers == old(providers)[info.Key() := info.(updatedAt := now)]
                && base == Rebase(old(base), accounts, owed, info)
    {
      var key := info.Key();
      if key !in providers {
        return Some(NotFound);
      }
      var stored := info.(updatedAt := now);
      RebaseAgrees(accounts, providers, base, owed, stored);
      base := Rebase(base, accounts, owed, stored);
      RemoveFromProviderIndexes(key);
      ghost var without := providers - {key};
      assert providers[key := stored] == without[key := stored];
      AddToIndexes(without, stored);
      providers := providers[key := stored];
      return None;
    }

    /** The provider goes with every account under its key, their statistics and their usage; nothing is debited. */
    method RemoveProvider(key: ProviderKey) returns (err: Option<StoreError>)
      requires Valid()
      modifies this
      ensures Valid() && owed == old(owed)
      ensures key !in old(providers) ==>
                && err == Some(NotFound) && accounts == old(accounts) && providers == old(providers)
                   && base == old(base)
                && statsStore == old(statsStore) && usageStore == old(usageStore)
      ensures key in old(providers) ==>
                var ids := IdsUnder(old(accounts), key);
                && err.None? && IdsUnder(accounts, key) == {}
                && accounts == old(accounts) - ids
                && providers == old(providers) - {key}
                && statsStore == old(statsStore) - ids && usageStore == old(usageStore) - ids
                && base == old(base) - {key}
    {
      if key !in providers {
        return Some(NotFound);
      }
      assert Bucket(acctProviderIndex, key) == IdsUnder(accounts, key);
      if key in acctProviderIndex {
        Cascade(acctProviderIndex[key], key);
      }
      assert accounts == old(accounts) - IdsUnder(old(accounts), key);
      assert forall k {:trigger IdsUnder(accounts, k)} :: k != key ==>
             IdsUnder(accounts, k) == IdsUnder(old(accounts), k);
      CascadeAgrees(old(accounts), accounts, providers, base, owed, key);
      base := base - {key};
      RemoveFromProviderIndexes(key);
      providers := providers - {key};
      return None;
    }

    /** Removes the listed accounts, their statistics and their usage. */
    method Cascade(ids: set<string>, key: ProviderKey)
      requires Keyed(accounts, providers) && AccountIndexAgrees(accounts, acctProviderIndex)
      requires ids == IdsUnder(accounts, key)
      modifies this`accounts, this`acctProviderIndex, this`statsStore, this`usageStore
      ensures Keyed(accounts, providers) && AccountIndexAgrees(accounts, acctProviderIndex)
      ensures accounts == old(accounts) - ids && statsStore == old(statsStore) - ids
                && usageStore == old(usageStore) - ids
    {
      var remaining := ids;
      ghost var done: set<string> := {};
      hide AccountIndexAgrees, Keyed, Without;
      MinusNone(accounts);
      MinusNone(statsStore);
      MinusNone(usageStore);
      while remaining != {}
        invariant Keyed(accounts, providers) && AccountIndexAgrees(accounts, acctProviderIndex)
        invariant done + remaining == ids
        invariant accounts == Without(old(accounts), done)
        invariant statsStore == Without(old(statsStore), done)
        invariant usageStore == Without(old(usageStore), done)
        decreases |remaining|
      {
        var id :| id in remaining;
        remaining := remaining - {id};
        MinusMore(old(accounts), done, id);
        MinusMore(old(statsStore), done, id);
        MinusMore(old(usageStore), done, id);
        done := done + {id};
        DropAccount(id);
        statsStore := statsStore - {id};
        usageStore := usageStore - {id};
      }
      assert done == ids;
      MinusAll(old(accounts), ids);
      MinusAll(old(statsStore), ids);
      MinusAll(old(usageStore), ids);
    }

    /** Takes an account, if it is there, out of the map and its index. */
    method DropAccount(id: string)
      requires Keyed(accounts, providers) && AccountIndexAgrees(accounts, acctProviderIndex)
      modifies this`accounts, this`acctProviderIndex
      ensures Keyed(accounts, providers) && AccountIndexAgrees(accounts, acctProviderIndex)
      ensures accounts == old(accounts) - {id}
    {
      if id in accounts {
        AccountRemoved(accounts, acctProviderIndex, id);
        acctProviderIndex := RemoveFrom(acctProviderIndex, accounts[id].Key(), id);
        accounts := accounts - {id};
      }
    }

    method AddToProviderIndexes(info: Provider)
      requires info.Key() !in providers
      requires TypeIndexAgrees(providers, provTypeIndex) && ModelIndexAgrees(providers, provModelIndex)
      modifies this`provTypeIndex, this`provModelIndex
      ensures TypeIndexAgrees(providers[info.Key() := info], provTypeIndex)
      ensures ModelIndexAgrees(providers[info.Key() := info], provModelIndex)
    {
      AddToIndexes(providers, info);
    }

    method AddToIndexes(ghost known: Providers, info: Provider)
      requires info.Key() !in known
      requires TypeIndexAgrees(known, provTypeIndex) && ModelIndexAgrees(known, provModelIndex)
      modifies this`provTypeIndex, this`provModelIndex
      ensures TypeIndexAgrees(known[info.Key() := info], provTypeIndex)
      ensures ModelIndexAgrees(known[info.Key() := info], provModelIndex)
    {
      var key := info.Key();
      TypeAdded(known, provTypeIndex, info);
      provTypeIndex := AddTo(provTypeIndex, info.providerType, key);
      ghost var before := provModelIndex;
      ghost var types := provTypeIndex;
      for i := 0 to |info.supportedModels|
        invariant provTypeIndex == types
        invariant ModelsPartlyAdded(before, provModelIndex, key, info.supportedModels[..i])
      {
        var m := info.supportedModels[i];
        assert info.supportedModels[..i + 1] == info.supportedModels[..i] + [m];
        AddToBucket(provModelIndex, m, key);
        PartlyAddedNext(before, provModelIndex, key, info.supportedModels[..i], m);
        provModelIndex := AddTo(provModelIndex, m, key);
      }
      assert info.supportedModels[..|info.supportedModels|] == info.supportedModels;
      ModelsAdded(known, before, provModelIndex, info);
    }

    method RemoveFromProviderIndexes(key: ProviderKey)
      requires key in providers && providers[key].Key() == key
      requires TypeIndexAgrees(providers, provTypeIndex) && ModelIndexAgrees(providers, provModelIndex)
      modifies this`provTypeIndex, this`provModelIndex
      ensures TypeIndexAgrees(providers - {key}, provTypeIndex)
      ensures ModelIndexAgrees(providers - {key}, provModelIndex)
    {
      var info := providers[key];
      TypeRemoved(providers, provTypeIndex, key);
      provTypeIndex := RemoveFrom(provTypeIndex, info.providerType, key);
      ghost var before := provModelIndex;
      ghost var types := provTypeIndex;
      for i := 0 to |info.supportedModels|
        invariant provTypeIndex == types
        invariant ModelsPartlyRemoved(before, provModelIndex, key, info.supportedModels[..i])
      {
        var m := info.supportedModels[i];
        assert info.supportedModels[..i + 1] == info.supportedModels[..i] + [m];
        RemoveFromBucket(provModelIndex, m, key);
        PartlyRemovedNext(before, provModelIndex, key, info.supportedModels[..i], m);
        provModelIndex := RemoveFrom(provModelIndex, m, key);
      }
      assert info.supportedModels[..|info.supportedModels|] == info.supportedModels;
      ModelsRemoved(providers, before, provModelIndex, key);
    }

    // ---- Statistics ----

    /** Reading creates an empty record for an unknown account. */
    method GetStats(id: string) returns (st: AccountStats)
      modifies this`statsStore
      ensures st == StatsOf(old(statsStore), id) && statsStore == old(statsStore)[id := st]
    {
      if id !in statsStore {
        statsStore := statsStore[id := FRESH];
      }
      st := statsStore[id];
      assert statsStore == statsStore[id := st];
    }

    method IncrSuccess(id: string, now: int)
      modifies this`statsStore
      ensures statsStore == old(statsStore)[id := AfterReports(StatsOf(old(statsStore), id), [Succeeded(now)])]
    {
      var st := GetStats(id);
      st := st.(totalCalls := st.totalCalls + 1, successCalls := st.successCalls + 1);
      st := st.(consecutiveFailures := 0, lastUsedAt := Some(now));
      statsStore := statsStore[id := st];
      assert [Succeeded(now)][..0] == [];
    }

    method IncrFailure(id: string, msg: string, now: int) returns (consecutiveFailures: int)
      modifies this`statsStore
      ensures statsStore == old(statsStore)[id := AfterReports(StatsOf(old(statsStore), id), [FailedWith(now, msg)])]
      ensures consecutiveFailures == statsStore[id].consecutiveFailures
    {
      var st := GetStats(id);
      st := st.(totalCalls := st.totalCalls + 1, failedCalls := st.failedCalls + 1);
      st := st.(consecutiveFailures := st.consecutiveFailures + 1, lastErrorAt := Some(now), lastErrorMsg := msg);
      statsStore := statsStore[id := st];
      assert [FailedWith(now, msg)][..0] == [];
      return st.consecutiveFailures;
    }

    method ResetConsecutiveFailures(id: string)
      modifies this`statsStore
      ensures statsStore == old(statsStore)[id := StatsOf(old(statsStore), id).(consecutiveFailures := 0)]
    {
      var st := GetStats(id);
      statsStore := statsStore[id := st.(consecutiveFailures := 0)];
    }

    method UpdateLastUsed(id: string, now: int)
      modifies this`statsStore
      ensures statsStore == old(statsStore)[id := StatsOf(old(statsStore), id).(lastUsedAt := Some(now))]
    {
      var st := GetStats(id);
      statsStore := statsStore[id := st.(lastUsedAt := Some(now))];
    }

    // ---- Tracked usage ----

    method GetCurrentUsages(id: string, now: int) returns (usages: seq<TrackedUsage>)
      ensures usages == Live(UsagesOf(usageStore, id), now)
    {
      usages := [];
      if id !in usageStore {
        return;
      }
      var all := usageStore[id];
      for i := 0 to |all|
        invariant usages == Live(all[..i], now)
      {
        assert all[..i + 1][..i] == all[..i];
        if !all[i].Expired(now) {
          usages := usages + [all[i]];
        }
      }
      assert all[..|all|] == all;
    }

    method SaveUsages(id: string, usages: seq<TrackedUsage>)
      modifies this`usageStore
      ensures usageStore == old(usageStore)[id := usages]
    {
      usageStore := usageStore[id := usages];
    }

    /** The index counts raw positions, expired windows included. */
    method IncrLocalUsed(id: string, ruleIndex: int, amount: real) returns (err: Option<StoreError>)
      modifies this`usageStore
      ensures id !in old(usageStore) ==> err.None? && usageStore == old(usageStore)
      ensures id in old(usageStore) ==> (err.None? <==> 0 <= ruleIndex < |old(usageStore)[id]|)
      ensures err.Some? ==> usageStore == old(usageStore)
      ensures id in old(usageStore) && err.None? ==>
                var u := old(usageStore)[id];
                var credited := u[ruleIndex].(localUsed := u[ruleIndex].localUsed + amount);
                usageStore == old(usageStore)[id := u[ruleIndex := credited]]
    {
      if id !in usageStore {
        return None;
      }
      var u := usageStore[id];
      if ruleIndex < 0 || ruleIndex >= |u| {
        return Some(BadIndex);
      }
      usageStore := usageStore[id := u[ruleIndex := u[ruleIndex].(localUsed := u[ruleIndex].localUsed + amount)]];
      return None;
    }

    /** Replaces the remote figures of the rule at a raw position and clears its local count. */
    method CalibrateRule(id: string, ruleIndex: int, usage: TrackedUsage) returns (err: Option<StoreError>)
      modifies this`usageStore
      ensures id !in old(usageStore) ==> err.None? && usageStore == old(usageStore)
      ensures id in old(usageStore) ==> (err.None? <==> 0 <= ruleIndex < |old(usageStore)[id]|)
      ensures err.Some? ==> usageStore == old(usageStore)
      ensures id in old(usageStore) && err.None? ==>
                var u := old(usageStore)[id];
                usageStore == old(usageStore)[id := u[ruleIndex := u[ruleIndex].(
                  remoteUsed := usage.remoteUsed, remoteRemain := usage.remoteRemain,
                  localUsed := 0.0, windowEnd := usage.windowEnd)]]
    {
      if id !in usageStore {
        return None;
      }
      var u := usageStore[id];
      if ruleIndex < 0 || ruleIndex >= |u| {
        return Some(BadIndex);
      }
      usageStore := usageStore[id := u[ruleIndex := u[ruleIndex].(
        remoteUsed := usage.remoteUsed, remoteRemain := usage.remoteRemain,
        localUsed := 0.0, windowEnd := usage.windowEnd)]];
      return None;
    }
  }

  lemma PartlyAddedNext(before: map<string, set<ProviderKey>>, now: map<string, set<ProviderKey>>, k: ProviderKey,
                        done: seq<string>, m: string)
    requires ModelsPartlyAdded(before, now, k, done)
    ensures ModelsPartlyAdded(before, AddTo(now, m, k), k, done + [m])
  {
    AddToBucket(now, m, k);
    forall x
      ensures Bucket(AddTo(now, m, k), x) == if x in done + [m] then Bucket(before, x) + {k} else Bucket(before, x)
    {
      assert Bucket(now, x) == if x in done then Bucket(before, x) + {k} else Bucket(before, x);
    }
  }

  lemma PartlyRemovedNext(before: map<string, set<ProviderKey>>, now: map<string, set<ProviderKey>>, k: ProviderKey,
                          done: seq<string>, m: string)
    requires ModelsPartlyRemoved(before, now, k, done)
    ensures ModelsPartlyRemoved(before, RemoveFrom(now, m, k), k, done + [m])
  {
    RemoveFromBucket(now, m, k);
    forall x
      ensures Bucket(RemoveFrom(now, m, k), x) == if x in done + [m] then Bucket(before, x) - {k} else Bucket(before, x)
    {
      assert Bucket(now, x) == if x in done then Bucket(before, x) - {k} else Bucket(before, x);
    }
  }

  lemma NothingRemoved(removed: seq<Account>)
    ensures IdsOf(removed[..0]) == {} && OwedForAll(removed[..0]) == multiset{}
  {}

  lemma StillThere(accounts: Accounts, gone: set<string>, id: string)
    requires id in accounts && id !in gone
    ensures id in Without(accounts, gone) && Without(accounts, gone)[id] == accounts[id]
  {}

  lemma RemovedNext(removed: seq<Account>, i: nat, accounts: Accounts, filter: SearchFilter)
    requires Convertible(filter.extraCond) && Enumerates(removed, accounts, filter) && i < |removed|
    ensures removed[i].id in accounts && removed[i].id !in IdsOf(removed[..i]) && accounts[removed[i].id] == removed[i]
    ensures IdsOf(removed[..i + 1]) == IdsOf(removed[..i]) + {removed[i].id}
    ensures OwedForAll(removed[..i + 1]) == OwedForAll(removed[..i]) + multiset{OwedFor(removed[i])}
  {
    assert removed[i] in removed;
    assert removed[..i + 1] == removed[..i] + [removed[i]];
    assert removed[..i + 1][..i] == removed[..i];
  }

  lemma DebitNext(providers: Providers, removed: seq<Account>, i: nat, now: int)
    requires i < |removed|
    ensures DebitAll(providers, removed[..i + 1], now) ==
            Debit(DebitAll(providers, removed[..i], now), removed[i].Key(), removed[i].Available(), now)
    ensures OwedForAll(removed[..i + 1]) == OwedForAll(removed[..i]) + multiset{OwedFor(removed[i])}
  {
    assert removed[..i + 1][..i] == removed[..i];
  }

  function Without<V>(m: map<string, V>, done: set<string>): map<string, V> {
    m - done
  }

  lemma MinusNone<V>(m: map<string, V>)
    ensures Without(m, {}) == m
  {}

  lemma MinusMore<V>(m: map<string, V>, done: set<string>, id: string)
    ensures Without(m, done) - {id} == Without(m, done + {id})
  {}

  lemma MinusAll<V>(m: map<string, V>, done: set<string>)
    ensures Without(m, done) == m - done
  {}

  lemma MultisetStep(all: Owed, done: Owed, total: Owed, x: (ProviderKey, bool))
    requires done + multiset{x} <= total && total <= all
    ensures x in all - done
    ensures all - done - multiset{x} == all - (done + multiset{x})
  {
    assert (done + multiset{x})[x] <= total[x] <= all[x];
  }

  lemma {:induction false} OwedPrefix(removed: seq<Account>, i: nat)
    requires i < |removed|
    ensures OwedForAll(removed[..i]) + multiset{OwedFor(removed[i])} <= OwedForAll(removed)
    decreases |removed|
  {
    var shorter := removed[..|removed| - 1];
    if i < |shorter| {
      OwedPrefix(shorter, i);
      assert shorter[..i] == removed[..i];
    } else {
      assert removed[..i] == shorter;
    }
  }
}
