/** What follows from the log of a pick: lookups, failed searches, and which account is picked in a sequential run. */
module PickRuns {
  import opened Prelude
  import opened Entities
  import opened Occupancy
  import opened StoreRelations
  import opened Resolver
  import opened PickEnvironment
  import opened Selection

  // ---- No provider is looked up twice ----

  /** The providers whose accounts were looked up, in order. */
  function Lookups(events: seq<Event>): seq<ProviderKey> {
    if events == [] then []
    else
      var before, last := Lookups(events[..|events| - 1]), events[|events| - 1];
      if last.AccountsListed? then before + [last.key] else before
  }

  lemma {:induction false} LookupsConcat(a: seq<Event>, b: seq<Event>)
    ensures Lookups(a + b) == Lookups(a) + Lookups(b)
  {
    if b == [] {
      assert a + b == a;
    } else {
      var rest, last := b[..|b| - 1], b[|b| - 1];
      assert (a + b)[..|a + b| - 1] == a + rest;
      LookupsConcat(a, rest);
    }
  }

  lemma LookupsFirst(events: seq<Event>)
    requires events != []
    ensures Lookups(events) ==
            if events[0].AccountsListed? then [events[0].key] + Lookups(events[1..]) else Lookups(events[1..])
  {
    hide Lookups;
    assert events == [events[0]] + events[1..];
    LookupsConcat([events[0]], events[1..]);
    LookupsOne(events[0]);
  }

  lemma LookupsOne(e: Event)
    ensures Lookups([e]) == if e.AccountsListed? then [e.key] else []
  {
    assert [e][..0] == [];
  }

  lemma {:induction false} NoLookups(events: seq<Event>)
    requires forall e :: e in events ==> !e.AccountsListed?
    ensures Lookups(events) == []
  {
    if events != [] {
      NoLookups(events[..|events| - 1]);
    }
  }

  lemma TryLooksNothingUp(events: seq<Event>)
    requires InOrder(events)
    ensures Lookups(events) == []
  {
    forall e | e in events
      ensures !e.AccountsListed?
    {
      var i :| 0 <= i < |events| && events[i] == e;
    }
    NoLookups(events);
  }

  lemma TryInOrder(r: Answer, key: ProviderKey, accounts: seq<Account>, maxRetries: int, events: seq<Event>)
    requires TryOutcome(r, key, accounts, [], maxRetries, events)
    ensures InOrder(events)
  {}

  lemma ProviderLooksNothingUp(r: Answer, key: ProviderKey, accounts: seq<Account>, maxRetries: int, events: seq<Event>)
    requires ProviderOutcome(r, key, accounts, maxRetries, events)
    ensures Lookups(events) == []
  {
    if events == [] {
      NoLookups(events);
    } else {
      hide Lookups, TryOutcome;
      LookupsFirst(events);
      if events[0].available == [] {
        NoLookups(events[1..]);
      } else {
        TryInOrder(r, key, events[0].available, maxRetries, events[1..]);
        TryLooksNothingUp(events[1..]);
      }
    }
  }

  lemma SelectLooksUpOnce(w: World, r: Answer, key: ProviderKey, tags: Tags, maxRetries: int, events: seq<Event>)
    requires SelectOutcome(w, r, key, tags, maxRetries, events)
    ensures Lookups(events) == [key]
  {
    hide Lookups, ProviderOutcome;
    LookupsFirst(events);
    if w.accounts(key, tags).Success? {
      ProviderLooksNothingUp(r, key, w.accounts(key, tags).value, maxRetries, events[1..]);
    } else {
      NoLookups(events[1..]);
    }
  }

  lemma TriedLooksUpOnce(ask: Ask, offered: seq<Provider>, tried: seq<Attempt>, key: ProviderKey, r: Answer,
                         events: seq<Event>)
    requires ProviderTried(ask, offered, tried, key, r, events)
    ensures Lookups(events) == [key]
  {
    hide Lookups, SelectOutcome;
    LookupsFirst(events);
    SelectLooksUpOnce(ask.w, r, key, ask.tags, ask.maxRetries, events[1..]);
  }

  lemma TriedBefore(ask: Ask, offered: seq<Provider>, tried: seq<Attempt>, n: nat)
    requires TriedSoFar(ask, offered, tried) && n <= |tried|
    ensures TriedSoFar(ask, offered, tried[..n])
  {
    hide ProviderTried;
    assert forall i :: 0 <= i < n ==> tried[..n][i] == tried[i] && tried[..n][..i] == tried[..i];
    assert forall i :: 0 <= i < n ==> KeysTried(tried[..n])[i] == KeysTried(tried)[i];
  }

  lemma {:induction false} TriedLookups(ask: Ask, offered: seq<Provider>, tried: seq<Attempt>)
    requires TriedSoFar(ask, offered, tried)
    ensures Lookups(EventsOf(tried)) == KeysTried(tried)
  {
    hide *;
    if tried == [] {
      NothingLookedUp(tried);
    } else {
      var n := |tried| - 1;
      LastTried(ask, offered, tried);
      TriedLookups(ask, offered, tried[..n]);
      LookupsConcat(EventsOf(tried[..n]), tried[n].events);
    }
  }

  lemma NothingLookedUp(tried: seq<Attempt>)
    requires tried == []
    ensures Lookups(EventsOf(tried)) == KeysTried(tried)
  {}

  lemma LastTried(ask: Ask, offered: seq<Provider>, tried: seq<Attempt>)
    requires TriedSoFar(ask, offered, tried) && tried != []
    ensures var n := |tried| - 1;
            && TriedSoFar(ask, offered, tried[..n])
            && EventsOf(tried) == EventsOf(tried[..n]) + tried[n].events
            && KeysTried(tried) == KeysTried(tried[..n]) + [tried[n].key]
            && Lookups(tried[n].events) == [tried[n].key]
  {
    hide *;
    var n := |tried| - 1;
    LastEvents(tried);
    LastKey(tried);
    TriedBefore(ask, offered, tried, n);
    AttemptMade(ask, offered, tried, n);
    TriedLooksUpOnce(ask, offered, tried[..n], tried[n].key, Failure(tried[n].error), tried[n].events);
  }

  lemma LastEvents(tried: seq<Attempt>)
    requires tried != []
    ensures EventsOf(tried) == EventsOf(tried[..|tried| - 1]) + tried[|tried| - 1].events
  {}

  lemma LastKey(tried: seq<Attempt>)
    requires tried != []
    ensures KeysTried(tried) == KeysTried(tried[..|tried| - 1]) + [tried[|tried| - 1].key]
  {}

  lemma AttemptMade(ask: Ask, offered: seq<Provider>, tried: seq<Attempt>, i: nat)
    requires TriedSoFar(ask, offered, tried) && i < |tried|
    ensures ProviderTried(ask, offered, tried[..i], tried[i].key, Failure(tried[i].error), tried[i].events)
    ensures Retryable(tried[i].error)
  {
    hide ProviderTried;
  }

  /** A search over all providers looks no provider's accounts up twice. */
  lemma NoProviderLookedUpTwice(ask: Ask, r: Answer, tried: seq<Attempt>, events: seq<Event>)
    requires AutoOutcome(ask, r, tried, events)
    ensures Distinct(Lookups(events))
  {
    if events != [] {
      var offered := ask.w.providers(ask.model, ask.providerType).value;
      var first := EventsOf(tried);
      var last := events[|first|..];
      assert events == first + last;
      LookupsConcat(first, last);
      TriedLookups(ask, offered, tried);
      LastLooksUpAnother(ask, offered, tried, r, last);
    }
  }

  lemma LastLooksUpAnother(ask: Ask, offered: seq<Provider>, tried: seq<Attempt>, r: Answer, last: seq<Event>)
    requires SearchEnds(ask, offered, tried, r, last)
    ensures Lookups(last) == [] || exists key :: key !in KeysTried(tried) && Lookups(last) == [key]
  {
    if key :| key in KeysOf(offered) && ProviderTried(ask, offered, tried, key, r, last) {
      TriedLooksUpOnce(ask, offered, tried, key, r, last);
    } else {
      NoLookups(last);
    }
  }

  // ---- What a failed search means ----

  /** No strategy declined, and whoever looked available got the slot. */
  ghost predicate Quiet(events: seq<Event>) {
    forall e :: e in events ==> !e.SlotRefused? && !e.SlotReturned? && !(e.AccountAsked? && e.account.Failure?)
  }

  /** All of the accounts were looked at, and each was at its limit. */
  ghost predicate FoundFull(e: Event, accounts: seq<Account>) {
    && e.RoomChecked? && e.accounts == accounts && e.counts.Some?
    && forall a :: a in accounts ==> CountOf(e.counts.value, a.id) >= e.limitOf(a)
  }

  /**
   Nobody could be picked from the provider: it has no account for the request, or each was at its limit when looked at.
   */
  ghost predicate Unavailable(ask: Ask, key: ProviderKey, events: seq<Event>) {
    && ask.w.accounts(key, ask.tags).Success?
    && var accounts := ask.w.accounts(key, ask.tags).value;
       accounts == [] || exists e :: e in events && FoundFull(e, accounts)
  }

  lemma NobodyHasRoom(e: Event, accounts: seq<Account>)
    requires e.RoomChecked? && e.accounts == accounts != [] && e.available == [] && Justified(e)
    ensures FoundFull(e, accounts)
  {
    if e.counts.Some? {
      KeepWithRoomMembers(accounts, e.counts.value, e.limitOf);
      forall a | a in accounts
        ensures CountOf(e.counts.value, a.id) >= e.limitOf(a)
      {
        assert a !in e.available;
      }
    }
  }

  lemma {:induction false} QuietRefusesNobody(events: seq<Event>)
    requires Quiet(events)
    ensures RefusedIn(events) == []
  {
    if events != [] {
      assert forall e :: e in events[..|events| - 1] ==> e in events;
      QuietRefusesNobody(events[..|events| - 1]);
      assert events[|events| - 1] in events;
    }
  }

  lemma SomeMember(accounts: seq<Account>)
    ensures accounts == [] || exists a :: a in accounts
  {
    if accounts != [] {
      assert accounts[0] in accounts;
    }
  }

  /** In a quiet log, trying a list of accounts gives none only when the list is empty. */
  lemma QuietTryFails(key: ProviderKey, accounts: seq<Account>, maxRetries: int, e: PickError, events: seq<Event>)
    requires TryOutcome(Failure(e), key, accounts, [], maxRetries, events) && Retryable(e)
    requires Quiet(events) && maxRetries >= 0
    ensures accounts == []
  {
    QuietRefusesNobody(events);
    SomeMember(accounts);
  }

  /** In a quiet log a provider fails only when it has nobody with room. */
  lemma QuietProviderFails(ask: Ask, offered: seq<Provider>, tried: seq<Attempt>, key: ProviderKey, e: PickError,
                           events: seq<Event>)
    requires ProviderTried(ask, offered, tried, key, Failure(e), events) && Retryable(e)
    requires Quiet(events) && ask.maxRetries >= 0
    ensures Unavailable(ask, key, events)
  {
    hide TryOutcome;
    var accounts := ask.w.accounts(key, ask.tags).value;
    if accounts != [] {
      var rest := events[1..][1..];
      assert rest[0] == events[2] && events[2] in events;
      assert forall x :: x in rest[1..] ==> x in events;
      if rest[0].available != [] {
        QuietTryFails(key, rest[0].available, ask.maxRetries, e, rest[1..]);
      }
      NobodyHasRoom(rest[0], accounts);
      assert rest[0] in events;
    }
  }

  lemma StillUnavailable(ask: Ask, key: ProviderKey, some: seq<Event>, all: seq<Event>)
    requires Unavailable(ask, key, some) && forall e :: e in some ==> e in all
    ensures Unavailable(ask, key, all)
  {}

  lemma {:induction false} EventsOfAttempt(tried: seq<Attempt>, i: nat)
    requires i < |tried|
    ensures forall e :: e in tried[i].events ==> e in EventsOf(tried)
    decreases |tried|
  {
    var n := |tried| - 1;
    if i < n {
      EventsOfAttempt(tried[..n], i);
    }
  }

  /**
   With strategies that do not decline, and nobody in the way, a failed search means that every eligible account of
   every offered provider was at its limit when it was looked at.
   */
  lemma QuietSearchFailsForLackOfRoom(ask: Ask, tried: seq<Attempt>, events: seq<Event>, p: Provider)
    requires AutoOutcome(ask, Failure(NoAvailableProvider), tried, events)
    requires Quiet(events) && ask.maxRetries >= 0
    requires p in ask.w.providers(ask.model, ask.providerType).value
    ensures Unavailable(ask, p.Key(), events)
  {
    hide ProviderTried, EventsOf, Unavailable;
    var offered := ask.w.providers(ask.model, ask.providerType).value;
    assert p.Key() in KeysOf(offered);
    var i :| 0 <= i < |tried| && KeysTried(tried)[i] == p.Key();
    EventsOfAttempt(tried, i);
    assert forall e :: e in tried[i].events ==> e in events;
    AttemptMade(ask, offered, tried, i);
    QuietProviderFails(ask, offered, tried[..i], tried[i].key, tried[i].error, tried[i].events);
    StillUnavailable(ask, p.Key(), tried[i].events, events);
  }

  /**
   Whatever happened, a failed search tried every offered provider, each once, and each failed for a logged reason.
   */
  lemma FailedSearchTriedEverybody(ask: Ask, tried: seq<Attempt>, events: seq<Event>, p: Provider)
    requires AutoOutcome(ask, Failure(NoAvailableProvider), tried, events)
    requires p in ask.w.providers(ask.model, ask.providerType).value
    ensures p.Key() in Lookups(events)
    ensures exists i :: 0 <= i < |tried| && tried[i].key == p.Key() && Retryable(tried[i].error)
                        && SelectOutcome(ask.w, Failure(tried[i].error), p.Key(), ask.tags, ask.maxRetries,
                           tried[i].events[1..])
  {
    var offered := ask.w.providers(ask.model, ask.providerType).value;
    assert p.Key() in KeysOf(offered);
    var i :| 0 <= i < |tried| && KeysTried(tried)[i] == p.Key();
    assert tried[i].key == p.Key();
    TriedLookups(ask, offered, tried);
    assert EventsOf(tried) == events;
  }

  /**
   In trying a list of accounts, every slot tried for is that of an account the strategy had just chosen among those it
   was offered; it was kept at or below the limit read, and refused above it or when nobody could count.
   */
  lemma EveryTryWasChosen(r: Answer, key: ProviderKey, accounts: seq<Account>, maxRetries: int, events: seq<Event>,
                          i: nat)
    requires TryOutcome(r, key, accounts, [], maxRetries, events)
    requires i < |events| && (events[i].SlotTaken? || events[i].SlotRefused?)
    ensures i > 0 && events[i - 1].AccountAsked? && events[i - 1].account.Success?
    ensures var a := events[i - 1].account.value;
            && a.id == events[i].id && a in events[i - 1].candidates && a in accounts
            && forall j :: 0 <= j < i && (events[j].SlotRefused? || events[j].SlotReturned?) ==> events[j].id != a.id
    ensures events[i].SlotTaken? ==> events[i].raised <= events[i].limit
    ensures events[i].SlotRefused? ==> events[i].seen.None? || events[i].seen.value > events[i].limit
  {
    assert Follows(events[..i], events[i]);
    assert events[..i][i - 1] == events[i - 1];
    forall j | 0 <= j < i && (events[j].SlotRefused? || events[j].SlotReturned?)
      ensures events[j].id in RefusedIn(events[..i - 1])
    {
      RefusedAt(events[..i - 1], j);
    }
  }

  lemma {:induction false} RefusedAt(events: seq<Event>, j: nat)
    requires j < |events| && (events[j].SlotRefused? || events[j].SlotReturned?)
    ensures events[j].id in RefusedIn(events)
  {
    if j < |events| - 1 {
      RefusedAt(events[..|events| - 1], j);
    }
  }

  /**
   An account that is picked is the one the strategy chose last and whose slot was kept, its use noted where there are
   statistics.
   */
  lemma PickedWasChosen(res: PickResult, key: ProviderKey, accounts: seq<Account>, maxRetries: int, events: seq<Event>)
    requires TryOutcome(Success(res), key, accounts, [], maxRetries, events)
    ensures var n := |events|;
            var k := if n > 0 && events[n - 1] == UseNoted(res.account.id, true) then n - 2 else n - 1;
            && k >= 1 && events[k].SlotTaken? && events[k].id == res.account.id && (events[k].noting <==> k == n - 2)
            && events[k - 1].AccountAsked? && events[k - 1].account == Success(res.account)
            && res.account in events[k - 1].candidates && res.account in accounts
  {
    var n := |events|;
    var k := if events[n - 1].UseNoted? then n - 2 else n - 1;
    EveryTryWasChosen(Success(res), key, accounts, maxRetries, events, k);
  }

  // ---- How many tries there were ----

  /** How often a slot was tried for. */
  function SlotTries(events: seq<Event>): nat {
    if events == [] then 0
    else
      var before, last := SlotTries(events[..|events| - 1]), events[|events| - 1];
      if last.SlotTaken? || last.SlotRefused? then before + 1 else before
  }

  lemma {:induction false} TriesConcat(a: seq<Event>, b: seq<Event>)
    ensures SlotTries(a + b) == SlotTries(a) + SlotTries(b)
  {
    if b == [] {
      assert a + b == a;
    } else {
      var rest, last := b[..|b| - 1], b[|b| - 1];
      assert (a + b)[..|a + b| - 1] == a + rest;
      TriesConcat(a, rest);
    }
  }

  /** Every try but one that holds its slot refused somebody. */
  lemma {:induction false} TriesRefuseOrHold(events: seq<Event>)
    requires InOrder(events)
    ensures SlotTries(events) == |RefusedIn(events)| +
              (if events != [] && (events[|events| - 1].SlotTaken? || events[|events| - 1].UseNoted?) then 1 else 0)
  {
    if events != [] {
      var n := |events| - 1;
      assert Follows(events[..n], events[n]);
      InOrderBefore(events, n);
      TriesRefuseOrHold(events[..n]);
    }
  }

  lemma InOrderBefore(events: seq<Event>, n: nat)
    requires InOrder(events) && n <= |events|
    ensures InOrder(events[..n])
  {
    hide Follows;
    assert forall i :: 0 <= i < n ==> events[..n][..i] == events[..i];
  }

  /** The attempts an answer reports are one fewer than the slots tried for at the provider that gave it. */
  lemma AttemptsOfProvider(w: World, res: PickResult, key: ProviderKey, tags: Tags, maxRetries: int, events: seq<Event>)
    requires SelectOutcome(w, Success(res), key, tags, maxRetries, events)
    ensures SlotTries(events) == res.attempts + 1
  {
    var accounts := w.accounts(key, tags).value;
    var rest := events[1..];
    TriesFirst(events);
    TriesFirst(rest);
    TryInOrder(Success(res), key, rest[0].available, maxRetries, rest[1..]);
    TriesRefuseOrHold(rest[1..]);
  }

  lemma TriesFirst(events: seq<Event>)
    requires events != []
    ensures !events[0].SlotTaken? && !events[0].SlotRefused? ==> SlotTries(events) == SlotTries(events[1..])
  {
    hide SlotTries;
    assert events == [events[0]] + events[1..];
    TriesConcat([events[0]], events[1..]);
    OneTry(events[0]);
  }

  lemma OneTry(e: Event)
    ensures SlotTries([e]) == if e.SlotTaken? || e.SlotRefused? then 1 else 0
  {
    assert [e][..0] == [];
  }

  /** Of a search over all providers, the attempts reported leave out the last try and those at all providers before. */
  lemma AttemptsOfSearch(ask: Ask, res: PickResult, tried: seq<Attempt>, events: seq<Event>)
    requires AutoOutcome(ask, Success(res), tried, events)
    ensures SlotTries(events) == SlotTries(EventsOf(tried)) + res.attempts + 1
  {
    hide SlotTries, EventsOf, SelectOutcome;
    var first := EventsOf(tried);
    var last := events[|first|..];
    assert events == first + last;
    TriesConcat(first, last);
    TriesFirst(last);
    AttemptsOfProvider(ask.w, res, res.providerKey, ask.tags, ask.maxRetries, last[1..]);
  }

  /**
   The attempts a pick reports are never all slots tried for: they leave out the successful try, and the tries at every
   other provider, of an exact search before the fallback too.
   */
  lemma AttemptsAreNotTheTotal(opts: Options, during: World, after: World, req: PickRequest, res: PickResult,
                               run: PickRun)
    requires req.model != "" && PickOutcome(opts, during, after, req, Success(res), run)
    ensures var elsewhere := if run.auto.None? then 0 else SlotTries(run.exactEvents) + SlotTries(EventsOf(run.tried));
            SlotTries(run.Events()) == res.attempts + 1 + elsewhere
  {
    hide SlotTries, EventsOf, SelectOutcome, AutoOutcome;
    TriesConcat(run.exactEvents, run.autoEvents);
    if run.auto.None? {
      NoTries(run.autoEvents);
      var p := during.provider(req.providerKey.value, req.model).value;
      AttemptsOfProvider(during, res, p.Key(), req.tags, Retries(opts, req), run.exactEvents);
    } else {
      AttemptsOfSearch(AskFor(opts, after, req), res.(fallback := run.auto.value.value.fallback), run.tried,
        run.autoEvents);
    }
  }

  lemma NoTries(events: seq<Event>)
    requires events == []
    ensures SlotTries(events) == 0
  {}

  /** A request for no retries gets a single try exactly when the default is no retries too. */
  lemma ZeroRetriesIsOneTryIff(opts: Options, req: PickRequest)
    requires req.maxRetries == 0
    ensures AllowedTries(Retries(opts, req)) == 1 <==> opts.defaultMaxRetries == 0
  {}

  /** With a default of three, a request for no retries may go through four accounts. */
  lemma ZeroRetriesMayTryFour(req: PickRequest)
    requires req.maxRetries == 0
    ensures AllowedTries(Retries(Options(3, false), req)) == 4
  {}

  // ---- Which searches take place ----

  ghost predicate NamesProvider(req: PickRequest) {
    req.providerKey.Some? && req.providerKey.value.kind != "" && req.providerKey.value.name != ""
  }

  /**
   Without a key, or with a key that lacks its kind or its name, all providers of the kind given are searched, of any
   kind when none is given. With a whole key that provider is looked up, and all of its kind are searched only when that
   failed and the request or the configuration turns failover on.
   */
  lemma WhichSearches(opts: Options, during: World, after: World, req: PickRequest, r: Answer, run: PickRun)
    requires req.model != "" && PickOutcome(opts, during, after, req, r, run)
    ensures var retries := if req.maxRetries > 0 then req.maxRetries else opts.defaultMaxRetries;
            var failover := req.enableFailover || opts.defaultEnableFailover;
            var kind := if req.providerKey.None? then "" else req.providerKey.value.kind;
            && (if req.providerKey.None? || req.providerKey.value.kind == "" || req.providerKey.value.name == "" then
                  run.exact.None? && run.auto == Some(r)
                else
                  && run.exact.Some?
                  && ExactOutcome(during, run.exact.value, req.providerKey.value, req.model, req.tags, retries,
                                  run.exactEvents)
                  && (run.auto.Some? <==> run.exact.value.Failure? && failover)
                  && (r.Failure? ==> r == run.exact.value))
            && (run.auto.Some? ==>
                  AutoOutcome(Ask(after, req.model, kind, req.tags, retries, failover), run.auto.value, run.tried,
                              run.autoEvents))
  {}

  /** Trying one provider fails for want of an account or a slot, or because something below it failed. */
  lemma SelectErrors(w: World, e: PickError, key: ProviderKey, tags: Tags, maxRetries: int, events: seq<Event>)
    requires SelectOutcome(w, Failure(e), key, tags, maxRetries, events)
    ensures e in {NoAvailableAccount, MaxRetriesExceeded, OccupancyFull} || e.Wrapped?
  {
    hide TrySoFar;
  }

  /** A search goes on after these three failures when failover is on, and stops at any failure when it is off. */
  lemma SearchGoesOn(ask: Ask, r: Answer, tried: seq<Attempt>, events: seq<Event>)
    requires AutoOutcome(ask, r, tried, events)
    ensures ask.failover && r.Failure? ==> r.error !in {NoAvailableAccount, MaxRetriesExceeded, OccupancyFull}
    ensures forall i :: 0 <= i < |tried| ==>
              tried[i].error in {NoAvailableAccount, MaxRetriesExceeded, OccupancyFull}
    ensures !ask.failover ==> tried == []
  {
    hide ProviderTried, Untried, EventsOf;
  }

  /** What a pick over one unchanging store means by its errors. */
  lemma ErrorsMean(opts: Options, w: World, accounts: Accounts, providers: Providers, req: PickRequest, e: PickError,
                   run: PickRun)
    requires Keyed(accounts, providers) && Shows(w, accounts, providers)
    requires req.model != "" && PickOutcome(opts, w, w, req, Failure(e), run)
    ensures e != ModelRequired
    ensures NamesProvider(req) ==>
              var key := req.providerKey.value;
              && (e == NoSuchProvider <==> key !in providers)
              && (e == NoAvailableProvider <==>
                    key in providers && providers[key].status !in {PROVIDER_ACTIVE, PROVIDER_DEGRADED})
              && (e == ModelUnsupported <==>
                    && key in providers && providers[key].status in {PROVIDER_ACTIVE, PROVIDER_DEGRADED}
                    && req.model !in providers[key].supportedModels)
    ensures !NamesProvider(req) ==>
              && e != NoSuchProvider
              && (e == NoAvailableProvider ==> req.enableFailover || opts.defaultEnableFailover)
              && (e == ModelUnsupported <==> forall k :: k in providers ==> !Usable(providers[k], req))
  {
    if NamesProvider(req) {
      ExactErrors(w, accounts, providers, req.providerKey.value, req, Retries(opts, req), e, run.exactEvents);
    } else {
      SearchErrors(AskFor(opts, w, req), accounts, providers, req, e, run.tried, run.autoEvents);
    }
  }

  /** A provider of the kind asked for that can serve the model, and counts an available account. */
  ghost predicate Usable(p: Provider, req: PickRequest) {
    && p.status in {PROVIDER_ACTIVE, PROVIDER_DEGRADED} && req.model in p.supportedModels
    && (req.providerKey.Some? && req.providerKey.value.kind != "" ==> p.providerType == req.providerKey.value.kind)
    && p.accountCount > 0 && p.availableAccountCount > 0
  }

  lemma ExactErrors(w: World, accounts: Accounts, providers: Providers, key: ProviderKey, req: PickRequest,
                    maxRetries: int, e: PickError, events: seq<Event>)
    requires Shows(w, accounts, providers)
    requires ExactOutcome(w, Failure(e), key, req.model, req.tags, maxRetries, events)
    ensures e != ModelRequired
    ensures e == NoSuchProvider <==> key !in providers
    ensures e == NoAvailableProvider <==>
              key in providers && providers[key].status !in {PROVIDER_ACTIVE, PROVIDER_DEGRADED}
    ensures e == ModelUnsupported <==>
              && key in providers && providers[key].status in {PROVIDER_ACTIVE, PROVIDER_DEGRADED}
              && req.model !in providers[key].supportedModels
  {
    hide SelectOutcome;
    assert w.provider(key, req.model) == ProviderAnswer(providers, key, req.model);
    match w.provider(key, req.model) {
      case Success(p) => SelectErrors(w, e, p.Key(), req.tags, maxRetries, events);
      case Failure(_) =>
    }
  }

  lemma SearchErrors(ask: Ask, accounts: Accounts, providers: Providers, req: PickRequest, e: PickError,
                     tried: seq<Attempt>, events: seq<Event>)
    requires Keyed(accounts, providers) && Shows(ask.w, accounts, providers)
    requires AutoOutcome(ask, Failure(e), tried, events)
    requires ask.model == req.model != "" && ask.providerType == KindAsked(req.providerKey)
    ensures e != ModelRequired && e != NoSuchProvider
    ensures e == NoAvailableProvider ==> ask.failover
    ensures e == ModelUnsupported <==> forall k :: k in providers ==> !Usable(providers[k], req)
  {
    hide ProviderTried, Untried, EventsOf, TriedSoFar;
    var offered := ask.w.providers(ask.model, ask.providerType).value;
    assert ListsOffered(offered, providers, ask.model, ask.providerType);
    if offered == [] {
      forall k | k in providers
        ensures !Usable(providers[k], req)
      {
        assert providers[k] !in offered;
      }
    } else {
      assert offered[0] in offered;
      assert Usable(providers[offered[0].Key()], req);
    }
  }

  // ---- Sequential runs ----

  /** The resolver answers from one unchanging store. */
  ghost predicate Shows(w: World, accounts: Accounts, providers: Providers) {
    && (forall k, m {:trigger w.provider(k, m)} :: w.provider(k, m) == ProviderAnswer(providers, k, m))
    && (forall m, t {:trigger w.providers(m, t)} ::
          w.providers(m, t).Success? && ListsOffered(w.providers(m, t).value, providers, m, t))
    && (forall k, tags {:trigger w.accounts(k, tags)} ::
          w.accounts(k, tags).Success? && ListsEligible(w.accounts(k, tags).value, accounts, k, tags, {}))
  }

  /**
   A picked account is available, belongs to the reported provider and has the tags; the provider is usable and is the
   one asked for.
   */
  lemma PickedAccountIsRight(opts: Options, w: World, accounts: Accounts, providers: Providers, req: PickRequest,
                             res: PickResult, run: PickRun)
    requires Keyed(accounts, providers) && Shows(w, accounts, providers)
    requires forall k :: k in providers ==> k.kind != "" && k.name != ""
    requires req.model != "" && PickOutcome(opts, w, w, req, Success(res), run)
    ensures res.account.id in accounts && accounts[res.account.id] == res.account
    ensures res.account.status == STATUS_AVAILABLE && req.tags.Items <= res.account.tags.Items
    ensures res.providerKey == ProviderKey(res.account.providerType, res.account.providerName)
    ensures res.providerKey in providers
    ensures providers[res.providerKey].status in {PROVIDER_ACTIVE, PROVIDER_DEGRADED}
    ensures req.model in providers[res.providerKey].supportedModels
    ensures NamesProvider(req) && !res.fallback ==> res.providerKey == req.providerKey.value
    ensures req.providerKey.Some? && req.providerKey.value.kind != "" ==>
              res.providerKey.kind == req.providerKey.value.kind
    ensures res.fallback ==> NamesProvider(req) && (req.enableFailover || opts.defaultEnableFailover)
  {
    hide ListsOffered, ListsEligible;
    TagsMatchIff(res.account.tags, req.tags);
    if run.exact.Some? && run.exact.value.Success? {
      FromExactProvider(w, accounts, providers, req.providerKey.value, req.model, req.tags, Retries(opts, req),
                        run.exact.value.value, run.exactEvents);
    } else {
      FromOfferedProvider(AskFor(opts, w, req), accounts, providers, run.auto.value.value, run.tried, run.autoEvents);
    }
    EligibleAccount(w, accounts, providers, res.providerKey, req.tags, res.account);
  }

  lemma EligibleAccount(w: World, accounts: Accounts, providers: Providers, key: ProviderKey, tags: Tags, a: Account)
    requires Keyed(accounts, providers) && Shows(w, accounts, providers) && HasAccount(w, key, tags, a)
    ensures a.id in accounts && accounts[a.id] == a && Eligible(a, key, tags)
  {
    assert ListsEligible(w.accounts(key, tags).value, accounts, key, tags, {});
  }

  lemma FromExactProvider(w: World, accounts: Accounts, providers: Providers, key: ProviderKey, model: string,
                          tags: Tags,
                          maxRetries: int, res: PickResult, events: seq<Event>)
    requires Keyed(accounts, providers) && Shows(w, accounts, providers)
    requires ExactOutcome(w, Success(res), key, model, tags, maxRetries, events)
    ensures HasAccount(w, res.providerKey, tags, res.account) && !res.fallback
    ensures res.providerKey == key && key in providers && providers[key].IsActive()
              && providers[key].SupportsModel(model)
  {
    assert w.provider(key, model) == ProviderAnswer(providers, key, model);
    SelectAnswers(w, Success(res), key, tags, maxRetries, events);
  }

  lemma FromOfferedProvider(ask: Ask, accounts: Accounts, providers: Providers, res: PickResult, tried: seq<Attempt>,
                            events: seq<Event>)
    requires Keyed(accounts, providers) && Shows(ask.w, accounts, providers) && ask.model != ""
    requires AutoOutcome(ask, Success(res), tried, events)
    ensures HasAccount(ask.w, res.providerKey, ask.tags, res.account) && !res.fallback
    ensures res.providerKey in providers && Offered(providers[res.providerKey], ask.model, ask.providerType)
    ensures ask.providerType != "" ==> res.providerKey.kind == ask.providerType
  {
    var offered := ask.w.providers(ask.model, ask.providerType).value;
    assert ListsOffered(offered, providers, ask.model, ask.providerType);
    var p :| p in offered && p.Key() == res.providerKey;
    SelectAnswers(ask.w, Success(res), res.providerKey, ask.tags, ask.maxRetries, events[|EventsOf(tried)|..][1..]);
  }

  // ---- A store has such answers ----

  lemma {:induction false} Enumerated<T>(s: set<T>) returns (order: seq<T>)
    ensures Distinct(order) && forall x :: x in order <==> x in s
    decreases s
  {
    if s == {} {
      order := [];
    } else {
      var x :| x in s;
      var rest := Enumerated(s - {x});
      order := rest + [x];
    }
  }

  lemma OfferedListed(accounts: Accounts, providers: Providers, model: string, providerType: string)
    requires Keyed(accounts, providers)
    ensures exists found :: ListsOffered(found, providers, model, providerType)
  {
    var keys := set k | k in providers && Offered(providers[k], model, providerType);
    var order := Enumerated(keys);
    assert forall i :: 0 <= i < |order| ==> order[i] in order && order[i] in keys;
    var found := seq(|order|, i requires 0 <= i < |order| => providers[order[i]]);
    forall p: Provider | p.Key() in providers && providers[p.Key()] == p && Offered(p, model, providerType)
      ensures p in found
    {
      assert p.Key() in keys && p.Key() in order;
      var i :| 0 <= i < |order| && order[i] == p.Key();
      assert found[i] == p;
    }
    assert ListsOffered(found, providers, model, providerType);
  }

  lemma EligibleListed(accounts: Accounts, providers: Providers, key: ProviderKey, tags: Tags)
    requires Keyed(accounts, providers)
    ensures exists found :: ListsEligible(found, accounts, key, tags, {})
  {
    var ids := set id | id in accounts && Eligible(accounts[id], key, tags);
    var order := Enumerated(ids);
    assert forall i :: 0 <= i < |order| ==> order[i] in order && order[i] in ids;
    var found := seq(|order|, i requires 0 <= i < |order| => accounts[order[i]]);
    forall a: Account | a.id in accounts && accounts[a.id] == a && Eligible(a, key, tags)
      ensures a in found
    {
      assert a.id in ids && a.id in order;
      var i :| 0 <= i < |order| && order[i] == a.id;
      assert found[i] == a;
    }
    assert ListsEligible(found, accounts, key, tags, {});
  }

  ghost function SomeOffered(accounts: Accounts, providers: Providers, model: string,
                             providerType: string): (found: seq<Provider>)
    requires Keyed(accounts, providers)
    ensures ListsOffered(found, providers, model, providerType)
  {
    OfferedListed(accounts, providers, model, providerType);
    var found :| ListsOffered(found, providers, model, providerType);
    found
  }

  ghost function SomeEligible(accounts: Accounts, providers: Providers, key: ProviderKey,
                              tags: Tags): (found: seq<Account>)
    requires Keyed(accounts, providers)
    ensures ListsEligible(found, accounts, key, tags, {})
  {
    EligibleListed(accounts, providers, key, tags);
    var found :| ListsEligible(found, accounts, key, tags, {});
    found
  }

  /** Every consistent store can be shown. */
  lemma EveryStoreShows(accounts: Accounts, providers: Providers)
    requires Keyed(accounts, providers)
    ensures exists w :: Shows(w, accounts, providers)
  {
    var w := World((k, m) => ProviderAnswer(providers, k, m),
                   (m, t) => Success(SomeOffered(accounts, providers, m, t)),
                   (k, tags) => Success(SomeEligible(accounts, providers, k, tags)));
    assert Shows(w, accounts, providers);
  }

  /** The resolver's answers over an unchanging store belong to a picture of it that agrees with any other elsewhere. */
  method AskResolver(resolver: StorageResolver, ghost w: World, key: ProviderKey, model: string, providerType: string,
                     tags: Tags)
    returns (provider: Result<Provider, ResolveError>, providers: seq<Provider>, accounts: seq<Account>,
             ghost seen: World)
    requires resolver.store.Valid() && Shows(w, resolver.store.accounts, resolver.store.providers)
    ensures Shows(seen, resolver.store.accounts, resolver.store.providers)
    ensures provider == seen.provider(key, model) == w.provider(key, model)
    ensures Success(providers) == seen.providers(model, providerType)
    ensures Success(accounts) == seen.accounts(key, tags)
    ensures forall m, t :: (m, t) != (model, providerType) ==> seen.providers(m, t) == w.providers(m, t)
    ensures forall k, g :: (k, g) != (key, tags) ==> seen.accounts(k, g) == w.accounts(k, g)
  {
    provider := resolver.ResolveProvider(key, model);
    providers := resolver.ResolveProviders(model, providerType);
    accounts := resolver.ResolveAccounts(key, tags, []);
    ghost var offered, eligible := providers, accounts;
    seen := World(w.provider,
                  (m, t) => if m == model && t == providerType then Success(offered) else w.providers(m, t),
                  (k, g) => if k == key && g == tags then Success(eligible) else w.accounts(k, g));
    assert Elements<string>([]) == {};
  }
}
