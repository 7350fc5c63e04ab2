/** Picking an account: retries within a provider, failover between providers, fallback from an exact provider. */
module Selection {
  import opened Prelude
  import opened Entities
  import opened Occupancy
  import opened Resolver
  import opened PickEnvironment

  datatype PickError =
    | ModelRequired
    | NoAvailableProvider
    | NoAvailableAccount
    | ModelUnsupported
    | NoSuchProvider
    | MaxRetriesExceeded
    | OccupancyFull
    | Cancelled
    | Wrapped(stage: string)

  datatype PickRequest = PickRequest(
    model: string, userID: string, providerKey: Option<ProviderKey>, tags: Tags, maxRetries: int, enableFailover: bool)

  datatype PickResult = PickResult(account: Account, providerKey: ProviderKey, attempts: int, fallback: bool)

  type Answer = Result<PickResult, PickError>

  predicate IsExact(key: Option<ProviderKey>) {
    key.Some? && key.value.kind != "" && key.value.name != ""
  }

  predicate IsTypeOnly(key: Option<ProviderKey>) {
    key.Some? && key.value.kind != "" && key.value.name == ""
  }

  /** Accounts already looked up while one request is served; hits counts the times an entry was reused. */
  class AccountCache {
    var entries: map<ProviderKey, seq<Account>>
    ghost var hits: nat

    constructor ()
      ensures entries == map[] && hits == 0
    {
      entries, hits := map[], 0;
    }
  }

  // ---- Filtering out what was tried ----

  method ExcludeAccounts(accounts: seq<Account>, excludeIDs: seq<string>) returns (kept: seq<Account>)
    ensures Remaining(kept, accounts, excludeIDs)
  {
    if |excludeIDs| == 0 {
      return accounts;
    }
    var excludeSet := Elements(excludeIDs);
    kept := FilterAccounts(accounts, (a: Account) => a.id !in excludeSet);
  }

  method FilterProviders(candidates: seq<Provider>, excludeKeys: seq<ProviderKey>) returns (kept: seq<Provider>)
    ensures forall p :: p in kept <==> p in candidates && p.Key() !in excludeKeys
  {
    if |excludeKeys| == 0 {
      return candidates;
    }
    kept := [];
    for i := 0 to |candidates|
      invariant forall p :: p in kept <==> p in candidates[..i] && p.Key() !in excludeKeys
    {
      var p := candidates[i];
      assert candidates[..i + 1] == candidates[..i] + [p];
      var excluded := false;
      for j := 0 to |excludeKeys|
        invariant excluded <==> p.Key() in excludeKeys[..j]
      {
        assert excludeKeys[..j + 1] == excludeKeys[..j] + [excludeKeys[j]];
        if p.providerType == excludeKeys[j].kind && p.providerName == excludeKeys[j].name {
          excluded := true;
        }
      }
      assert excludeKeys[..|excludeKeys|] == excludeKeys;
      if !excluded {
        kept := kept + [p];
      }
    }
    assert candidates[..|candidates|] == candidates;
  }

  // ---- What the log of trying one list of accounts shows ----

  /** Errors after which another provider is tried. */
  predicate Retryable(e: PickError) {
    e == NoAvailableAccount || e == MaxRetriesExceeded || e == OccupancyFull
  }

  /** One slot more when an account was picked, none otherwise. */
  function Taken(r: Answer): multiset<string> {
    if r.Success? then multiset{r.value.account.id} else multiset{}
  }

  /** The accounts that were refused a slot, or whose slot was given back, in order. */
  function RefusedIn(events: seq<Event>): seq<string> {
    if events == [] then []
    else
      var before, last := RefusedIn(events[..|events| - 1]), events[|events| - 1];
      if last.SlotRefused? || last.SlotReturned? then before + [last.id] else before
  }

  ghost predicate Remaining(kept: seq<Account>, accounts: seq<Account>, excluded: seq<string>) {
    forall a :: a in kept <==> a in accounts && a.id !in excluded
  }

  predicate Chose(e: Event, id: string) {
    e.AccountAsked? && e.account.Success? && e.account.value.id == id && e.account.value in e.candidates
  }

  /** The last try for a slot is over: nobody has been asked since, and no slot is held for it. */
  predicate BetweenTries(events: seq<Event>) {
    events == [] || events[|events| - 1].SlotRefused? || events[|events| - 1].SlotReturned?
  }

  /**
   Only strategies and slots: the strategy is asked between tries, and a slot is tried for the account just chosen and
   given back at once or kept. Slots are kept and refused for the reasons the environment has.
   */
  ghost predicate Follows(before: seq<Event>, e: Event) {
    match e
    case AccountAsked(candidates, _) => BetweenTries(before) && candidates != []
    case SlotTaken(id, _, _, _) => before != [] && Chose(before[|before| - 1], id) && Justified(e)
    case SlotRefused(id, _, _) => before != [] && Chose(before[|before| - 1], id) && Justified(e)
    case UseNoted(id, _) =>
      before != [] && var last := before[|before| - 1]; last.SlotTaken? && last.noting && last.id == id
    case SlotReturned(id) => before != [] && before[|before| - 1] == UseNoted(id, false)
    case _ => false
  }

  ghost predicate InOrder(events: seq<Event>) {
    forall i {:trigger events[i]} :: 0 <= i < |events| ==> Follows(events[..i], events[i])
  }

  /** Every question to the strategy offered exactly the accounts that nobody had refused before. */
  ghost predicate AsksRemaining(events: seq<Event>, accounts: seq<Account>, excluded: seq<string>) {
    forall i {:trigger events[i]} :: 0 <= i < |events| && events[i].AccountAsked? ==>
      Remaining(events[i].candidates, accounts, excluded + RefusedIn(events[..i]))
  }

  /** Distinct accounts of one list, none of them excluded before. */
  ghost predicate Refusals(refused: seq<string>, accounts: seq<Account>, excluded: seq<string>) {
    && Distinct(refused)
    && (forall id :: id in refused ==> id !in excluded && exists a :: a in accounts && a.id == id)
  }

  ghost predicate TrySoFar(events: seq<Event>, accounts: seq<Account>, excluded: seq<string>) {
    InOrder(events) && AsksRemaining(events, accounts, excluded) && Refusals(RefusedIn(events), accounts, excluded)
  }

  function AllowedTries(maxRetries: int): nat {
    if maxRetries >= 0 then maxRetries + 1 else 0
  }

  /** The strategy was asked last, and answered with this error. */
  predicate EndsInSelectorError(events: seq<Event>, e: SelectorError) {
    events != [] && var last := events[|events| - 1];
    last.AccountAsked? && last.account == Failure(e)
  }

  predicate Declined(events: seq<Event>) {
    EndsInSelectorError(events, SelectorEmpty) || EndsInSelectorError(events, SelectorNone)
  }

  /** The account was chosen and its slot taken last. */
  predicate EndsInSlot(events: seq<Event>, a: Account) {
    && events != []
    && var noted := events[|events| - 1].UseNoted?;
    && var n := if noted then |events| - 1 else |events|;
    && n >= 2 && events[n - 1].SlotTaken? && events[n - 1].id == a.id && events[n - 1].noting == noted
    && events[n - 2].AccountAsked? && events[n - 2].account == Success(a)
    && (noted ==> events[n] == UseNoted(a.id, true))
  }

  /** What trying a list of accounts can end in, and what must have happened for it. */
  ghost predicate TryOutcome(r: Answer, key: ProviderKey, accounts: seq<Account>, excluded: seq<string>,
                             maxRetries: int,
                             events: seq<Event>)
  {
    var refused := RefusedIn(events);
    && TrySoFar(events, accounts, excluded) && |refused| <= AllowedTries(maxRetries)
    && match r
       case Success(res) =>
         && EndsInSlot(events, res.account)
         && res.account in accounts && res.account.id !in excluded && res.account.id !in refused
         && res.providerKey == key && res.attempts == |refused| <= maxRetries && !res.fallback
       case Failure(MaxRetriesExceeded) => |refused| == AllowedTries(maxRetries)
       case Failure(NoAvailableAccount) => Declined(events) || forall a :: a in accounts ==> a.id in excluded + refused
       case Failure(Wrapped(_)) => EndsInSelectorError(events, SelectorOther)
       case Failure(_) => false
  }

  lemma RefusedInNext(events: seq<Event>, e: Event)
    ensures RefusedIn(events + [e]) ==
            if e.SlotRefused? || e.SlotReturned? then RefusedIn(events) + [e.id] else RefusedIn(events)
  {
    assert (events + [e])[..|events|] == events;
  }

  lemma NothingTriedYet(accounts: seq<Account>, excluded: seq<string>)
    ensures TrySoFar([], accounts, excluded) && BetweenTries([]) && RefusedIn([]) == []
  {}

  lemma OneMoreEvent(events: seq<Event>, accounts: seq<Account>, excluded: seq<string>, e: Event)
    requires InOrder(events) && AsksRemaining(events, accounts, excluded) && Follows(events, e)
    requires e.AccountAsked? ==> Remaining(e.candidates, accounts, excluded + RefusedIn(events))
    ensures InOrder(events + [e]) && AsksRemaining(events + [e], accounts, excluded)
  {
    hide Follows, Remaining, RefusedIn;
    var more := events + [e];
    assert forall i :: 0 <= i <= |events| ==> more[..i] == events[..i];
  }

  /** Asking the strategy about what remains. */
  lemma Asked(events: seq<Event>, accounts: seq<Account>, excluded: seq<string>, e: Event)
    requires TrySoFar(events, accounts, excluded) && BetweenTries(events) && e.AccountAsked? && e.candidates != []
    requires Remaining(e.candidates, accounts, excluded + RefusedIn(events))
    ensures TrySoFar(events + [e], accounts, excluded) && RefusedIn(events + [e]) == RefusedIn(events)
  {
    hide InOrder, AsksRemaining, Remaining, Refusals, RefusedIn;
    RefusedInNext(events, e);
    OneMoreEvent(events, accounts, excluded, e);
  }

  /** One step with a slot after the strategy chose. */
  lemma SlotStep(events: seq<Event>, accounts: seq<Account>, excluded: seq<string>, e: Event)
    requires TrySoFar(events, accounts, excluded) && Follows(events, e) && !e.AccountAsked?
    requires e.SlotTaken? || e.UseNoted? || Refusals(RefusedIn(events) + [e.id], accounts, excluded)
    ensures TrySoFar(events + [e], accounts, excluded)
    ensures RefusedIn(events + [e]) ==
            if e.SlotTaken? || e.UseNoted? then RefusedIn(events) else RefusedIn(events) + [e.id]
  {
    hide InOrder, AsksRemaining, Remaining, Refusals, RefusedIn;
    RefusedInNext(events, e);
    OneMoreEvent(events, accounts, excluded, e);
  }

  lemma OneMoreRefusal(refused: seq<string>, accounts: seq<Account>, excluded: seq<string>, kept: seq<Account>,
                       chosen: Account)
    requires Refusals(refused, accounts, excluded) && Remaining(kept, accounts, excluded + refused) && chosen in kept
    ensures Refusals(refused + [chosen.id], accounts, excluded)
    ensures chosen in accounts && chosen.id !in excluded && chosen.id !in refused
  {}

  /** The events of one try for a slot: kept and noted, refused, or taken and given back for want of a note. */
  ghost predicate SlotEvents(slot: seq<Event>, id: string, held: bool) {
    && slot != [] && Justified(slot[0])
    && if held then
         && slot[0].SlotTaken? && slot[0].id == id
         && slot[1..] == if slot[0].noting then [UseNoted(id, true)] else []
       else
         || (|slot| == 1 && slot[0].SlotRefused? && slot[0].id == id)
         || (slot[0].SlotTaken? && slot[0].id == id && slot[0].noting
             && slot[1..] == [UseNoted(id, false), SlotReturned(id)])
  }

  /** The events of one round: the strategy is asked and, when it chose, the slot is tried for. */
  ghost predicate IsStep(step: seq<Event>, kept: seq<Account>, selected: Result<Account, SelectorError>, held: bool) {
    && step != [] && step[0] == AccountAsked(kept, selected)
    && if selected.Failure? then |step| == 1 && !held
       else selected.value in kept && SlotEvents(step[1..], selected.value.id, held)
  }

  /** The answer when the strategy failed. */
  function VainAnswer(e: SelectorError): PickError {
    if e == SelectorEmpty || e == SelectorNone then NoAvailableAccount else Wrapped("select account")
  }

  /** What one round adds to the log, and the answer it leads to when it is the last. */
  lemma StepTaken(events: seq<Event>, accounts: seq<Account>, excluded: seq<string>, kept: seq<Account>,
                  selected: Result<Account, SelectorError>, held: bool, step: seq<Event>, key: ProviderKey,
                    maxRetries: int)
    requires TrySoFar(events, accounts, excluded) && BetweenTries(events) && |RefusedIn(events)| <= maxRetries
    requires Remaining(kept, accounts, excluded + RefusedIn(events)) && kept != []
    requires IsStep(step, kept, selected, held)
    ensures selected.Failure? ==>
              && RefusedIn(events + step) == RefusedIn(events)
              && TryOutcome(Failure(VainAnswer(selected.error)), key, accounts, excluded, maxRetries, events + step)
    ensures selected.Success? && held ==>
              && RefusedIn(events + step) == RefusedIn(events)
              && TryOutcome(Success(PickResult(selected.value, key, |RefusedIn(events)|, false)),
                            key, accounts, excluded, maxRetries, events + step)
    ensures selected.Success? && !held ==>
              && RefusedIn(events + step) == RefusedIn(events) + [selected.value.id]
              && TrySoFar(events + step, accounts, excluded) && BetweenTries(events + step)
  {
    hide TryOutcome, TrySoFar, RefusedIn, Remaining, SlotEvents, BetweenTries;
    if selected.Failure? {
      assert step == [AccountAsked(kept, selected)];
      AskedInVain(events, accounts, excluded, kept, selected.error, key, maxRetries);
    } else {
      assert events + step == events + [AccountAsked(kept, selected)] + step[1..];
      Round(events, accounts, excluded, kept, selected.value, step[1..]);
      if held {
        GotSlot(events, accounts, excluded, kept, selected.value, step[1..], key, maxRetries);
      }
    }
  }

  lemma Round(events: seq<Event>, accounts: seq<Account>, excluded: seq<string>, kept: seq<Account>, chosen: Account,
              slot: seq<Event>)
    requires TrySoFar(events, accounts, excluded) && BetweenTries(events)
    requires Remaining(kept, accounts, excluded + RefusedIn(events)) && chosen in kept
    requires SlotEvents(slot, chosen.id, true) || SlotEvents(slot, chosen.id, false)
    ensures var asked := events + [AccountAsked(kept, Success(chosen))];
            && TrySoFar(asked + slot, accounts, excluded)
            && RefusedIn(asked + slot) ==
               (if SlotEvents(slot, chosen.id, true) then RefusedIn(events) else RefusedIn(events) + [chosen.id])
            && (SlotEvents(slot, chosen.id, false) ==>
                  !SlotEvents(slot, chosen.id, true) && BetweenTries(asked + slot))
  {
    hide TrySoFar, RefusedIn, Refusals, Remaining;
    var asked := events + [AccountAsked(kept, Success(chosen))];
    Asked(events, accounts, excluded, AccountAsked(kept, Success(chosen)));
    RefusalsSoFar(events, accounts, excluded);
    OneMoreRefusal(RefusedIn(events), accounts, excluded, kept, chosen);
    SlotStep(asked, accounts, excluded, slot[0]);
    if |slot| == 1 {
      assert slot == [slot[0]];
    } else {
      SlotStep(asked + [slot[0]], accounts, excluded, slot[1]);
      if |slot| == 2 {
        assert asked + slot == asked + [slot[0]] + [slot[1]];
      } else {
        SlotStep(asked + [slot[0]] + [slot[1]], accounts, excluded, slot[2]);
        assert asked + slot == asked + [slot[0]] + [slot[1]] + [slot[2]];
      }
    }
  }

  lemma Associative<T>(a: seq<T>, b: seq<T>, c: seq<T>)
    ensures a + b + c == a + (b + c)
  {}

  lemma RefusalsSoFar(events: seq<Event>, accounts: seq<Account>, excluded: seq<string>)
    requires TrySoFar(events, accounts, excluded)
    ensures Refusals(RefusedIn(events), accounts, excluded)
  {}

  /** The log of asking a strategy that answered an error. */
  lemma AskedInVain(events: seq<Event>, accounts: seq<Account>, excluded: seq<string>, kept: seq<Account>,
                    e: SelectorError,
                    key: ProviderKey, maxRetries: int)
    requires TrySoFar(events, accounts, excluded) && BetweenTries(events) && kept != []
    requires |RefusedIn(events)| <= AllowedTries(maxRetries) && Remaining(kept, accounts, excluded + RefusedIn(events))
    ensures var more := events + [AccountAsked(kept, Failure(e))];
            && RefusedIn(more) == RefusedIn(events)
            && TryOutcome(Failure(VainAnswer(e)), key, accounts, excluded, maxRetries, more)
  {
    Asked(events, accounts, excluded, AccountAsked(kept, Failure(e)));
  }

  lemma NobodyLeft(events: seq<Event>, accounts: seq<Account>, excluded: seq<string>, key: ProviderKey, maxRetries: int)
    requires TrySoFar(events, accounts, excluded) && |RefusedIn(events)| <= AllowedTries(maxRetries)
    requires Remaining([], accounts, excluded + RefusedIn(events))
    ensures TryOutcome(Failure(NoAvailableAccount), key, accounts, excluded, maxRetries, events)
  {
    forall a | a in accounts
      ensures a.id in excluded + RefusedIn(events)
    {
      assert a !in [];
    }
  }

  lemma OutOfTries(events: seq<Event>, accounts: seq<Account>, excluded: seq<string>, key: ProviderKey, maxRetries: int)
    requires TrySoFar(events, accounts, excluded) && |RefusedIn(events)| == AllowedTries(maxRetries)
    ensures TryOutcome(Failure(MaxRetriesExceeded), key, accounts, excluded, maxRetries, events)
  {}

  lemma GotSlot(events: seq<Event>, accounts: seq<Account>, excluded: seq<string>, kept: seq<Account>, chosen: Account,
                slot: seq<Event>, key: ProviderKey, maxRetries: int)
    requires TrySoFar(events, accounts, excluded) && BetweenTries(events) && |RefusedIn(events)| <= maxRetries
    requires Remaining(kept, accounts, excluded + RefusedIn(events)) && chosen in kept
    requires SlotEvents(slot, chosen.id, true)
    ensures var more := events + [AccountAsked(kept, Success(chosen))] + slot;
            && RefusedIn(more) == RefusedIn(events)
            && TryOutcome(Success(PickResult(chosen, key, |RefusedIn(events)|, false)), key, accounts, excluded,
                          maxRetries, more)
  {
    Round(events, accounts, excluded, kept, chosen, slot);
    OneMoreRefusal(RefusedIn(events), accounts, excluded, kept, chosen);
  }

  lemma RoomMembers(accounts: seq<Account>, available: seq<Account>, e: Event)
    requires e.RoomChecked? && e.accounts == accounts && e.available == available && Justified(e)
    ensures forall a :: a in available ==> a in accounts
  {
    if e.counts.Some? {
      KeepWithRoomMembers(accounts, e.counts.value, e.limitOf);
    }
  }

  // ---- What the log of one provider, and of a search over several, shows ----

  /** The accounts of one provider: those with room are looked up once, then tried. */
  ghost predicate ProviderOutcome(r: Answer, key: ProviderKey, accounts: seq<Account>, maxRetries: int,
                                  events: seq<Event>)
  {
    if accounts == [] then r == Failure(NoAvailableAccount) && events == []
    else
      && events != [] && events[0].RoomChecked? && events[0].accounts == accounts && Justified(events[0])
      && (forall a :: a in events[0].available ==> a in accounts)
      && if events[0].available == [] then r == Failure(OccupancyFull) && |events| == 1
         else TryOutcome(r, key, events[0].available, [], maxRetries, events[1..])
  }

  /** Looking a provider's accounts up and trying them. */
  ghost predicate SelectOutcome(w: World, r: Answer, key: ProviderKey, tags: Tags, maxRetries: int, events: seq<Event>)
  {
    && events != [] && events[0] == AccountsListed(key, tags, w.accounts(key, tags))
    && match w.accounts(key, tags)
       case Success(accounts) => ProviderOutcome(r, key, accounts, maxRetries, events[1..])
       case Failure(_) => r.Failure? && r.error.Wrapped? && |events| == 1
  }

  ghost predicate ExactOutcome(w: World, r: Answer, key: ProviderKey, model: string, tags: Tags, maxRetries: int,
                               events: seq<Event>)
  {
    match w.provider(key, model)
    case Success(p) => SelectOutcome(w, r, p.Key(), tags, maxRetries, events)
    case Failure(e) =>
      && events == []
      && match e
         case ProviderNotFound => r == Failure(NoSuchProvider)
         case ProviderInactive => r == Failure(NoAvailableProvider)
         case ModelNotSupported => r == Failure(ModelUnsupported)
         case _ => r.Failure? && r.error.Wrapped?
  }

  /** One search over the providers offered for a model. */
  datatype Ask = Ask(w: World, model: string, providerType: string, tags: Tags, maxRetries: int, failover: bool)

  /** A provider that was tried, why it gave nothing, and what was logged meanwhile. */
  datatype Attempt = Attempt(key: ProviderKey, error: PickError, events: seq<Event>)

  function KeysOf(candidates: seq<Provider>): set<ProviderKey> {
    set p | p in candidates :: p.Key()
  }

  function KeysTried(tried: seq<Attempt>): seq<ProviderKey> {
    seq(|tried|, i requires 0 <= i < |tried| => tried[i].key)
  }

  function EventsOf(tried: seq<Attempt>): seq<Event> {
    if tried == [] then [] else EventsOf(tried[..|tried| - 1]) + tried[|tried| - 1].events
  }

  /** The strategy was offered exactly the providers not tried yet. */
  ghost predicate Untried(asked: seq<Provider>, offered: seq<Provider>, tried: seq<Attempt>) {
    forall p :: p in asked <==> p in offered && p.Key() !in KeysTried(tried)
  }

  /** The strategy chose a provider that was not tried yet, and that provider was tried. */
  ghost predicate ProviderTried(ask: Ask, offered: seq<Provider>, tried: seq<Attempt>, key: ProviderKey, r: Answer,
                                events: seq<Event>)
  {
    && events != [] && events[0].ProviderAsked? && Untried(events[0].providers, offered, tried)
    && events[0].provider.Success? && events[0].provider.value in events[0].providers
       && events[0].provider.value.Key() == key
    && SelectOutcome(ask.w, r, key, ask.tags, ask.maxRetries, events[1..])
  }

  /** Every attempt tried another offered provider, and failed with an error that lets the next one be tried. */
  ghost predicate TriedSoFar(ask: Ask, offered: seq<Provider>, tried: seq<Attempt>) {
    && Distinct(KeysTried(tried)) && (tried != [] ==> ask.failover)
    && forall i {:trigger tried[i]} :: 0 <= i < |tried| ==>
         && tried[i].key in KeysOf(offered) && Retryable(tried[i].error)
         && ProviderTried(ask, offered, tried[..i], tried[i].key, Failure(tried[i].error), tried[i].events)
  }

  /** What the search ends in after the attempts it made, and what was logged after them. */
  ghost predicate SearchEnds(ask: Ask, offered: seq<Provider>, tried: seq<Attempt>, r: Answer, last: seq<Event>) {
    match r
    case Success(res) =>
      && res.providerKey in KeysOf(offered) && res.providerKey !in KeysTried(tried)
      && ProviderTried(ask, offered, tried, res.providerKey, r, last)
    case Failure(e) =>
      || (e == NoAvailableProvider && last == [] && ask.failover && KeysOf(offered) == Elements(KeysTried(tried)))
      || (e == Cancelled && last == [CancellationNoticed])
      || (e.Wrapped? && SelectorFailed(offered, tried, last))
      || (EndsTheSearch(ask, e) &&
          exists key :: key in KeysOf(offered) && ProviderTried(ask, offered, tried, key, r, last))
  }

  /** Errors of one provider that no other provider is tried after. */
  predicate EndsTheSearch(ask: Ask, e: PickError) {
    e.Wrapped? || (Retryable(e) && !ask.failover)
  }

  ghost predicate SelectorFailed(offered: seq<Provider>, tried: seq<Attempt>, last: seq<Event>) {
    && |last| == 1 && last[0].ProviderAsked? && last[0].provider.Failure?
    && last[0].providers != [] && Untried(last[0].providers, offered, tried)
  }

  /** The whole search: what was logged is the attempts made, one after the other, and how the last one ended. */
  ghost predicate AutoOutcome(ask: Ask, r: Answer, tried: seq<Attempt>, events: seq<Event>) {
    match ask.w.providers(ask.model, ask.providerType)
    case Failure(_) => r.Failure? && r.error.Wrapped? && tried == [] && events == []
    case Success(offered) =>
      if offered == [] then r == Failure(ModelUnsupported) && tried == [] && events == []
      else
        && TriedSoFar(ask, offered, tried) && EventsOf(tried) <= events
        && SearchEnds(ask, offered, tried, r, events[|EventsOf(tried)|..])
  }

  // ---- The search, one step after the other ----

  lemma NoneTried(ask: Ask, offered: seq<Provider>)
    ensures TriedSoFar(ask, offered, []) && KeysTried([]) == [] && EventsOf([]) == []
  {}

  lemma ProviderTriedNow(ask: Ask, offered: seq<Provider>, tried: seq<Attempt>, kept: seq<Provider>, chosen: Provider,
                         r: Answer,
                         events: seq<Event>)
    requires Untried(kept, offered, tried) && chosen in kept
    requires SelectOutcome(ask.w, r, chosen.Key(), ask.tags, ask.maxRetries, events)
    ensures ProviderTried(ask, offered, tried, chosen.Key(), r, [ProviderAsked(kept, Success(chosen))] + events)
  {
    assert ([ProviderAsked(kept, Success(chosen))] + events)[1..] == events;
  }

  lemma OneMoreTried(ask: Ask, offered: seq<Provider>, tried: seq<Attempt>, next: Attempt)
    requires TriedSoFar(ask, offered, tried) && ask.failover && Retryable(next.error)
    requires next.key in KeysOf(offered) && next.key !in KeysTried(tried)
    requires ProviderTried(ask, offered, tried, next.key, Failure(next.error), next.events)
    ensures TriedSoFar(ask, offered, tried + [next])
    ensures KeysTried(tried + [next]) == KeysTried(tried) + [next.key]
    ensures EventsOf(tried + [next]) == EventsOf(tried) + next.events
    ensures Elements(KeysTried(tried + [next])) == Elements(KeysTried(tried)) + {next.key}
    ensures KeysOf(offered) - Elements(KeysTried(tried + [next])) < KeysOf(offered) - Elements(KeysTried(tried))
  {
    hide ProviderTried;
    var more := tried + [next];
    assert more[..|tried|] == tried;
    assert KeysTried(more) == KeysTried(tried) + [next.key];
    assert forall i :: 0 <= i < |tried| ==> more[i] == tried[i] && more[..i] == tried[..i];
    assert next.key in Elements(KeysTried(more));
  }

  lemma FreshProvider(offered: seq<Provider>, tried: seq<Attempt>, kept: seq<Provider>, chosen: Provider)
    requires Untried(kept, offered, tried) && chosen in kept
    ensures chosen.Key() in KeysOf(offered) && chosen.Key() !in KeysTried(tried)
    ensures chosen.Key() !in Elements(KeysTried(tried))
  {}

  lemma SearchIs(ask: Ask, offered: seq<Provider>, tried: seq<Attempt>, r: Answer, last: seq<Event>)
    requires ask.w.providers(ask.model, ask.providerType) == Success(offered) && offered != []
    requires TriedSoFar(ask, offered, tried) && SearchEnds(ask, offered, tried, r, last)
    ensures AutoOutcome(ask, r, tried, EventsOf(tried) + last)
  {
    hide TriedSoFar, SearchEnds;
    assert (EventsOf(tried) + last)[|EventsOf(tried)|..] == last;
  }

  /** Nothing is left once every offered provider has been tried. */
  lemma AllTried(ask: Ask, offered: seq<Provider>, tried: seq<Attempt>)
    requires TriedSoFar(ask, offered, tried) && offered != [] && Untried([], offered, tried)
    ensures SearchEnds(ask, offered, tried, Failure(NoAvailableProvider), [])
  {
    forall k | k in KeysOf(offered)
      ensures k in Elements(KeysTried(tried))
    {
      var p :| p in offered && p.Key() == k;
      assert p !in [];
    }
    forall k | k in KeysTried(tried)
      ensures k in KeysOf(offered)
    {
      var i :| 0 <= i < |tried| && KeysTried(tried)[i] == k;
      assert tried[i].key == k;
    }
    assert offered[0].Key() in KeysOf(offered);
  }

  lemma CancelledNow(ask: Ask, offered: seq<Provider>, tried: seq<Attempt>)
    ensures SearchEnds(ask, offered, tried, Failure(Cancelled), [CancellationNoticed])
  {}

  lemma StrategyFailed(ask: Ask, offered: seq<Provider>, tried: seq<Attempt>, kept: seq<Provider>, e: SelectorError)
    requires Untried(kept, offered, tried) && kept != []
    ensures SearchEnds(ask, offered, tried, Failure(Wrapped("group select")), [ProviderAsked(kept, Failure(e))])
  {}

  /** A provider's answer ends the search: an account, or an error after which no other is tried. */
  lemma EndsHere(ask: Ask, offered: seq<Provider>, tried: seq<Attempt>, key: ProviderKey, r: Answer, last: seq<Event>)
    requires key in KeysOf(offered) && key !in KeysTried(tried) && ProviderTried(ask, offered, tried, key, r, last)
    requires r.Failure? ==> !(ask.failover && Retryable(r.error))
    ensures SearchEnds(ask, offered, tried, r, last)
  {
    SelectAnswers(ask.w, r, key, ask.tags, ask.maxRetries, last[1..]);
  }

  lemma SelectAnswers(w: World, r: Answer, key: ProviderKey, tags: Tags, maxRetries: int, events: seq<Event>)
    requires SelectOutcome(w, r, key, tags, maxRetries, events)
    ensures r.Success? ==> r.value.providerKey == key && HasAccount(w, key, tags, r.value.account) && !r.value.fallback
    ensures r.Failure? ==> Retryable(r.error) || r.error.Wrapped?
  {}

  ghost predicate HasAccount(w: World, key: ProviderKey, tags: Tags, a: Account) {
    w.accounts(key, tags).Success? && a in w.accounts(key, tags).value
  }

  /** The order in which the accounts with room are listed does not matter. */
  lemma SameOutcome(r: Answer, key: ProviderKey, available: seq<Account>, shuffled: seq<Account>, maxRetries: int,
                    events: seq<Event>)
    requires multiset(shuffled) == multiset(available) && TryOutcome(r, key, shuffled, [], maxRetries, events)
    ensures TryOutcome(r, key, available, [], maxRetries, events)
  {
    ShuffledMembers(available, shuffled);
  }

  datatype Options = Options(defaultMaxRetries: int, defaultEnableFailover: bool)

  class Balancer {
    const env: Environment
    const opts: Options

    constructor (env: Environment, opts: Options)
      ensures this.env == env && this.opts == opts
    {
      this.env, this.opts := env, opts;
    }

    /** Selects and acquires until one account is held or the tries are used up; a slot taken in vain is given back. */
    method AcquireFromAccounts(key: ProviderKey, accounts: seq<Account>, selReq: SelectRequest, maxRetries: int)
      returns (r: Answer, ghost events: seq<Event>)
      requires env.Valid()
      modifies env, selReq
      ensures env.Valid() && env.mine == old(env.mine) + Taken(r) && env.log == old(env.log) + events
      ensures TryOutcome(r, key, accounts, old(selReq.excludeAccountIDs), maxRetries, events)
      ensures selReq.excludeAccountIDs == old(selReq.excludeAccountIDs) + RefusedIn(events)
    {
      ghost var excluded := selReq.excludeAccountIDs;
      events := [];
      NothingTriedYet(accounts, excluded);
      hide TrySoFar, BetweenTries, TryOutcome, RefusedIn, Remaining, SlotEvents, env.Valid;
      var i := 0;
      while i <= maxRetries
        invariant env.Valid() && env.mine == old(env.mine) && env.log == old(env.log) + events
        invariant TrySoFar(events, accounts, excluded) && BetweenTries(events)
        invariant i == |RefusedIn(events)| <= AllowedTries(maxRetries)
        invariant selReq.excludeAccountIDs == excluded + RefusedIn(events)
        decreases maxRetries - i
      {
        var filtered := ExcludeAccounts(accounts, selReq.excludeAccountIDs);
        if |filtered| == 0 {
          assert filtered == [];
          NobodyLeft(events, accounts, excluded, key, maxRetries);
          return Failure(NoAvailableAccount), events;
        }
        var selected, held;
        ghost var step, before := [], RefusedIn(events);
        selected, held, step := TryOneAccount(filtered, selReq);
        StepTaken(events, accounts, excluded, filtered, selected, held, step, key, maxRetries);
        Associative(old(env.log), events, step);
        events := events + step;
        if selected.Failure? {
          return Failure(VainAnswer(selected.error)), events;
        }
        var chosen := selected.value;
        if held {
          return Success(PickResult(chosen, key, i, false)), events;
        }
        Associative(excluded, before, [chosen.id]);
        selReq.excludeAccountIDs := selReq.excludeAccountIDs + [chosen.id];
        i := i + 1;
      }
      OutOfTries(events, accounts, excluded, key, maxRetries);
      return Failure(MaxRetriesExceeded), events;
    }

    /** Asks the strategy for one of the accounts left and tries for its slot. */
    method TryOneAccount(filtered: seq<Account>, selReq: SelectRequest)
      returns (selected: Result<Account, SelectorError>, held: bool, ghost step: seq<Event>)
      requires env.Valid()
      modifies env
      ensures env.Valid() && env.log == old(env.log) + step && IsStep(step, filtered, selected, held)
      ensures env.mine == if held then old(env.mine) + multiset{selected.value.id} else old(env.mine)
    {
      hide env.Valid;
      selected := env.SelectAccount(filtered, selReq);
      step := [AccountAsked(filtered, selected)];
      if selected.Failure? {
        return selected, false, step;
      }
      ghost var slot;
      held, slot := Hold(selected.value);
      step := step + slot;
      assert step[1..] == slot;
    }

    /** Acquires a slot and notes the use; when the note cannot be stored the slot is given back. */
    method Hold(a: Account) returns (held: bool, ghost slot: seq<Event>)
      requires env.Valid()
      modifies env
      ensures env.Valid() && env.mine == if held then old(env.mine) + multiset{a.id} else old(env.mine)
      ensures env.log == old(env.log) + slot && SlotEvents(slot, a.id, held)
    {
      hide env.Valid, Justified;
      ghost var e;
      held, e := env.Acquire(a);
      slot := [e];
      if held && env.hasStats {
        var stored := env.UpdateLastUsed(a.id);
        slot := [e, UseNoted(a.id, stored)];
        if !stored {
          ghost var start := old(env.mine);
          assert start + multiset{a.id} - multiset{a.id} == start;
          env.Release(a.id);
          return false, [e, UseNoted(a.id, false), SlotReturned(a.id)];
        }
      }
    }

    /** The accounts of one provider: those with room, shuffled, then tried. */
    method TryAccounts(key: ProviderKey, accounts: seq<Account>, selReq: SelectRequest, maxRetries: int)
      returns (r: Answer, ghost events: seq<Event>)
      requires env.Valid() && selReq.excludeAccountIDs == []
      modifies env, selReq
      ensures env.Valid() && env.mine == old(env.mine) + Taken(r) && env.log == old(env.log) + events
      ensures ProviderOutcome(r, key, accounts, maxRetries, events)
    {
      hide env.Valid, TryOutcome, Justified;
      if |accounts| == 0 {
        return Failure(NoAvailableAccount), [];
      }
      ghost var e;
      var available;
      available, e := env.FilterAvailable(accounts);
      events := [e];
      RoomMembers(accounts, available, e);
      if |available| == 0 {
        return Failure(OccupancyFull), events;
      }
      var shuffled := Shuffle(available);
      ghost var more;
      r, more := AcquireFromAccounts(key, shuffled, selReq, maxRetries);
      SameOutcome(r, key, available, shuffled, maxRetries, more);
      Associative(old(env.log), events, more);
      events := events + more;
      assert events[1..] == more;
    }

    /** Looks a provider's accounts up, unless they are in the cache, and tries them. */
    method SelectFromProviderCached(w: World, key: ProviderKey, selReq: SelectRequest, maxRetries: int,
                                    cache: AccountCache)
      returns (r: Answer, ghost events: seq<Event>)
      requires env.Valid() && selReq.excludeAccountIDs == []
      modifies env, selReq, cache
      ensures env.Valid() && env.mine == old(env.mine) + Taken(r) && env.log == old(env.log) + events
      ensures cache.entries ==
              if key !in old(cache.entries) && w.accounts(key, selReq.tags).Success?
              then old(cache.entries)[key := w.accounts(key, selReq.tags).value] else old(cache.entries)
      ensures cache.hits == old(cache.hits) + (if key in old(cache.entries) then 1 else 0)
      ensures if key in old(cache.entries) then ProviderOutcome(r, key, old(cache.entries)[key], maxRetries, events)
              else SelectOutcome(w, r, key, selReq.tags, maxRetries, events)
    {
      hide env.Valid, ProviderOutcome;
      var accounts: seq<Account>;
      events := [];
      if key in cache.entries {
        accounts := cache.entries[key];
        cache.hits := cache.hits + 1;
      } else {
        var resolved := env.ListAccounts(w, key, selReq.tags);
        events := [AccountsListed(key, selReq.tags, resolved)];
        if resolved.Failure? {
          return Failure(Wrapped("resolve accounts")), events;
        }
        accounts := resolved.value;
        cache.entries := cache.entries[key := accounts];
      }
      ghost var before, more := events, [];
      r, more := TryAccounts(key, accounts, selReq, maxRetries);
      events := before + more;
      assert before == [] ==> events == more;
      assert before != [] ==> events[1..] == more;
    }

    /** The named provider only. */
    method PickExact(w: World, selReq: SelectRequest, maxRetries: int) returns (r: Answer, ghost events: seq<Event>)
      requires env.Valid() && selReq.excludeAccountIDs == [] && IsExact(selReq.providerKey)
      modifies env, selReq
      ensures env.Valid() && env.mine == old(env.mine) + Taken(r) && env.log == old(env.log) + events
      ensures ExactOutcome(w, r, selReq.providerKey.value, selReq.model, selReq.tags, maxRetries, events)
    {
      hide env.Valid, ProviderOutcome;
      events := [];
      var resolved := w.provider(selReq.providerKey.value, selReq.model);
      match resolved {
        case Failure(ProviderNotFound) => return Failure(NoSuchProvider), events;
        case Failure(ProviderInactive) => return Failure(NoAvailableProvider), events;
        case Failure(ModelNotSupported) => return Failure(ModelUnsupported), events;
        case Failure(_) => return Failure(Wrapped("resolve provider")), events;
        case Success(p) =>
          var listed := env.ListAccounts(w, p.Key(), selReq.tags);
          events := [AccountsListed(p.Key(), selReq.tags, listed)];
          if listed.Failure? {
            return Failure(Wrapped("resolve accounts")), events;
          }
          ghost var more;
          r, more := TryAccounts(p.Key(), listed.value, selReq, maxRetries);
          events := events + more;
          assert events[1..] == more;
      }
    }

    /** Providers one after the other until one gives an account; each is tried at most once. */
    method PickAuto(w: World, selReq: SelectRequest, maxRetries: int, enableFailover: bool)
      returns (r: Answer, ghost tried: seq<Attempt>, ghost events: seq<Event>, ghost hits: nat)
      requires env.Valid() && selReq.excludeAccountIDs == []
      modifies env, selReq
      ensures env.Valid() && env.mine == old(env.mine) + Taken(r) && env.log == old(env.log) + events
      ensures hits == 0
      ensures AutoOutcome(Ask(w, selReq.model, TypeWanted(selReq.providerKey), selReq.tags, maxRetries, enableFailover),
                          r, tried, events)
    {
      hide TriedSoFar, SearchEnds, EventsOf, env.Valid;
      tried, events, hits := [], [], 0;
      var providerType := "";
      if IsTypeOnly(selReq.providerKey) {
        providerType := selReq.providerKey.value.kind;
      }
      var ask := Ask(w, selReq.model, providerType, selReq.tags, maxRetries, enableFailover);
      var resolved := w.providers(selReq.model, providerType);
      if resolved.Failure? {
        return Failure(Wrapped("resolve providers")), tried, events, hits;
      }
      var candidates := resolved.value;
      if |candidates| == 0 {
        return Failure(ModelUnsupported), tried, events, hits;
      }
      var shuffled := Shuffle(candidates);
      ShuffledMembers(candidates, shuffled);
      r, tried, events, hits := TryProviders(ask, candidates, shuffled, selReq);
    }

    /** One provider after the other; with nothing left that was not tried, no provider is available. */
    method TryProviders(ask: Ask, ghost offered: seq<Provider>, candidates: seq<Provider>, selReq: SelectRequest)
      returns (r: Answer, ghost tried: seq<Attempt>, ghost events: seq<Event>, ghost hits: nat)
      requires env.Valid() && selReq.excludeAccountIDs == [] && selReq.tags == ask.tags
      requires ask.w.providers(ask.model, ask.providerType) == Success(offered) && offered != []
      requires forall p :: p in candidates <==> p in offered
      modifies env, selReq
      ensures env.Valid() && env.mine == old(env.mine) + Taken(r) && env.log == old(env.log) + events
      ensures hits == 0
      ensures AutoOutcome(ask, r, tried, events)
    {
      hide AutoOutcome, TriedSoFar, SearchEnds, ProviderTried, SelectOutcome, EventsOf, KeysTried, KeysOf, Elements,
        env.Valid;
      tried := [];
      NoneTried(ask, offered);
      var excludeKeys: seq<ProviderKey> := [];
      var cache := new AccountCache();
      while true
        invariant env.Valid() && env.mine == old(env.mine) && env.log == old(env.log) + EventsOf(tried)
        invariant selReq.excludeAccountIDs == []
        invariant fresh(cache) && cache.hits == 0 && cache.entries.Keys <= Elements(excludeKeys)
        invariant TriedSoFar(ask, offered, tried) && excludeKeys == KeysTried(tried)
        decreases KeysOf(offered) - Elements(excludeKeys)
      {
        var cancelled := env.Cancelled();
        if cancelled {
          CancelledNow(ask, offered, tried);
          SearchIs(ask, offered, tried, Failure(Cancelled), [CancellationNoticed]);
          return Failure(Cancelled), tried, EventsOf(tried) + [CancellationNoticed], cache.hits;
        }
        var filtered := FilterProviders(candidates, excludeKeys);
        if |filtered| == 0 {
          assert filtered == [];
          AllTried(ask, offered, tried);
          SearchIs(ask, offered, tried, Failure(NoAvailableProvider), []);
          return Failure(NoAvailableProvider), tried, EventsOf(tried) + [], cache.hits;
        }
        ghost var last;
        var key;
        r, last, key := TryOneProvider(ask, offered, tried, filtered, selReq, cache);
        Associative(old(env.log), EventsOf(tried), last);
        if r.Failure? && ask.failover && Retryable(r.error) {
          OneMoreTried(ask, offered, tried, Attempt(key, r.error, last));
          tried := tried + [Attempt(key, r.error, last)];
          excludeKeys := excludeKeys + [key];
          selReq.excludeAccountIDs := [];
          continue;
        }
        SearchIs(ask, offered, tried, r, last);
        return r, tried, EventsOf(tried) + last, cache.hits;
      }
    }

    /** Asks the strategy for one of the providers left and tries it; its accounts are looked up for the first time. */
    method TryOneProvider(ask: Ask, ghost offered: seq<Provider>, ghost tried: seq<Attempt>, filtered: seq<Provider>,
                          selReq: SelectRequest, cache: AccountCache)
      returns (r: Answer, ghost events: seq<Event>, key: ProviderKey)
      requires env.Valid() && selReq.excludeAccountIDs == [] && selReq.tags == ask.tags
      requires Untried(filtered, offered, tried) && filtered != []
      requires cache.entries.Keys <= Elements(KeysTried(tried))
      modifies env, selReq, cache
      ensures env.Valid() && env.mine == old(env.mine) + Taken(r) && env.log == old(env.log) + events
      ensures cache.entries.Keys <= old(cache.entries).Keys + {key} && cache.hits == old(cache.hits)
      ensures r.Failure? && Retryable(r.error) ==>
                && key in KeysOf(offered) && key !in KeysTried(tried)
                && ProviderTried(ask, offered, tried, key, r, events)
      ensures (r.Failure? && ask.failover && Retryable(r.error)) || SearchEnds(ask, offered, tried, r, events)
    {
      hide SearchEnds, ProviderTried, SelectOutcome, KeysTried, KeysOf, Elements, Untried, env.Valid;
      var chosen := env.SelectProvider(filtered, selReq);
      events := [ProviderAsked(filtered, chosen)];
      if chosen.Failure? {
        StrategyFailed(ask, offered, tried, filtered, chosen.error);
        return Failure(Wrapped("group select")), events, ProviderKey("", "");
      }
      key := chosen.value.Key();
      FreshProvider(offered, tried, filtered, chosen.value);
      ghost var more;
      r, more := SelectFromProviderCached(ask.w, key, selReq, ask.maxRetries, cache);
      ProviderTriedNow(ask, offered, tried, filtered, chosen.value, r, more);
      events := events + more;
      if !(r.Failure? && ask.failover && Retryable(r.error)) {
        EndsHere(ask, offered, tried, key, r, events);
      }
    }

    /** All providers of the type an exact request named. */
    method FallBack(w: World, selReq: SelectRequest, maxRetries: int, enableFailover: bool)
      returns (r: Answer, ghost tried: seq<Attempt>, ghost events: seq<Event>)
      requires env.Valid() && IsExact(selReq.providerKey)
      modifies env
      ensures env.Valid() && env.mine == old(env.mine) + Taken(r) && env.log == old(env.log) + events
      ensures AutoOutcome(Ask(w, selReq.model, KindAsked(selReq.providerKey), selReq.tags, maxRetries, enableFailover),
                          r, tried, events)
    {
      hide AutoOutcome, env.Valid;
      var fallbackKey: Option<ProviderKey> := None;
      if selReq.providerKey.value.kind != "" {
        fallbackKey := Some(ProviderKey(selReq.providerKey.value.kind, ""));
      }
      var fallbackReq := new SelectRequest(selReq.userID, selReq.model, fallbackKey, selReq.tags);
      ghost var hits;
      r, tried, events, hits := PickAuto(w, fallbackReq, maxRetries, enableFailover);
    }

    /** The exact provider first and, when it fails and failover is on, all providers of its type. */
    method PickExactFirst(during: World, after: World, selReq: SelectRequest, maxRetries: int, enableFailover: bool)
      returns (r: Answer, ghost run: PickRun)
      requires env.Valid() && selReq.excludeAccountIDs == [] && IsExact(selReq.providerKey)
      modifies env, selReq
      ensures env.Valid() && env.mine == old(env.mine) + Taken(r) && env.log == old(env.log) + run.Events()
      ensures run.exact.Some?
      ensures ExactOutcome(during, run.exact.value, selReq.providerKey.value, selReq.model, selReq.tags, maxRetries,
                run.exactEvents)
      ensures if run.exact.value.Failure? && enableFailover then run.auto.Some?
              else run.auto.None? && run.autoEvents == []
      ensures run.auto.Some? ==>
                AutoOutcome(Ask(after, selReq.model, KindAsked(selReq.providerKey), selReq.tags, maxRetries,
                  enableFailover),
                            run.auto.value, run.tried, run.autoEvents)
      ensures r == run.Answer()
    {
      hide AutoOutcome, ExactOutcome, env.Valid;
      ghost var events;
      r, events := PickExact(during, selReq, maxRetries);
      run := PickRun(Some(r), events, None, [], []);
      if r.Failure? && enableFailover {
        var second;
        ghost var tried;
        second, tried, events := FallBack(after, selReq, maxRetries, enableFailover);
        run := run.(auto := Some(second), tried := tried, autoEvents := events);
        if second.Success? {
          r := Success(second.value.(fallback := true));
        }
      }
    }

    /** during and after are what the resolver answers in the two searches; run records how each ended. */
    method Pick(during: World, after: World, req: PickRequest) returns (r: Answer, ghost run: PickRun)
      requires env.Valid()
      modifies env
      ensures env.Valid() && env.mine == old(env.mine) + Taken(r) && env.log == old(env.log) + run.Events()
      ensures PickOutcome(opts, during, after, req, r, run)
    {
      hide AutoOutcome, ExactOutcome, env.Valid;
      run := PickRun(None, [], None, [], []);
      if req.model == "" {
        return Failure(ModelRequired), run;
      }
      var selReq := new SelectRequest(req.userID, req.model, req.providerKey, req.tags);
      var maxRetries := req.maxRetries;
      if maxRetries <= 0 {
        maxRetries := opts.defaultMaxRetries;
      }
      var enableFailover := req.enableFailover || opts.defaultEnableFailover;
      if IsExact(selReq.providerKey) {
        r, run := PickExactFirst(during, after, selReq, maxRetries, enableFailover);
      } else {
        ghost var tried, events, hits;
        r, tried, events, hits := PickAuto(after, selReq, maxRetries, enableFailover);
        run := run.(auto := Some(r), tried := tried, autoEvents := events);
      }
    }
  }

  /** How the exact search and the search over all providers ended, those that took place, and what each logged. */
  datatype PickRun = PickRun(
    exact: Option<Answer>, exactEvents: seq<Event>,
    auto: Option<Answer>, tried: seq<Attempt>, autoEvents: seq<Event>)
  {
    function Events(): seq<Event> {
      exactEvents + autoEvents
    }

    /** The exact search's answer, unless a fallback found an account; that one is marked. */
    function Answer(): Answer
      requires exact.Some? || auto.Some?
    {
      if exact.None? then auto.value
      else if auto.Some? && auto.value.Success? then Success(auto.value.value.(fallback := true))
      else exact.value
    }
  }

  /** The search over all providers follows when no exact provider was asked for, or it failed and failover is on. */
  ghost predicate PickOutcome(opts: Options, during: World, after: World, req: PickRequest, r: Answer, run: PickRun) {
    if req.model == "" then r == Failure(ModelRequired) && run.Events() == []
    else
      && (if req.providerKey.Some? && req.providerKey.value.kind != "" && req.providerKey.value.name != "" then
            && run.exact.Some?
            && ExactOutcome(during, run.exact.value, req.providerKey.value, req.model, req.tags, Retries(opts, req),
                            run.exactEvents)
          else run.exact.None? && run.exactEvents == [])
      && (if || run.exact.None?
             || (run.exact.value.Failure? && (req.enableFailover || opts.defaultEnableFailover)) then
            run.auto.Some? && AutoOutcome(AskFor(opts, after, req), run.auto.value, run.tried, run.autoEvents)
          else run.auto.None? && run.autoEvents == [])
      && r == run.Answer()
  }

  /** A request without a positive number of retries gets the default. */
  function Retries(opts: Options, req: PickRequest): int {
    if req.maxRetries <= 0 then opts.defaultMaxRetries else req.maxRetries
  }

  predicate Failover(opts: Options, req: PickRequest) {
    req.enableFailover || opts.defaultEnableFailover
  }

  /** The provider type a key without a name restricts the search to. */
  function TypeWanted(key: Option<ProviderKey>): string {
    if key.Some? && key.value.name == "" then key.value.kind else ""
  }

  /** The provider type asked for, alone or as part of an exact key. */
  function KindAsked(key: Option<ProviderKey>): string {
    if key.Some? then key.value.kind else ""
  }

  /** The search over all providers that a request calls for, at once or as a fallback. */
  function AskFor(opts: Options, w: World, req: PickRequest): Ask {
    Ask(w, req.model, KindAsked(req.providerKey), req.tags, Retries(opts, req), Failover(opts, req))
  }
}
