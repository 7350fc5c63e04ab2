/** Reporting the outcome of calls, one report at a time: statistics, quota, cooldown and the circuit breaker. */
module Reporting {
  import opened Prelude
  import opened Entities
  import opened StoreRelations
  import opened MemoryStore
  import opened StatsRecord
  import opened UsageRecord
  import opened UsageTracker
  import opened Occupancy
  import Breaker = CircuitBreaker

  datatype ReportError = AccountNotFound

  /** What the balancer learns from a failed call. */
  datatype CallError = CallError(message: string, rateLimited: bool, retryAfter: Option<int>)

  /** The time left in the shortest window ahead, if any rule has one. */
  function ShortestWindow(rules: seq<Option<UsageRule>>, now: int): Option<int> {
    if rules == [] then None
    else
      var rest, last := ShortestWindow(rules[..|rules| - 1], now), rules[|rules| - 1];
      if Breaker.WindowAhead(last, now) && (rest.None? || last.value.windowEnd.value - now < rest.value)
      then Some(last.value.windowEnd.value - now) else rest
  }

  /** When a cooldown ends: as told, else with the shortest window, else after the default. */
  function CooldownEnd(rules: seq<Option<UsageRule>>, until: Option<int>, defaultDuration: int, now: int): int {
    if until.Some? then until.value
    else if ShortestWindow(rules, now).Some? then now + ShortestWindow(rules, now).value
    else now + defaultDuration
  }

  /** The window ahead that ends first decides. */
  lemma {:induction false} ShortestWindowIsLeast(rules: seq<Option<UsageRule>>, now: int)
    ensures ShortestWindow(rules, now).None? <==> forall r :: r in rules ==> !Breaker.WindowAhead(r, now)
    ensures ShortestWindow(rules, now).Some? ==>
              var end := now + ShortestWindow(rules, now).value;
              && (exists r :: r in rules && Breaker.WindowAhead(r, now) && r.value.windowEnd.value == end)
              && (forall r :: r in rules && Breaker.WindowAhead(r, now) ==> end <= r.value.windowEnd.value)
  {
    if rules != [] {
      var before, last := rules[..|rules| - 1], rules[|rules| - 1];
      assert rules == before + [last];
      ShortestWindowIsLeast(before, now);
      assert last in rules;
    }
  }

  /** end is where the first window of a valid rule ends that lies ahead, or the default from now if none does. */
  ghost predicate EndsFirst(rules: seq<Option<UsageRule>>, defaultDuration: int, now: int, end: int) {
    if forall r :: r in rules && r.Some? && r.value.valid && r.value.windowEnd.Some? ==> r.value.windowEnd.value <= now
    then end == now + defaultDuration
    else
      && end > now
      && (exists r :: r in rules && r.Some? && r.value.valid && r.value.windowEnd == Some(end))
      && (forall r :: r in rules && Breaker.WindowAhead(r, now) ==> end <= r.value.windowEnd.value)
  }

  method StartCooldown(a: Account, until: Option<int>, defaultDuration: int, now: int) returns (after: Account)
    ensures after == a.(cooldownUntil := Some(CooldownEnd(a.usageRules, until, defaultDuration, now)))
    ensures until.Some? ==> after.cooldownUntil == until
    ensures until.None? ==> EndsFirst(a.usageRules, defaultDuration, now, after.cooldownUntil.value)
  {
    ShortestWindowIsLeast(a.usageRules, now);
    if until.Some? {
      return a.(cooldownUntil := until);
    }
    var minRemain: Option<int> := None;
    for i := 0 to |a.usageRules|
      invariant minRemain == ShortestWindow(a.usageRules[..i], now)
    {
      assert a.usageRules[..i + 1][..i] == a.usageRules[..i];
      var rule := a.usageRules[i];
      if Breaker.WindowAhead(rule, now) {
        var remain := rule.value.windowEnd.value - now;
        if minRemain.None? || remain < minRemain.value {
          minRemain := Some(remain);
        }
      }
    }
    assert a.usageRules[..|a.usageRules|] == a.usageRules;
    return a.(cooldownUntil := Some(now + (if minRemain.Some? then minRemain.value else defaultDuration)));
  }

  // ---- What one report does ----

  datatype Settings = Settings(notify: bool, safetyRatio: real, breaker: Option<Breaker.Options>, cooldown: Option<int>)

  /** What the reports on one account read and write. */
  datatype Book = Book(accounts: Accounts, stats: AccountStats, used: seq<TrackedUsage>)

  /** The status with its times, and the next version. */
  ghost predicate StatusWritten(before: Account, after: Account, status: int, cooldownUntil: Option<int>,
                                circuitOpenUntil: Option<int>, now: int)
  {
    after == before.(status := status, cooldownUntil := cooldownUntil, circuitOpenUntil := circuitOpenUntil,
                     updatedAt := now, version := before.version + 1)
  }

  ghost predicate Cooled(before: Accounts, after: Accounts, id: string, until: Option<int>, defaultDuration: int,
                         now: int)
  {
    && id in before && id in after && after == before[id := after[id]]
    && StatusWritten(before[id], after[id], STATUS_COOLING_DOWN,
                     Some(CooldownEnd(before[id].usageRules, until, defaultDuration, now)),
                       before[id].circuitOpenUntil, now)
  }

  ghost predicate Opened(before: Accounts, after: Accounts, id: string, opts: Breaker.Options, now: int) {
    && id in before && id in after && after == before[id := after[id]]
    && after[id].circuitOpenUntil.Some?
    && Breaker.IsTimeout(opts, before[id].usageRules, now, after[id].circuitOpenUntil.value - now)
    && StatusWritten(before[id], after[id], STATUS_CIRCUIT_OPEN, before[id].cooldownUntil, after[id].circuitOpenUntil,
       now)
  }

  /** Recording one request: every live rule in reach is credited, and an available account at its quota is cooled. */
  ghost predicate RequestRecorded(conf: Settings, before: Book, after: Book, id: string, now: int) {
    && after.used == Recorded(before.used, now, Requests, 1.0)
    && if conf.notify && Live(before.used, now) != [] && ReachesSafety(after.used, now, Requests, conf.safetyRatio)
          && conf.cooldown.Some? && id in before.accounts && before.accounts[id].Available()
       then Cooled(before.accounts, after.accounts, id, None, conf.cooldown.value, now)
       else after.accounts == before.accounts
  }

  ghost predicate SuccessReported(conf: Settings, before: Book, after: Book, id: string, now: int) {
    && after.stats == AfterReports(before.stats, [Succeeded(now)])
    && RequestRecorded(conf, before, after, id, now)
  }

  /** mid is the book after the request was counted and recorded, before the error is judged. */
  ghost predicate FailureReported(conf: Settings, before: Book, mid: Book, after: Book, id: string, callErr: CallError,
                                  now: int)
  {
    && mid.stats == after.stats == AfterReports(before.stats, [FailedWith(now, callErr.message)])
    && RequestRecorded(conf, before, mid, id, now)
    && if id !in mid.accounts then after == mid
       else if callErr.rateLimited then
         && after.used == Drained(mid.used, now, Requests, |Live(mid.used, now)|)
         && if conf.cooldown.Some?
            then Cooled(mid.accounts, after.accounts, id, callErr.retryAfter, conf.cooldown.value, now)
            else after.accounts == mid.accounts
       else
         && after.used == mid.used
         && if conf.breaker.Some?
            && Breaker.Trips(conf.breaker.value, mid.accounts[id].usageRules, after.stats.consecutiveFailures)
            then Opened(mid.accounts, after.accounts, id, conf.breaker.value, now)
            else after.accounts == mid.accounts
  }

  class Reporter {
    const store: Store
    const tracker: UsageTracker
    const slots: OccupancyStore
    const breaker: Option<Breaker.Options>
    const cooldown: Option<int>

    constructor (store: Store, tracker: UsageTracker, slots: OccupancyStore, breaker: Option<Breaker.Options>,
                 cooldown: Option<int>)
      ensures this.store == store && this.tracker == tracker && this.slots == slots
      ensures this.breaker == breaker && this.cooldown == cooldown
    {
      this.store, this.tracker, this.slots, this.breaker, this.cooldown := store, tracker, slots, breaker, cooldown;
    }

    ghost function BookOf(id: string): Book
      reads store, tracker.store
    {
      Book(store.accounts, StatsOf(store.statsStore, id), UsagesOf(tracker.store.usageStore, id))
    }

    ghost function InForce(): Settings {
      Settings(tracker.hasCallback, tracker.safetyRatio, breaker, cooldown)
    }

    /** The quota callback cools an available account and leaves any other alone. */
    method OnQuotaExhausted(id: string, now: int)
      requires store.Valid()
      modifies store`accounts, store`providers
      ensures store.Valid()
      ensures if cooldown.Some? && id in old(store.accounts) && old(store.accounts)[id].Available()
              then Cooled(old(store.accounts), store.accounts, id, None, cooldown.value, now)
              else store.accounts == old(store.accounts) && store.providers == old(store.providers)
    {
      if cooldown.None? {
        return;
      }
      var got := store.GetAccount(id);
      if got.Failure? || got.value.status != STATUS_AVAILABLE {
        return;
      }
      var a := StartCooldown(got.value, None, cooldown.value, now);
      a := a.(status := STATUS_COOLING_DOWN, updatedAt := now);
      var _ := store.UpdateAccount(a, {FieldStatus}, now);
    }

    method RecordRequest(id: string, now: int)
      requires store.Valid()
      modifies store`accounts, store`providers, tracker.store`usageStore
      ensures store.Valid()
      ensures RequestRecorded(InForce(), old(BookOf(id)), BookOf(id), id, now)
      ensures forall other :: other != id ==>
                UsagesOf(tracker.store.usageStore, other) == UsagesOf(old(tracker.store.usageStore), other)
    {
      hide Keyed, AccountIndexAgrees, TypeIndexAgrees, ModelIndexAgrees, CountersAgree;
      var _, fired := tracker.RecordUsage(id, Requests, 1.0, now, now);
      if fired.Some? {
        OnQuotaExhausted(id, now);
      }
    }

    /**
     Gives the slot back and counts the call. A success resets the failure counter before the breaker looks at it, so an
     open circuit is never closed here: the account changes only when the quota callback cools it.
     */
    method ReportSuccess(id: string, now: int)
      requires store.Valid()
      modifies slots, store`accounts, store`providers, store`statsStore, tracker.store`usageStore
      ensures store.Valid() && slots.counters == Decrement(old(slots.counters), id)
      ensures SuccessReported(InForce(), old(BookOf(id)), BookOf(id), id, now)
      ensures forall other :: other != id ==> StatsOf(store.statsStore, other) == StatsOf(old(store.statsStore), other)
      ensures id in old(store.accounts) && old(store.accounts)[id].status == STATUS_CIRCUIT_OPEN ==>
                store.accounts == old(store.accounts)
    {
      hide Keyed, AccountIndexAgrees, TypeIndexAgrees, ModelIndexAgrees, CountersAgree;
      slots.DecrOccupancy(id);
      store.IncrSuccess(id, now);
      SuccessClearsRun(StatsOf(old(store.statsStore), id), now);
      RecordRequest(id, now);
      if breaker.Some? {
        var stats := store.GetStats(id);
        if stats.consecutiveFailures > 0 {
          assert false;
        }
        store.ResetConsecutiveFailures(id);
      }
    }

    lemma StoredUnderItsId(id: string)
      requires store.Valid() && id in store.accounts
      ensures store.accounts[id].id == id
    {}

    /** Saves the status of a copy nobody has overtaken. */
    method SaveStatus(a: Account, now: int)
      requires store.Valid() && a.id in store.accounts && store.accounts[a.id].version == a.version
      modifies store`accounts, store`providers
      ensures store.Valid()
      ensures a.id in store.accounts && store.accounts == old(store.accounts)[a.id := store.accounts[a.id]]
      ensures StatusWritten(old(store.accounts)[a.id], store.accounts[a.id], a.status, a.cooldownUntil,
                a.circuitOpenUntil, now)
    {
      var _ := store.UpdateAccount(a.(updatedAt := now), {FieldStatus}, now);
    }

    /**
     Gives the slot back, counts the call and judges the error. With nobody writing in between, the status write
     commits.
     */
    method ReportFailure(id: string, callErr: CallError, now: int) returns (err: Option<ReportError>, ghost mid: Book)
      requires store.Valid()
      modifies slots, store`accounts, store`providers, store`statsStore, tracker.store`usageStore
      ensures store.Valid() && slots.counters == Decrement(old(slots.counters), id)
      ensures FailureReported(InForce(), old(BookOf(id)), mid, BookOf(id), id, callErr, now)
      ensures err == if id in old(store.accounts) then None else Some(AccountNotFound)
      ensures forall other :: other != id ==> StatsOf(store.statsStore, other) == StatsOf(old(store.statsStore), other)
    {
      hide Keyed, AccountIndexAgrees, TypeIndexAgrees, ModelIndexAgrees, CountersAgree;
      hide Recorded, Drained, CooldownEnd, ReachesSafety, Breaker.Trips, Breaker.IsTimeout, Live, RequestRecorded;
      slots.DecrOccupancy(id);
      var consecutiveFailures := store.IncrFailure(id, callErr.message, now);
      ghost var counted := BookOf(id);
      RecordRequest(id, now);
      mid := BookOf(id);
      SameRecording(InForce(), old(BookOf(id)), counted, mid, id, now);
      var got := store.GetAccount(id);
      if got.Failure? {
        return Some(AccountNotFound), mid;
      }
      if callErr.rateLimited {
        var _ := tracker.CalibrateFromResponse(id, Requests, now);
      }
      var needUpdate, a := Judge(got.value, callErr, consecutiveFailures, now);
      if needUpdate {
        StoredUnderItsId(id);
        SaveStatus(a, now);
      }
      return None, mid;
    }

    /** What the error makes of the account: cooling down after a rate limit, circuit open after too many others. */
    method Judge(a: Account, callErr: CallError, consecutiveFailures: int, now: int)
      returns (needUpdate: bool, judged: Account)
      ensures needUpdate <==>
                if callErr.rateLimited then cooldown.Some?
                else breaker.Some? && Breaker.Trips(breaker.value, a.usageRules, consecutiveFailures)
      ensures !needUpdate ==> judged == a
      ensures needUpdate && callErr.rateLimited ==>
                judged == a.(cooldownUntil := Some(CooldownEnd(a.usageRules, callErr.retryAfter, cooldown.value, now)),
                             status := STATUS_COOLING_DOWN)
      ensures needUpdate && !callErr.rateLimited ==>
                && judged == a.(circuitOpenUntil := judged.circuitOpenUntil, status := STATUS_CIRCUIT_OPEN)
                && judged.circuitOpenUntil.Some?
                && Breaker.IsTimeout(breaker.value, a.usageRules, now, judged.circuitOpenUntil.value - now)
    {
      needUpdate, judged := false, a;
      if callErr.rateLimited {
        if cooldown.Some? {
          judged := StartCooldown(a, callErr.retryAfter, cooldown.value, now);
          judged := judged.(status := STATUS_COOLING_DOWN);
          needUpdate := true;
        }
      } else if breaker.Some? {
        needUpdate, judged := Breaker.RecordFailure(breaker.value, a, consecutiveFailures, now);
        if needUpdate {
          judged := judged.(status := STATUS_CIRCUIT_OPEN);
        }
      }
    }
  }

  /** Recording a request does not look at the statistics, and adds or removes no account. */
  lemma SameRecording(conf: Settings, before: Book, counted: Book, after: Book, id: string, now: int)
    requires RequestRecorded(conf, counted, after, id, now)
    requires counted.accounts == before.accounts && counted.used == before.used
    ensures RequestRecorded(conf, before, after, id, now)
    ensures id in after.accounts <==> id in before.accounts
  {
    hide Recorded, CooldownEnd, ReachesSafety, Live;
  }

  lemma SuccessClearsRun(st: AccountStats, now: int)
    ensures AfterReports(st, [Succeeded(now)]).consecutiveFailures == 0
  {
    assert [Succeeded(now)][..0] == [];
  }

  lemma FailureCounts(st: AccountStats, now: int, msg: string)
    ensures AfterReports(st, [FailedWith(now, msg)]).consecutiveFailures == st.consecutiveFailures + 1
  {
    assert [FailedWith(now, msg)][..0] == [];
  }

  lemma OneMoreReport(reports: seq<Report>, r: Report)
    ensures AfterReports(AfterReports(FRESH, reports), [r]) == AfterReports(FRESH, reports + [r])
  {
    assert (reports + [r])[..|reports|] == reports && [r][..0] == [];
  }

  /**
   A failure report replaces a banned, invalidated, disabled or circuit-open status exactly when the error is a rate
   limit and cooldowns are on, or it is another error and the failure run has reached the threshold.
   */
  lemma SettledIsReplacedIff(conf: Settings, before: Book, mid: Book, after: Book, id: string, callErr: CallError,
                             now: int, threshold: int)
    requires FailureReported(conf, before, mid, after, id, callErr, now)
    requires id in before.accounts && before.accounts[id].status in
               {STATUS_BANNED, STATUS_INVALIDATED, STATUS_DISABLED, STATUS_CIRCUIT_OPEN}
    requires conf.breaker.Some? ==> Breaker.IsThreshold(conf.breaker.value, before.accounts[id].usageRules, threshold)
    ensures after.accounts != before.accounts <==>
            if callErr.rateLimited then conf.cooldown.Some?
            else conf.breaker.Some? && before.stats.consecutiveFailures + 1 >= threshold
  {
    hide Breaker.Trips, Breaker.IsTimeout, Recorded, Drained, AfterReports;
    FailureCounts(before.stats, now, callErr.message);
    if conf.breaker.Some? {
      Breaker.TripsAtThreshold(conf.breaker.value, before.accounts[id].usageRules, after.stats.consecutiveFailures,
        threshold);
    }
    assert mid.accounts == before.accounts;
    assert after.accounts == before.accounts || after.accounts[id].version != before.accounts[id].version;
  }

  // ---- Whole histories ----

  /** One finished call. */
  datatype Outcome = Worked(now: int) | Broke(now: int, error: CallError)

  function AsReport(o: Outcome): Report {
    match o
    case Worked(now) => Succeeded(now)
    case Broke(now, error) => FailedWith(now, error.message)
  }

  function AsReports(outcomes: seq<Outcome>): seq<Report> {
    seq(|outcomes|, i requires 0 <= i < |outcomes| => AsReport(outcomes[i]))
  }

  ghost predicate Reported(conf: Settings, before: Book, after: Book, id: string, o: Outcome) {
    match o
    case Worked(now) => SuccessReported(conf, before, after, id, now)
    case Broke(now, error) => exists mid :: FailureReported(conf, before, mid, after, id, error, now)
  }

  /** The last of the reports should trip the breaker: it is no rate limit and ends a run as long as the threshold. */
  ghost predicate ShouldTrip(outcomes: seq<Outcome>, threshold: int) {
    && outcomes != [] && var last := outcomes[|outcomes| - 1];
    && last.Broke? && !last.error.rateLimited
    && exists run: nat :: EndsInFailures(AsReports(outcomes), run) && run >= threshold
  }

  /** Between two books the circuit of the account was opened. */
  predicate OpensCircuit(before: Book, after: Book, id: string) {
    && id in before.accounts && id in after.accounts
    && after.accounts[id].status == STATUS_CIRCUIT_OPEN && after.accounts[id].version != before.accounts[id].version
  }

  /**
   How long the circuit is open is what the last report that should trip computed, or what it was when there is none.
   */
  ghost predicate OpenUntilLastTrip(opts: Breaker.Options, initial: Account, outcomes: seq<Outcome>, threshold: int,
                                    until: Option<int>)
  {
    if outcomes == [] then until == initial.circuitOpenUntil
    else
      var last := outcomes[|outcomes| - 1].now;
      if ShouldTrip(outcomes, threshold)
      then until.Some? && Breaker.IsTimeout(opts, initial.usageRules, last, until.value - last)
      else OpenUntilLastTrip(opts, initial, outcomes[..|outcomes| - 1], threshold, until)
  }

  /** Some report should have tripped. */
  ghost predicate EverTrips(outcomes: seq<Outcome>, threshold: int) {
    outcomes != [] && (ShouldTrip(outcomes, threshold) || EverTrips(outcomes[..|outcomes| - 1], threshold))
  }

  /** What a history of reports makes of the account. */
  ghost predicate AccountFollows(opts: Breaker.Options, initial: Account, outcomes: seq<Outcome>, threshold: int,
                                 now: Account)
  {
    && now.usageRules == initial.usageRules
    && OpenUntilLastTrip(opts, initial, outcomes, threshold, now.circuitOpenUntil)
    && (ShouldTrip(outcomes, threshold) ==> now.status == STATUS_CIRCUIT_OPEN)
    && (now.status == STATUS_CIRCUIT_OPEN ==> initial.status == STATUS_CIRCUIT_OPEN || EverTrips(outcomes, threshold))
  }

  /** What one more report does to the account, seen from the whole history. */
  lemma OneMoreOutcome(conf: Settings, before: Book, after: Book, id: string, opts: Breaker.Options, initial: Account,
                       outcomes: seq<Outcome>, threshold: int)
    requires outcomes != [] && Reported(conf, before, after, id, outcomes[|outcomes| - 1])
    requires conf.breaker == Some(opts) && Breaker.IsThreshold(opts, initial.usageRules, threshold)
    requires before.stats == AfterReports(FRESH, AsReports(outcomes[..|outcomes| - 1]))
    requires id in before.accounts
              && AccountFollows(opts, initial, outcomes[..|outcomes| - 1], threshold, before.accounts[id])
    ensures after.stats == AfterReports(FRESH, AsReports(outcomes))
    ensures id in after.accounts && AccountFollows(opts, initial, outcomes, threshold, after.accounts[id])
    ensures OpensCircuit(before, after, id) <==> ShouldTrip(outcomes, threshold)
  {
    var earlier, last := outcomes[..|outcomes| - 1], outcomes[|outcomes| - 1];
    assert AsReports(outcomes) == AsReports(earlier) + [AsReport(last)];
    OneMoreReport(AsReports(earlier), AsReport(last));
    Breaker.TripsExactlyOnRun(AsReports(outcomes), threshold);
    hide AfterReports, AsReports, AccountFollows, ShouldTrip, FailureReported, SuccessReported, Breaker.IsThreshold;
    match last {
      case Worked(now) =>
        SuccessKeepsCircuit(conf, before, after, id, now);
        NoTrip(opts, initial, outcomes, threshold, before.accounts[id], after.accounts[id]);
      case Broke(now, error) =>
        var mid :| FailureReported(conf, before, mid, after, id, error, now);
        FailureOpensIff(conf, before, mid, after, id, error, now, threshold);
        TripDecided(outcomes, threshold, after.stats.consecutiveFailures);
        if ShouldTrip(outcomes, threshold) {
          TripFollows(opts, initial, outcomes, threshold, before.accounts[id], after.accounts[id]);
        } else {
          NoTrip(opts, initial, outcomes, threshold, before.accounts[id], after.accounts[id]);
        }
    }
  }

  /** The account was not opened: its rules and the end of its circuit are kept, and it is open only if it was. */
  predicate CircuitKept(before: Account, after: Account) {
    && after.usageRules == before.usageRules && after.circuitOpenUntil == before.circuitOpenUntil
    && (after.status == STATUS_CIRCUIT_OPEN ==> after == before)
  }

  ghost predicate CircuitOpened(opts: Breaker.Options, before: Account, after: Account, now: int) {
    && after.usageRules == before.usageRules && after.status == STATUS_CIRCUIT_OPEN && after.version != before.version
    && after.circuitOpenUntil.Some?
       && Breaker.IsTimeout(opts, before.usageRules, now, after.circuitOpenUntil.value - now)
  }

  lemma SuccessKeepsCircuit(conf: Settings, before: Book, after: Book, id: string, now: int)
    requires SuccessReported(conf, before, after, id, now) && id in before.accounts
    ensures id in after.accounts && CircuitKept(before.accounts[id], after.accounts[id])
    ensures !OpensCircuit(before, after, id)
  {
    hide Recorded, CooldownEnd, ReachesSafety;
  }

  /**
   A failure report opens the circuit exactly when the error is no rate limit and the counter reaches the threshold.
   */
  lemma FailureOpensIff(conf: Settings, before: Book, mid: Book, after: Book, id: string, callErr: CallError, now: int,
                        threshold: int)
    requires FailureReported(conf, before, mid, after, id, callErr, now) && id in before.accounts && conf.breaker.Some?
    requires Breaker.IsThreshold(conf.breaker.value, before.accounts[id].usageRules, threshold)
    ensures id in after.accounts
    ensures var opens := !callErr.rateLimited && after.stats.consecutiveFailures >= threshold;
            && (OpensCircuit(before, after, id) <==> opens)
            && if opens then CircuitOpened(conf.breaker.value, before.accounts[id], after.accounts[id], now)
               else CircuitKept(before.accounts[id], after.accounts[id])
  {
    Breaker.TripsAtThreshold(conf.breaker.value, before.accounts[id].usageRules, after.stats.consecutiveFailures,
      threshold);
    hide Recorded, Drained, CooldownEnd, ReachesSafety, Live, AfterReports, Breaker.Trips, Breaker.IsThreshold,
      Breaker.IsTimeout;
  }

  lemma TripDecided(outcomes: seq<Outcome>, threshold: int, failures: int)
    requires outcomes != [] && failures == AfterReports(FRESH, AsReports(outcomes)).consecutiveFailures
    ensures var last := outcomes[|outcomes| - 1];
            ShouldTrip(outcomes, threshold) <==> last.Broke? && !last.error.rateLimited && failures >= threshold
  {
    Breaker.TripsExactlyOnRun(AsReports(outcomes), threshold);
  }

  lemma NoTrip(opts: Breaker.Options, initial: Account, outcomes: seq<Outcome>, threshold: int, before: Account,
               after: Account)
    requires outcomes != [] && AccountFollows(opts, initial, outcomes[..|outcomes| - 1], threshold, before)
    requires CircuitKept(before, after) && !ShouldTrip(outcomes, threshold)
    ensures AccountFollows(opts, initial, outcomes, threshold, after)
  {
    hide ShouldTrip, Breaker.IsTimeout;
  }

  lemma TripFollows(opts: Breaker.Options, initial: Account, outcomes: seq<Outcome>, threshold: int, before: Account,
                    after: Account)
    requires outcomes != [] && AccountFollows(opts, initial, outcomes[..|outcomes| - 1], threshold, before)
    requires CircuitOpened(opts, before, after, outcomes[|outcomes| - 1].now) && ShouldTrip(outcomes, threshold)
    ensures AccountFollows(opts, initial, outcomes, threshold, after)
  {
    hide ShouldTrip, Breaker.IsTimeout;
  }

  /** Every report took the account from one book to the next, and opened the circuit exactly when it should trip. */
  ghost predicate BooksFollow(conf: Settings, books: seq<Book>, id: string, outcomes: seq<Outcome>, threshold: int) {
    var n := |outcomes|;
    && |books| == n + 1
    && (n > 0 ==>
          && Reported(conf, books[n - 1], books[n], id, outcomes[n - 1])
          && (OpensCircuit(books[n - 1], books[n], id) <==> ShouldTrip(outcomes, threshold))
          && BooksFollow(conf, books[..n], id, outcomes[..n - 1], threshold))
  }

  lemma OneMoreBook(conf: Settings, books: seq<Book>, next: Book, id: string, outcomes: seq<Outcome>, threshold: int)
    requires outcomes != [] && BooksFollow(conf, books, id, outcomes[..|outcomes| - 1], threshold)
    requires Reported(conf, books[|outcomes| - 1], next, id, outcomes[|outcomes| - 1])
    requires OpensCircuit(books[|outcomes| - 1], next, id) <==> ShouldTrip(outcomes, threshold)
    ensures BooksFollow(conf, books + [next], id, outcomes, threshold)
  {
    hide Reported, OpensCircuit, ShouldTrip;
    assert (books + [next])[..|outcomes|] == books;
  }

  /** Reports one outcome. */
  method Report(rep: Reporter, id: string, o: Outcome)
    requires rep.store.Valid()
    modifies rep.slots, rep.store, rep.tracker.store
    ensures rep.store.Valid()
    ensures Reported(rep.InForce(), old(rep.BookOf(id)), rep.BookOf(id), id, o)
  {
    hide Keyed, AccountIndexAgrees, TypeIndexAgrees, ModelIndexAgrees, CountersAgree, SuccessReported, FailureReported;
    match o {
      case Worked(now) => rep.ReportSuccess(id, now);
      case Broke(now, error) => var _, _ := rep.ReportFailure(id, error, now);
    }
  }

  /**
   From an account without statistics, over any history of reports: the counters follow the history, and the circuit is
   opened by exactly those reports that are no rate limit and end a run of failures as long as the threshold. books is
   what every report found and left.
   */
  method ReportAll(rep: Reporter, opts: Breaker.Options, id: string, outcomes: seq<Outcome>, threshold: int)
    returns (ghost books: seq<Book>)
    requires rep.store.Valid() && rep.breaker == Some(opts)
    requires id in rep.store.accounts && StatsOf(rep.store.statsStore, id) == FRESH
    requires Breaker.IsThreshold(opts, rep.store.accounts[id].usageRules, threshold)
    modifies rep.slots, rep.store, rep.tracker.store
    ensures rep.store.Valid()
    ensures StatsOf(rep.store.statsStore, id) == AfterReports(FRESH, AsReports(outcomes))
    ensures id in rep.store.accounts
    ensures AccountFollows(opts, old(rep.store.accounts)[id], outcomes, threshold, rep.store.accounts[id])
    ensures |books| == |outcomes| + 1 && books[0] == old(rep.BookOf(id)) && books[|outcomes|] == rep.BookOf(id)
    ensures BooksFollow(rep.InForce(), books, id, outcomes, threshold)
  {
    books := [rep.BookOf(id)];
    ghost var initial := rep.store.accounts[id];
    assert outcomes[..0] == [];
    for k := 0 to |outcomes|
      invariant rep.store.Valid() && id in rep.store.accounts
      invariant StatsOf(rep.store.statsStore, id) == AfterReports(FRESH, AsReports(outcomes[..k]))
      invariant AccountFollows(opts, initial, outcomes[..k], threshold, rep.store.accounts[id])
      invariant |books| == k + 1 && books[0] == old(rep.BookOf(id)) && books[k] == rep.BookOf(id)
      invariant BooksFollow(rep.InForce(), books, id, outcomes[..k], threshold)
    {
      hide Keyed, AccountIndexAgrees, TypeIndexAgrees, ModelIndexAgrees, CountersAgree;
      hide AccountFollows, BooksFollow, ShouldTrip, Reported, OpensCircuit;
      hide AfterReports, AsReports, Breaker.IsThreshold;
      ghost var soFar := outcomes[..k + 1];
      assert soFar[..|soFar| - 1] == outcomes[..k] && soFar[|soFar| - 1] == outcomes[k];
      Report(rep, id, outcomes[k]);
      OneMoreOutcome(rep.InForce(), books[k], rep.BookOf(id), id, opts, initial, soFar, threshold);
      OneMoreBook(rep.InForce(), books, rep.BookOf(id), id, soFar, threshold);
      books := books + [rep.BookOf(id)];
    }
    assert outcomes[..|outcomes|] == outcomes;
  }
}
