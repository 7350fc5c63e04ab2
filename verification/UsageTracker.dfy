/**
 Quota tracking: recording use against live rules, and what positions in the filtered list do when windows have expired.
 */
module UsageTracker {
  import opened Prelude
  import opened Entities
  import opened UsageRecord
  import opened MemoryStore

  function Credited(u: TrackedUsage, amount: real): TrackedUsage {
    u.(localUsed := u.localUsed + amount)
  }

  /** What a recording should do: every live rule of the source is credited. */
  function Intended(usages: seq<TrackedUsage>, now: int, source: SourceType, amount: real): seq<TrackedUsage> {
    seq(|usages|, j requires 0 <= j < |usages| =>
      if !usages[j].Expired(now) && usages[j].IsFor(source) then Credited(usages[j], amount) else usages[j])
  }

  /** The live list has a rule of the source at position j; the store takes j as a raw position. */
  predicate Addressed(usages: seq<TrackedUsage>, now: int, source: SourceType, j: int) {
    0 <= j < |Live(usages, now)| && Live(usages, now)[j].IsFor(source)
  }

  lemma {:induction false} LiveIsShorter(usages: seq<TrackedUsage>, now: int)
    ensures |Live(usages, now)| <= |usages|
  {
    if usages != [] {
      LiveIsShorter(usages[..|usages| - 1], now);
    }
  }

  /** The first n addressed positions are credited. */
  function CreditedUpTo(usages: seq<TrackedUsage>, now: int, source: SourceType, amount: real,
                        n: nat): seq<TrackedUsage>
  {
    seq(|usages|, j requires 0 <= j < |usages| =>
      if j < n && Addressed(usages, now, source, j) then Credited(usages[j], amount) else usages[j])
  }

  /** What a recording does. */
  function Recorded(usages: seq<TrackedUsage>, now: int, source: SourceType, amount: real): seq<TrackedUsage> {
    CreditedUpTo(usages, now, source, amount, |Live(usages, now)|)
  }

  // ---- Positions in the live list ----

  /** How many expired windows precede raw position j. */
  function ExpiredBefore(usages: seq<TrackedUsage>, j: nat, now: int): nat
    requires j <= |usages|
  {
    if j == 0 then 0 else ExpiredBefore(usages, j - 1, now) + (if usages[j - 1].Expired(now) then 1 else 0)
  }

  lemma {:induction false} ExpiredBeforeGrows(usages: seq<TrackedUsage>, i: nat, j: nat, now: int)
    requires i <= j <= |usages|
    ensures ExpiredBefore(usages, i, now) <= ExpiredBefore(usages, j, now)
    ensures ExpiredBefore(usages, j, now) <= j
    decreases j
  {
    if i < j {
      ExpiredBeforeGrows(usages, i, j - 1, now);
    } else if j > 0 {
      ExpiredBeforeGrows(usages, j - 1, j - 1, now);
    }
  }

  lemma {:induction false} ExpiredBeforePrefix(usages: seq<TrackedUsage>, n: nat, j: nat, now: int)
    requires j <= n <= |usages|
    ensures ExpiredBefore(usages[..n], j, now) == ExpiredBefore(usages, j, now)
    decreases j
  {
    if j > 0 {
      ExpiredBeforePrefix(usages, n, j - 1, now);
    }
  }

  lemma {:induction false} LiveLength(usages: seq<TrackedUsage>, now: int)
    ensures |Live(usages, now)| + ExpiredBefore(usages, |usages|, now) == |usages|
  {
    if usages != [] {
      var n := |usages| - 1;
      LiveLength(usages[..n], now);
      ExpiredBeforePrefix(usages, n, n, now);
    }
  }

  /** A live rule at raw position k stands in the live list as many places earlier as windows expired before it. */
  lemma {:induction false} LivePosition(usages: seq<TrackedUsage>, now: int, k: nat)
    requires k < |usages| && !usages[k].Expired(now)
    ensures var i := k - ExpiredBefore(usages, k, now);
            0 <= i < |Live(usages, now)| && Live(usages, now)[i] == usages[k]
  {
    var n := |usages| - 1;
    ExpiredBeforeGrows(usages, k, k, now);
    ExpiredBeforePrefix(usages, n, k, now);
    if k < n {
      LivePosition(usages[..n], now, k);
    } else {
      LiveLength(usages[..n], now);
    }
  }

  /** Every place of the live list is some live raw position. */
  lemma {:induction false} RawPosition(usages: seq<TrackedUsage>, now: int, i: nat) returns (k: nat)
    requires i < |Live(usages, now)|
    ensures k < |usages| && !usages[k].Expired(now) && k - ExpiredBefore(usages, k, now) == i
              && Live(usages, now)[i] == usages[k]
  {
    var n := |usages| - 1;
    if i < |Live(usages[..n], now)| {
      k := RawPosition(usages[..n], now, i);
    } else {
      k := n;
      LiveLength(usages[..n], now);
    }
    ExpiredBeforePrefix(usages, n, k, now);
  }

  /** No expired window stands before a live rule of the source. */
  ghost predicate NoExpiredBefore(usages: seq<TrackedUsage>, now: int, source: SourceType) {
    forall j, i :: 0 <= i < j < |usages| && !usages[j].Expired(now) && usages[j].IsFor(source) ==>
      !usages[i].Expired(now)
  }

  lemma {:induction false} NoneExpiredCount(usages: seq<TrackedUsage>, j: nat, now: int)
    requires j <= |usages|
    ensures ExpiredBefore(usages, j, now) == 0 <==> forall i :: 0 <= i < j ==> !usages[i].Expired(now)
    decreases j
  {
    if j > 0 {
      NoneExpiredCount(usages, j - 1, now);
    }
  }

  /** With no expired window in the way, the addressed positions are the live rules of the source. */
  lemma AddressedIsIntended(usages: seq<TrackedUsage>, now: int, source: SourceType, j: nat)
    requires NoExpiredBefore(usages, now, source) && j < |usages|
    ensures Addressed(usages, now, source, j) <==> !usages[j].Expired(now) && usages[j].IsFor(source)
  {
    if !usages[j].Expired(now) && usages[j].IsFor(source) {
      LivePosition(usages, now, j);
      NoneExpiredCount(usages, j, now);
    }
    if Addressed(usages, now, source, j) {
      var k := RawPosition(usages, now, j);
      NoneExpiredCount(usages, k, now);
    }
  }

  /** The last live rule of the source, when some live one has an expired window before it, is missed. */
  lemma LastOneMissed(usages: seq<TrackedUsage>, now: int, source: SourceType, bad: nat) returns (j: nat)
    requires bad < |usages| && !usages[bad].Expired(now) && usages[bad].IsFor(source)
              && ExpiredBefore(usages, bad, now) > 0
    ensures j < |usages| && !usages[j].Expired(now) && usages[j].IsFor(source) && !Addressed(usages, now, source, j)
  {
    j := LastMatch(usages, now, source, bad);
    ExpiredBeforeGrows(usages, bad, j, now);
    forall k | 0 <= k < |usages| && !usages[k].Expired(now) && usages[k].IsFor(source)
      ensures k - ExpiredBefore(usages, k, now) != j
    {
      ExpiredBeforeGrows(usages, k, k, now);
    }
    if Addressed(usages, now, source, j) {
      var _ := RawPosition(usages, now, j);
    }
  }

  lemma {:induction false} LastMatch(usages: seq<TrackedUsage>, now: int, source: SourceType, from: nat)
    returns (j: nat)
    requires from < |usages| && !usages[from].Expired(now) && usages[from].IsFor(source)
    ensures from <= j < |usages| && !usages[j].Expired(now) && usages[j].IsFor(source)
    ensures forall k :: j < k < |usages| ==> usages[k].Expired(now) || !usages[k].IsFor(source)
    decreases |usages| - from
  {
    if k :| from < k < |usages| && !usages[k].Expired(now) && usages[k].IsFor(source) {
      j := LastMatch(usages, now, source, k);
    } else {
      j := from;
    }
  }

  /** Exactly when a recording credits the right rules: no expired window stands before a live rule of the source. */
  lemma RecordingIsRightIff(usages: seq<TrackedUsage>, now: int, source: SourceType, amount: real)
    ensures Recorded(usages, now, source, amount) == Intended(usages, now, source, amount)
            <==> amount == 0.0 || NoExpiredBefore(usages, now, source)
  {
    var done, want := Recorded(usages, now, source, amount), Intended(usages, now, source, amount);
    if amount == 0.0 {
      assert forall j :: 0 <= j < |usages| ==> done[j] == usages[j] == want[j];
    } else if NoExpiredBefore(usages, now, source) {
      forall j | 0 <= j < |usages|
        ensures done[j] == want[j]
      {
        AddressedIsIntended(usages, now, source, j);
      }
    } else {
      var j, i :| 0 <= i < j < |usages| && !usages[j].Expired(now) && usages[j].IsFor(source) && usages[i].Expired(now);
      NoneExpiredCount(usages, j, now);
      var missed := LastOneMissed(usages, now, source, j);
      assert done[missed] != want[missed];
    }
  }

  /** An expired window of tokens stored before a live one of requests: the recording credits the expired one. */
  lemma ExpiredWindowTakesTheCredit(now: int)
    ensures var tokens := TrackedUsage(Some(UsageRule(Tokens, 10.0, true, None)), 0.0, 0.0, 10.0, Some(now - 1));
            var requests := TrackedUsage(Some(UsageRule(Requests, 10.0, true, None)), 0.0, 0.0, 10.0, None);
            && !NoExpiredBefore([tokens, requests], now, Requests)
            && Recorded([tokens, requests], now, Requests, 1.0) == [tokens.(localUsed := 1.0), requests]
            && Intended([tokens, requests], now, Requests, 1.0) == [tokens, requests.(localUsed := 1.0)]
  {
    var tokens := TrackedUsage(Some(UsageRule(Tokens, 10.0, true, None)), 0.0, 0.0, 10.0, Some(now - 1));
    var requests := TrackedUsage(Some(UsageRule(Requests, 10.0, true, None)), 0.0, 0.0, 10.0, None);
    var usages := [tokens, requests];
    assert usages[..1] == [tokens] && [tokens][..0] == [];
    assert Live([tokens], now) == [];
    assert Live(usages, now) == [requests];
    assert !usages[1].Expired(now) && usages[1].IsFor(Requests) && usages[0].Expired(now);
  }

  // ---- Recording ----

  /** A positive-total rule used up to the safety ratio. */
  predicate AtSafety(u: TrackedUsage, ratio: real) {
    u.rule.Some? && Reached(u.EstimatedUsed(), u.rule.value.total, ratio)
  }

  predicate Reached(used: real, total: real, ratio: real) {
    total > 0.0 && used / total >= ratio
  }

  /** A rule without a positive total never reaches the ratio, any other when its use is that share of the total. */
  lemma SafetyMeans(u: TrackedUsage, ratio: real)
    ensures AtSafety(u, ratio) <==>
            && u.rule.Some? && u.rule.value.total > 0.0
            && u.remoteUsed + u.localUsed >= ratio * u.rule.value.total
  {
    if u.rule.Some? && u.rule.value.total > 0.0 {
      ShareReached(u.EstimatedUsed(), u.rule.value.total, ratio);
    }
  }

  lemma ShareReached(used: real, total: real, ratio: real)
    requires total > 0.0
    ensures used / total >= ratio <==> used >= ratio * total
  {
    var share := used / total;
    assert used == share * total;
    ProductOrder(share, ratio, total);
  }

  lemma ProductOrder(a: real, b: real, f: real)
    requires f > 0.0
    ensures a >= b <==> a * f >= b * f
  {
    if a < b {
      assert (b - a) * f > 0.0;
    } else {
      assert (a - b) * f >= 0.0;
    }
  }

  /** The rules a tracker starts from, with nothing used. */
  function Initial(rules: seq<Option<UsageRule>>): seq<TrackedUsage> {
    if rules == [] then []
    else
      var last := rules[|rules| - 1];
      Initial(rules[..|rules| - 1]) +
      (if last.None? || !last.value.valid then []
        else [TrackedUsage(last, 0.0, 0.0, last.value.total, last.value.windowEnd)])
  }

  /** Some live positive-total rule of the source is at or above the safety ratio. */
  ghost predicate ReachesSafety(usages: seq<TrackedUsage>, now: int, source: SourceType, safetyRatio: real) {
    exists u :: u in Live(usages, now) && u.IsFor(source) && AtSafety(u, safetyRatio)
  }

  class UsageTracker {
    const store: Store
    const safetyRatio: real
    const hasCallback: bool

    constructor (store: Store, safetyRatio: real, hasCallback: bool)
      ensures this.store == store && this.safetyRatio == safetyRatio && this.hasCallback == hasCallback
    {
      this.store, this.safetyRatio, this.hasCallback := store, safetyRatio, hasCallback;
    }

    method InitRules(id: string, rules: seq<Option<UsageRule>>)
      modifies store`usageStore
      ensures store.usageStore == old(store.usageStore)[id := Initial(rules)]
    {
      var usages: seq<TrackedUsage> := [];
      for i := 0 to |rules|
        invariant usages == Initial(rules[..i])
      {
        assert rules[..i + 1][..i] == rules[..i];
        if rules[i].None? || !rules[i].value.valid {
          continue;
        }
        usages := usages + [TrackedUsage(rules[i], 0.0, 0.0, rules[i].value.total, rules[i].value.windowEnd)];
      }
      assert rules[..|rules|] == rules;
      store.SaveUsages(id, usages);
    }

    /**
     fired is the rule the callbacks are called with: the first live one of the source at or above the safety ratio.
     */
    method RecordUsage(id: string, source: SourceType, amount: real, now: int, later: int)
      returns (err: Option<StoreError>, fired: Option<UsageRule>)
      modifies store`usageStore
      ensures err.None?
      ensures UsagesOf(store.usageStore, id) == Recorded(UsagesOf(old(store.usageStore), id), now, source, amount)
      ensures forall other :: other != id ==>
                UsagesOf(store.usageStore, other) == UsagesOf(old(store.usageStore), other)
      ensures fired.Some? <==>
                hasCallback && Live(UsagesOf(old(store.usageStore), id), now) != [] &&
                ReachesSafety(UsagesOf(store.usageStore, id), later, source, safetyRatio)
      ensures fired.Some? ==>
                exists u :: && u in Live(UsagesOf(store.usageStore, id), later) && u.rule == fired
                            && u.IsFor(source) && AtSafety(u, safetyRatio)
    {
      err, fired := None, None;
      ghost var before := UsagesOf(store.usageStore, id);
      var usages := store.GetCurrentUsages(id, now);
      LiveIsShorter(before, now);
      if |usages| == 0 {
        assert Recorded(before, now, source, amount) == before;
        return;
      }
      assert CreditedUpTo(before, now, source, amount, 0) == before;
      for i := 0 to |usages|
        invariant id in store.usageStore && store.usageStore[id] == CreditedUpTo(before, now, source, amount, i)
        invariant forall other :: other != id ==>
                  UsagesOf(store.usageStore, other) == UsagesOf(old(store.usageStore), other)
      {
        CreditNext(before, now, source, amount, i);
        if usages[i].rule.Some? && usages[i].rule.value.sourceType == source {
          err := store.IncrLocalUsed(id, i, amount);
          if err.Some? {
            assert false;
          }
        }
      }
      err := None;
      if hasCallback {
        usages := store.GetCurrentUsages(id, later);
        for i := 0 to |usages|
          invariant forall j :: 0 <= j < i ==> !(usages[j].IsFor(source) && AtSafety(usages[j], safetyRatio))
        {
          var u := usages[i];
          if u.rule.None? || u.rule.value.total <= 0.0 || u.rule.value.sourceType != source {
            continue;
          }
          if u.EstimatedUsed() / u.rule.value.total >= safetyRatio {
            assert u in usages;
            return None, u.rule;
          }
        }
      }
    }

    /** True exactly when no live positive-total rule is at or above the safety ratio. */
    method IsQuotaAvailable(id: string, now: int) returns (available: bool)
      ensures available <==> forall u :: u in Live(UsagesOf(store.usageStore, id), now) ==> !AtSafety(u, safetyRatio)
    {
      var usages := store.GetCurrentUsages(id, now);
      for i := 0 to |usages|
        invariant forall j :: 0 <= j < i ==> !AtSafety(usages[j], safetyRatio)
      {
        var u := usages[i];
        if u.rule.None? || u.rule.value.total <= 0.0 {
          continue;
        }
        if u.EstimatedUsed() / u.rule.value.total >= safetyRatio {
          assert u in usages;
          return false;
        }
      }
      return true;
    }

    /** Marks the addressed rules as used up: the remote figures become the estimate, nothing is left. */
    method CalibrateFromResponse(id: string, source: SourceType, now: int) returns (err: Option<StoreError>)
      modifies store`usageStore
      ensures err.None?
      ensures UsagesOf(store.usageStore, id) == Drained(UsagesOf(old(store.usageStore), id), now, source,
                |Live(UsagesOf(old(store.usageStore), id), now)|)
      ensures forall other :: other != id ==>
                UsagesOf(store.usageStore, other) == UsagesOf(old(store.usageStore), other)
    {
      err := None;
      ghost var before := UsagesOf(store.usageStore, id);
      var usages := store.GetCurrentUsages(id, now);
      LiveIsShorter(before, now);
      assert Drained(before, now, source, 0) == before;
      if |usages| == 0 {
        return;
      }
      for i := 0 to |usages|
        invariant id in store.usageStore && store.usageStore[id] == Drained(before, now, source, i)
        invariant forall other :: other != id ==>
                  UsagesOf(store.usageStore, other) == UsagesOf(old(store.usageStore), other)
      {
        DrainNext(before, now, source, i);
        var u := usages[i];
        if u.rule.Some? && u.rule.value.sourceType == source {
          err := store.CalibrateRule(id, i, u.(remoteUsed := u.remoteUsed + u.localUsed, remoteRemain := 0.0));
          if err.Some? {
            assert false;
          }
        }
      }
      err := None;
    }
  }

  function DrainedAs(raw: TrackedUsage, live: TrackedUsage): TrackedUsage {
    raw.(remoteUsed := live.EstimatedUsed(), remoteRemain := 0.0, localUsed := 0.0, windowEnd := live.windowEnd)
  }

  function Drained(usages: seq<TrackedUsage>, now: int, source: SourceType, n: nat): seq<TrackedUsage>
    requires n <= |Live(usages, now)|
  {
    seq(|usages|, j requires 0 <= j < |usages| =>
      if j < n && Addressed(usages, now, source, j) then DrainedAs(usages[j], Live(usages, now)[j]) else usages[j])
  }

  lemma DrainNext(usages: seq<TrackedUsage>, now: int, source: SourceType, i: nat)
    requires i < |Live(usages, now)| <= |usages|
    ensures Drained(usages, now, source, i + 1) ==
            if Addressed(usages, now, source, i)
                then Drained(usages, now, source, i)[i := DrainedAs(usages[i], Live(usages, now)[i])]
            else Drained(usages, now, source, i)
    ensures Drained(usages, now, source, i)[i] == usages[i]
  {}

  /** With no expired window in the way, draining a rule keeps its estimated use and leaves it nothing. */
  lemma DrainExhausts(usages: seq<TrackedUsage>, now: int, source: SourceType, j: nat)
    requires NoExpiredBefore(usages, now, source) && j < |usages|
    requires !usages[j].Expired(now) && usages[j].IsFor(source)
    ensures var after := Drained(usages, now, source, |Live(usages, now)|)[j];
            after == TrackedUsage(usages[j].rule, 0.0, usages[j].remoteUsed + usages[j].localUsed, 0.0,
                                  usages[j].windowEnd)
  {
    AddressedIsIntended(usages, now, source, j);
    LivePosition(usages, now, j);
    NoneExpiredCount(usages, j, now);
  }

  /** What draining should do: every live rule of the source is used up. */
  function IntendedDrain(usages: seq<TrackedUsage>, now: int, source: SourceType): seq<TrackedUsage> {
    seq(|usages|, j requires 0 <= j < |usages| =>
      if Targeted(usages, now, source, j) then DrainedAs(usages[j], usages[j]) else usages[j])
  }

  predicate Targeted(usages: seq<TrackedUsage>, now: int, source: SourceType, j: int) {
    0 <= j < |usages| && !usages[j].Expired(now) && usages[j].IsFor(source)
  }

  /** Nothing left, and nothing counted since the last figures: draining changes nothing. */
  predicate Spent(u: TrackedUsage) {
    u.localUsed == 0.0 && u.remoteRemain == 0.0
  }

  /**
   The live rule at raw position k has expired windows before it, so the call writes its figures to an earlier one.
   That does no harm when the earlier one has the same figures and nothing left, or is drained anyway, and k has nothing
   left or is reached by way of another rule.
   */
  predicate Harmless(usages: seq<TrackedUsage>, now: int, source: SourceType, k: nat)
    requires k < |usages|
  {
    var i := k - ExpiredBefore(usages, k, now);
    && 0 <= i < |usages|
    && usages[i].EstimatedUsed() == usages[k].EstimatedUsed() && usages[i].windowEnd == usages[k].windowEnd
    && (Spent(usages[i]) || Targeted(usages, now, source, i))
    && (Spent(usages[k]) || Addressed(usages, now, source, k))
  }

  /** Every live rule of the source that has an expired window before it happens to be harmless. */
  predicate MisplacedAreHarmless(usages: seq<TrackedUsage>, now: int, source: SourceType) {
    forall k :: 0 <= k < |usages| && Targeted(usages, now, source, k) && ExpiredBefore(usages, k, now) > 0 ==>
      Harmless(usages, now, source, k)
  }

  /** What the call writes at a position that it addresses for the live rule at k. */
  lemma DrainedAt(usages: seq<TrackedUsage>, now: int, source: SourceType, k: nat)
    requires Targeted(usages, now, source, k)
    ensures var i := k - ExpiredBefore(usages, k, now);
            && 0 <= i < |Live(usages, now)| && i <= k && Addressed(usages, now, source, i)
            && Drained(usages, now, source, |Live(usages, now)|)[i] == DrainedAs(usages[i], usages[k])
  {
    LivePosition(usages, now, k);
    ExpiredBeforeGrows(usages, k, k, now);
  }

  /** Exactly when draining uses up the live rules of the source and touches no other. */
  lemma DrainingIsRightIff(usages: seq<TrackedUsage>, now: int, source: SourceType)
    ensures Drained(usages, now, source, |Live(usages, now)|) == IntendedDrain(usages, now, source)
            <==> MisplacedAreHarmless(usages, now, source)
  {
    var done, want := Drained(usages, now, source, |Live(usages, now)|), IntendedDrain(usages, now, source);
    LiveIsShorter(usages, now);
    if MisplacedAreHarmless(usages, now, source) {
      forall j | 0 <= j < |usages|
        ensures done[j] == want[j]
      {
        DrainedRightAt(usages, now, source, j);
      }
    }
    if done == want {
      forall k | 0 <= k < |usages| && Targeted(usages, now, source, k) && ExpiredBefore(usages, k, now) > 0
        ensures Harmless(usages, now, source, k)
      {
        var i := k - ExpiredBefore(usages, k, now);
        DrainedAt(usages, now, source, k);
        assert done[i] == want[i] && done[k] == want[k];
      }
    }
  }

  /** With no expired window in the way nothing is misplaced. */
  lemma NothingMisplaced(usages: seq<TrackedUsage>, now: int, source: SourceType)
    requires NoExpiredBefore(usages, now, source)
    ensures MisplacedAreHarmless(usages, now, source)
  {
    forall k | 0 <= k < |usages| && Targeted(usages, now, source, k)
      ensures ExpiredBefore(usages, k, now) == 0
    {
      NoneExpiredCount(usages, k, now);
    }
  }

  lemma DrainedRightAt(usages: seq<TrackedUsage>, now: int, source: SourceType, j: nat)
    requires MisplacedAreHarmless(usages, now, source)
    requires j < |usages|
    ensures Drained(usages, now, source, |Live(usages, now)|)[j] == IntendedDrain(usages, now, source)[j]
  {
    if Targeted(usages, now, source, j) {
      NoneExpiredCount(usages, j, now);
      DrainedAt(usages, now, source, j);
    }
    if Addressed(usages, now, source, j) {
      var k := RawPosition(usages, now, j);
      NoneExpiredCount(usages, k, now);
      DrainedAt(usages, now, source, k);
    }
  }

  /**
   An expired window of tokens stored before a live one of requests is overwritten, and the live one keeps its rest.
   */
  lemma ExpiredWindowTakesTheDrain(now: int)
    ensures var tokens := TrackedUsage(Some(UsageRule(Tokens, 10.0, true, None)), 0.0, 4.0, 6.0, Some(now - 1));
            var requests := TrackedUsage(Some(UsageRule(Requests, 10.0, true, None)), 0.0, 9.0, 1.0, None);
            Drained([tokens, requests], now, Requests, 1) ==
            [TrackedUsage(tokens.rule, 0.0, 9.0, 0.0, None), requests]
  {
    var tokens := TrackedUsage(Some(UsageRule(Tokens, 10.0, true, None)), 0.0, 4.0, 6.0, Some(now - 1));
    var requests := TrackedUsage(Some(UsageRule(Requests, 10.0, true, None)), 0.0, 9.0, 1.0, None);
    var usages := [tokens, requests];
    assert usages[..1] == [tokens] && [tokens][..0] == [];
    assert Live([tokens], now) == [];
    assert Live(usages, now) == [requests];
  }

  lemma CreditNext(usages: seq<TrackedUsage>, now: int, source: SourceType, amount: real, i: nat)
    requires i < |Live(usages, now)| <= |usages|
    ensures CreditedUpTo(usages, now, source, amount, i + 1) ==
            if Addressed(usages, now, source, i)
                then CreditedUpTo(usages, now, source, amount, i)[i := Credited(usages[i], amount)]
            else CreditedUpTo(usages, now, source, amount, i)
    ensures CreditedUpTo(usages, now, source, amount, i)[i] == usages[i]
  {}

  // ---- Whole histories ----

  datatype Use = Use(source: SourceType, amount: real, now: int)

  function AfterUses(usages: seq<TrackedUsage>, uses: seq<Use>): seq<TrackedUsage> {
    if uses == [] then usages
    else
      var u := uses[|uses| - 1];
      Recorded(AfterUses(usages, uses[..|uses| - 1]), u.now, u.source, u.amount)
  }

  function SumFor(uses: seq<Use>, source: SourceType): real {
    if uses == [] then 0.0
    else
      var last := uses[|uses| - 1];
      SumFor(uses[..|uses| - 1], source) + (if last.source == source then last.amount else 0.0)
  }

  lemma {:induction false} InitialIsUnused(rules: seq<Option<UsageRule>>)
    ensures forall u :: u in Initial(rules) ==>
              && u.rule.Some? && u.localUsed == 0.0 && u.remoteUsed == 0.0 && u.remoteRemain == u.rule.value.total
              && u.windowEnd == u.rule.value.windowEnd
  {
    if rules != [] {
      InitialIsUnused(rules[..|rules| - 1]);
    }
  }

  /**
   While no window expires, each rule's use is the sum recorded for its source, and use and rest add up to its total.
   */
  lemma {:induction false} UsesAddUp(rules: seq<Option<UsageRule>>, uses: seq<Use>)
    requires NothingExpires(rules, uses)
    ensures var start, end := Initial(rules), AfterUses(Initial(rules), uses);
            && |end| == |start|
            && forall j :: 0 <= j < |end| ==>
                 && end[j].rule == start[j].rule && end[j].windowEnd == start[j].windowEnd && end[j].rule.Some?
                 && end[j].windowEnd == end[j].rule.value.windowEnd
                 && end[j].EstimatedUsed() == SumFor(uses, end[j].rule.value.sourceType)
                 && end[j].EstimatedUsed() + end[j].EstimatedRemain() == end[j].rule.value.total
  {
    InitialIsUnused(rules);
    if uses != [] {
      var earlier, u := uses[..|uses| - 1], uses[|uses| - 1];
      UsesAddUp(rules, earlier);
      var before := AfterUses(Initial(rules), earlier);
      forall j | 0 <= j < |before|
        ensures !before[j].Expired(u.now)
      {
        assert Initial(rules)[j] in Initial(rules);
      }
      RecordingIsRightIff(before, u.now, u.source, u.amount);
    }
  }

  /** Some valid rule of the last use's source has been used up to the safety ratio by what was recorded for it. */
  ghost predicate SumReaches(rules: seq<Option<UsageRule>>, uses: seq<Use>, safetyRatio: real) {
    && uses != [] && var source := uses[|uses| - 1].source;
    && exists r :: r in rules && r.Some? && r.value.valid && r.value.sourceType == source
                   && Reached(SumFor(uses, source), r.value.total, safetyRatio)
  }

  ghost predicate NothingExpires(rules: seq<Option<UsageRule>>, uses: seq<Use>) {
    forall i, u :: 0 <= i < |uses| && u in Initial(rules) ==> !u.Expired(uses[i].now)
  }

  lemma {:induction false} InitialMembers(rules: seq<Option<UsageRule>>)
    ensures forall u :: u in Initial(rules) ==> u.rule in rules && u.rule.Some? && u.rule.value.valid
    ensures forall r :: r in rules && r.Some? && r.value.valid ==> exists u :: u in Initial(rules) && u.rule == r
  {
    if rules != [] {
      var rest, last := rules[..|rules| - 1], rules[|rules| - 1];
      InitialMembers(rest);
      assert rules == rest + [last];
      if last.Some? && last.value.valid {
        assert TrackedUsage(last, 0.0, 0.0, last.value.total, last.value.windowEnd) in Initial(rules);
      }
      forall r | r in rest && r.Some? && r.value.valid
        ensures exists u :: u in Initial(rules) && u.rule == r
      {
        var u :| u in Initial(rest) && u.rule == r;
        assert u in Initial(rules);
      }
    }
  }

  lemma {:induction false} AllLive(usages: seq<TrackedUsage>, now: int)
    requires forall u :: u in usages ==> !u.Expired(now)
    ensures Live(usages, now) == usages
  {
    if usages != [] {
      assert usages == usages[..|usages| - 1] + [usages[|usages| - 1]];
      AllLive(usages[..|usages| - 1], now);
    }
  }

  lemma UsesStayLive(rules: seq<Option<UsageRule>>, uses: seq<Use>, now: int)
    requires NothingExpires(rules, uses) && forall u :: u in Initial(rules) ==> !u.Expired(now)
    ensures Live(AfterUses(Initial(rules), uses), now) == AfterUses(Initial(rules), uses)
  {
    UsesAddUp(rules, uses);
    hide AfterUses, Initial;
    var start, end := Initial(rules), AfterUses(Initial(rules), uses);
    forall j | 0 <= j < |end|
      ensures !end[j].Expired(now)
    {
      assert start[j] in start;
    }
    AllLive(end, now);
  }

  /** Each tracked rule is a valid one of the list, used by what was recorded for its source. */
  lemma UsedAsRecorded(rules: seq<Option<UsageRule>>, uses: seq<Use>, j: nat)
    requires NothingExpires(rules, uses) && j < |AfterUses(Initial(rules), uses)|
    ensures var u := AfterUses(Initial(rules), uses)[j];
            && u.rule in rules && u.rule.Some? && u.rule.value.valid
            && u.EstimatedUsed() == SumFor(uses, u.rule.value.sourceType)
  {
    UsesAddUp(rules, uses);
    InitialMembers(rules);
    hide AfterUses, SumFor;
    assert Initial(rules)[j] in Initial(rules);
  }

  lemma ValidRuleIsTracked(rules: seq<Option<UsageRule>>, uses: seq<Use>, r: Option<UsageRule>) returns (j: nat)
    requires NothingExpires(rules, uses) && r in rules && r.Some? && r.value.valid
    ensures j < |AfterUses(Initial(rules), uses)| && AfterUses(Initial(rules), uses)[j].rule == r
  {
    UsesAddUp(rules, uses);
    InitialMembers(rules);
    hide AfterUses, Initial, SumFor, NothingExpires;
    var u :| u in Initial(rules) && u.rule == r;
    j :| 0 <= j < |Initial(rules)| && Initial(rules)[j] == u;
  }

  lemma SafetyMeansSum(rules: seq<Option<UsageRule>>, uses: seq<Use>, safetyRatio: real, u: TrackedUsage)
    requires NothingExpires(rules, uses) && uses != [] && u in AfterUses(Initial(rules), uses)
    requires u.IsFor(uses[|uses| - 1].source) && AtSafety(u, safetyRatio)
    ensures SumReaches(rules, uses, safetyRatio)
  {
    hide AfterUses, Initial, SumFor, Reached, NothingExpires;
    var j :| 0 <= j < |AfterUses(Initial(rules), uses)| && AfterUses(Initial(rules), uses)[j] == u;
    UsedAsRecorded(rules, uses, j);
  }

  lemma SumMeansSafety(rules: seq<Option<UsageRule>>, uses: seq<Use>, safetyRatio: real) returns (u: TrackedUsage)
    requires NothingExpires(rules, uses) && SumReaches(rules, uses, safetyRatio)
    ensures u in AfterUses(Initial(rules), uses) && u.IsFor(uses[|uses| - 1].source) && AtSafety(u, safetyRatio)
  {
    hide AfterUses, Initial, SumFor, Reached, NothingExpires;
    var source := uses[|uses| - 1].source;
    var r :| r in rules && r.Some? && r.value.valid && r.value.sourceType == source
             && Reached(SumFor(uses, source), r.value.total, safetyRatio);
    var j := ValidRuleIsTracked(rules, uses, r);
    UsedAsRecorded(rules, uses, j);
    u := AfterUses(Initial(rules), uses)[j];
  }

  /**
   While no window expires, the safety ratio is reached exactly when the recorded sum of some rule's source reaches it.
   */
  lemma SafetyIsTheSum(rules: seq<Option<UsageRule>>, uses: seq<Use>, safetyRatio: real)
    requires NothingExpires(rules, uses) && uses != []
    ensures var last := uses[|uses| - 1];
            ReachesSafety(AfterUses(Initial(rules), uses), last.now, last.source, safetyRatio) <==>
            SumReaches(rules, uses, safetyRatio)
  {
    var end, last := AfterUses(Initial(rules), uses), uses[|uses| - 1];
    assert forall u :: u in Initial(rules) ==> !u.Expired(last.now);
    UsesStayLive(rules, uses, last.now);
    hide AfterUses, Initial, SumReaches, Live, NothingExpires, AtSafety;
    if ReachesSafety(end, last.now, last.source, safetyRatio) {
      var u :| u in end && u.IsFor(last.source) && AtSafety(u, safetyRatio);
      SafetyMeansSum(rules, uses, safetyRatio, u);
    }
    if SumReaches(rules, uses, safetyRatio) {
      var u := SumMeansSafety(rules, uses, safetyRatio);
    }
  }

  /**
   From freshly initialised rules, over any uses in which no window expires: the callbacks are called by exactly those
   recordings after which the sum recorded for some rule's source has reached the safety ratio.
   */
  method RecordAll(tracker: UsageTracker, id: string, rules: seq<Option<UsageRule>>, uses: seq<Use>)
    returns (fired: seq<Option<UsageRule>>)
    requires NothingExpires(rules, uses)
    modifies tracker.store`usageStore
    ensures UsagesOf(tracker.store.usageStore, id) == AfterUses(Initial(rules), uses)
    ensures |fired| == |uses|
    ensures forall k :: 0 <= k < |uses| ==>
              (fired[k].Some? <==> tracker.hasCallback && SumReaches(rules, uses[..k + 1], tracker.safetyRatio))
  {
    tracker.InitRules(id, rules);
    fired := [];
    for k := 0 to |uses|
      invariant UsagesOf(tracker.store.usageStore, id) == AfterUses(Initial(rules), uses[..k])
      invariant |fired| == k
      invariant forall i :: 0 <= i < k ==>
                  (fired[i].Some? <==> tracker.hasCallback && SumReaches(rules, uses[..i + 1], tracker.safetyRatio))
    {
      hide *;
      var u := uses[k];
      var _, rule := tracker.RecordUsage(id, u.source, u.amount, u.now, u.now);
      OneMoreUse(rules, uses, k);
      FiresOnTheSum(rules, uses[..k + 1], tracker.safetyRatio);
      fired := fired + [rule];
    }
    assert uses[..|uses|] == uses;
  }

  lemma OneMoreUse(rules: seq<Option<UsageRule>>, uses: seq<Use>, k: nat)
    requires k < |uses| && NothingExpires(rules, uses)
    ensures uses[..k + 1][|uses[..k + 1]| - 1] == uses[k] && uses[..k + 1][..|uses[..k + 1]| - 1] == uses[..k]
    ensures AfterUses(Initial(rules), uses[..k + 1]) ==
            Recorded(AfterUses(Initial(rules), uses[..k]), uses[k].now, uses[k].source, uses[k].amount)
    ensures NothingExpires(rules, uses[..k + 1])
  {
    hide Recorded, Initial;
    assert uses[..k + 1][..k] == uses[..k];
  }

  lemma FiresOnTheSum(rules: seq<Option<UsageRule>>, uses: seq<Use>, safetyRatio: real)
    requires NothingExpires(rules, uses) && uses != []
    ensures var last := uses[|uses| - 1];
            var before, after := AfterUses(Initial(rules), uses[..|uses| - 1]), AfterUses(Initial(rules), uses);
            (Live(before, last.now) != [] && ReachesSafety(after, last.now, last.source, safetyRatio)) <==>
            SumReaches(rules, uses, safetyRatio)
  {
    SafetyIsTheSum(rules, uses, safetyRatio);
    var last, earlier := uses[|uses| - 1], uses[..|uses| - 1];
    UsesAddUp(rules, uses);
    UsesAddUp(rules, earlier);
    UsesStayLive(rules, earlier, last.now);
  }
}
