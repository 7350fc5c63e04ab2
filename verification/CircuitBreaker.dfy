/** The circuit breaker: how many consecutive failures open it, and for how long. */
module CircuitBreaker {
  import opened Prelude
  import opened Entities
  import opened StatsRecord
  import opened Occupancy

  function PowerOfTwo(n: nat): (p: int)
    ensures p > 0
  {
    if n == 0 then 1 else 2 * PowerOfTwo(n - 1)
  }

  /** The largest finite 64-bit float. */
  const MAX_FLOAT64 := (PowerOfTwo(1024) - PowerOfTwo(971)) as real

  lemma {:induction false} PowersMultiply(m: nat, n: nat)
    ensures PowerOfTwo(m + n) == PowerOfTwo(m) * PowerOfTwo(n)
  {
    if m > 0 {
      PowersMultiply(m - 1, n);
      Regroup(PowerOfTwo(m - 1), PowerOfTwo(n));
    }
  }

  lemma Regroup(a: int, b: int)
    ensures 2 * a * b == 2 * (a * b)
  {}

  lemma SmallPowers()
    ensures PowerOfTwo(0) == 1 && PowerOfTwo(1) == 2 && PowerOfTwo(4) == 16
  {}

  /** Its significand has 53 bits, all of them set, and its exponent is the largest. */
  lemma MaxFloatIs()
    ensures MAX_FLOAT64 == ((PowerOfTwo(53) - 1) * PowerOfTwo(971)) as real
    ensures PowerOfTwo(0) == 1 && PowerOfTwo(1) == 2 && PowerOfTwo(4) == 16
  {
    hide PowerOfTwo;
    SmallPowers();
    PowersMultiply(53, 971);
    Distribute(PowerOfTwo(53), PowerOfTwo(971));
  }

  lemma Distribute(a: int, b: int)
    ensures a * b - b == (a - 1) * b
  {}

  datatype Options = Options(defaultThreshold: int, defaultTimeout: int, thresholdRatio: real, minThreshold: int)

  /** Rules the threshold is taken from: request rules with a positive total. */
  predicate Counts(rule: Option<UsageRule>) {
    rule.Some? && rule.value.sourceType == Requests && 0.0 < rule.value.total < MAX_FLOAT64
  }

  ghost predicate MinTotal(rules: seq<Option<UsageRule>>, m: real) {
    && (exists r :: r in rules && Counts(r) && r.value.total == m)
    && (forall r :: r in rules && Counts(r) ==> m <= r.value.total)
  }

  /** The floored share of the smallest total, but no less than the minimum; the default when no rule counts. */
  ghost predicate IsThreshold(opts: Options, rules: seq<Option<UsageRule>>, threshold: int) {
    if forall r :: r in rules ==> !Counts(r) then threshold == opts.defaultThreshold
    else exists m :: MinTotal(rules, m) && threshold == FlooredShare(opts, m)
  }

  function Share(opts: Options, total: real): int {
    Truncate(total * opts.thresholdRatio)
  }

  function FlooredShare(opts: Options, total: real): int {
    var share := Share(opts, total);
    if share < opts.minThreshold then opts.minThreshold else share
  }

  /** What the scan knows of the rules read so far: their smallest total, or that none counts. */
  ghost predicate LeastSoFar(before: seq<Option<UsageRule>>, m: real) {
    if m == MAX_FLOAT64 then forall r :: r in before ==> !Counts(r) else m < MAX_FLOAT64 && MinTotal(before, m)
  }

  lemma LeastNext(before: seq<Option<UsageRule>>, rule: Option<UsageRule>, m: real)
    requires LeastSoFar(before, m)
    ensures LeastSoFar(before + [rule], if Counts(rule) && rule.value.total < m then rule.value.total else m)
  {
    MinTotalNext(before, rule, m);
  }

  lemma LeastDecides(opts: Options, rules: seq<Option<UsageRule>>, m: real)
    requires LeastSoFar(rules, m)
    ensures IsThreshold(opts, rules, if m == MAX_FLOAT64 then opts.defaultThreshold else FlooredShare(opts, m))
  {
    hide FlooredShare;
  }

  lemma NothingRead()
    ensures LeastSoFar([], MAX_FLOAT64)
  {}

  method DynamicThreshold(opts: Options, rules: seq<Option<UsageRule>>) returns (threshold: int)
    ensures IsThreshold(opts, rules, threshold)
  {
    hide LeastSoFar, IsThreshold, PowerOfTwo, Share;
    NothingRead();
    if |rules| == 0 {
      assert rules == [];
      LeastDecides(opts, rules, MAX_FLOAT64);
      return opts.defaultThreshold;
    }
    var minTotal := MAX_FLOAT64;
    assert rules[..0] == [];
    for i := 0 to |rules|
      invariant LeastSoFar(rules[..i], minTotal) && minTotal <= MAX_FLOAT64
    {
      LeastNext(rules[..i], rules[i], minTotal);
      assert rules[..i + 1] == rules[..i] + [rules[i]];
      var rule := rules[i];
      if rule.Some? && rule.value.sourceType == Requests && rule.value.total > 0.0 && rule.value.total < minTotal {
        minTotal := rule.value.total;
      }
    }
    assert rules[..|rules|] == rules;
    LeastDecides(opts, rules, minTotal);
    if minTotal == MAX_FLOAT64 {
      return opts.defaultThreshold;
    }
    threshold := Share(opts, minTotal);
    if threshold < opts.minThreshold {
      threshold := opts.minThreshold;
    }
  }

  lemma MinTotalNext(before: seq<Option<UsageRule>>, rule: Option<UsageRule>, m: real)
    ensures MinTotal(before, m) && (Counts(rule) ==> m <= rule.value.total) ==> MinTotal(before + [rule], m)
    ensures Counts(rule) && (forall r :: r in before && Counts(r) ==> rule.value.total <= r.value.total) ==>
              MinTotal(before + [rule], rule.value.total)
  {
    assert rule in before + [rule];
    if MinTotal(before, m) {
      var r :| r in before && Counts(r) && r.value.total == m;
      assert r in before + [rule];
    }
  }

  /** The smallest total is one number, so the threshold is. */
  lemma ThresholdUnique(opts: Options, rules: seq<Option<UsageRule>>, t1: int, t2: int)
    requires IsThreshold(opts, rules, t1) && IsThreshold(opts, rules, t2)
    ensures t1 == t2
  {
    hide FlooredShare;
    if !(forall r :: r in rules ==> !Counts(r)) {
      var m1 :| MinTotal(rules, m1) && t1 == FlooredShare(opts, m1);
      var m2 :| MinTotal(rules, m2) && t2 == FlooredShare(opts, m2);
      MinTotalUnique(rules, m1, m2);
    }
  }

  lemma MinTotalUnique(rules: seq<Option<UsageRule>>, m1: real, m2: real)
    requires MinTotal(rules, m1) && MinTotal(rules, m2)
    ensures m1 == m2
  {}

  /** The time left in a valid rule's window. */
  predicate WindowAhead(rule: Option<UsageRule>, now: int) {
    rule.Some? && rule.value.valid && rule.value.windowEnd.Some? && rule.value.windowEnd.value > now
  }

  /** The shortest window left when that is no shorter than the default, otherwise the default. */
  ghost predicate IsTimeout(opts: Options, rules: seq<Option<UsageRule>>, now: int, timeout: int) {
    if exists r :: r in rules && WindowAhead(r, now) && r.value.windowEnd.value - now < opts.defaultTimeout
    then timeout == opts.defaultTimeout
    else
      && (forall r :: r in rules && WindowAhead(r, now) ==> timeout <= r.value.windowEnd.value - now)
      && if exists r :: r in rules && WindowAhead(r, now)
         then exists r :: r in rules && WindowAhead(r, now) && r.value.windowEnd.value - now == timeout
         else timeout == opts.defaultTimeout
  }

  method DynamicTimeout(opts: Options, rules: seq<Option<UsageRule>>, now: int) returns (timeout: int)
    ensures timeout >= opts.defaultTimeout && IsTimeout(opts, rules, now, timeout)
  {
    var minRemain: Option<int> := None;
    for i := 0 to |rules|
      invariant minRemain.Some? ==>
                exists r :: r in rules && WindowAhead(r, now) && r.value.windowEnd.value - now == minRemain.value
      invariant forall r :: r in rules[..i] && WindowAhead(r, now) ==>
                minRemain.Some? && minRemain.value <= r.value.windowEnd.value - now
    {
      assert rules[..i + 1] == rules[..i] + [rules[i]];
      if WindowAhead(rules[i], now) {
        var remain := rules[i].value.windowEnd.value - now;
        if minRemain.None? || remain < minRemain.value {
          assert rules[i] in rules;
          minRemain := Some(remain);
        }
      }
    }
    assert rules[..|rules|] == rules;
    if minRemain.None? || minRemain.value < opts.defaultTimeout {
      return opts.defaultTimeout;
    }
    return minRemain.value;
  }

  /** The failures have reached the threshold. */
  ghost predicate Trips(opts: Options, rules: seq<Option<UsageRule>>, failures: int) {
    exists t :: IsThreshold(opts, rules, t) && failures >= t
  }

  lemma TripsAtThreshold(opts: Options, rules: seq<Option<UsageRule>>, failures: int, threshold: int)
    requires IsThreshold(opts, rules, threshold)
    ensures Trips(opts, rules, failures) <==> failures >= threshold
  {
    if t :| IsThreshold(opts, rules, t) && failures >= t {
      ThresholdUnique(opts, rules, t, threshold);
    }
  }

  /** Trips exactly when the failures reach the threshold; then the account carries the time the circuit stays open. */
  method RecordFailure(opts: Options, a: Account, consecutiveFailures: int, now: int)
    returns (tripped: bool, after: Account)
    ensures tripped <==> Trips(opts, a.usageRules, consecutiveFailures)
    ensures !tripped ==> after == a
    ensures tripped ==> after == a.(circuitOpenUntil := after.circuitOpenUntil)
                        && after.circuitOpenUntil.Some?
                        && IsTimeout(opts, a.usageRules, now, after.circuitOpenUntil.value - now)
  {
    var threshold := DynamicThreshold(opts, a.usageRules);
    TripsAtThreshold(opts, a.usageRules, consecutiveFailures, threshold);
    if consecutiveFailures >= threshold {
      var timeout := DynamicTimeout(opts, a.usageRules, now);
      return true, a.(circuitOpenUntil := Some(now + timeout));
    }
    return false, a;
  }

  /** From fresh statistics, the counter reaches a threshold exactly when the history ends in a run that long. */
  lemma TripsExactlyOnRun(reports: seq<Report>, threshold: int)
    ensures (exists run: nat :: EndsInFailures(reports, run) && run >= threshold) <==>
            AfterReports(FRESH, reports).consecutiveFailures >= threshold
  {
    StatsCountHistory(reports);
    var failures := AfterReports(FRESH, reports).consecutiveFailures;
    assert EndsInFailures(reports, failures);
    if run: nat :| EndsInFailures(reports, run) && run >= threshold {
      FailureRunUnique(reports, run, failures);
    }
  }

  /** The smallest positive total of a request rule decides: its share, rounded down, but not below the minimum. */
  lemma ThresholdIsShare(opts: Options, rules: seq<Option<UsageRule>>, least: UsageRule, threshold: int)
    requires Some(least) in rules && least.sourceType == Requests && 0.0 < least.total < MAX_FLOAT64
    requires forall r :: r in rules && r.Some? && r.value.sourceType == Requests && r.value.total > 0.0 ==>
               least.total <= r.value.total
    requires IsThreshold(opts, rules, threshold)
    ensures threshold >= opts.minThreshold
    ensures opts.thresholdRatio >= 0.0 ==>
              && (threshold as real <= least.total * opts.thresholdRatio || threshold == opts.minThreshold)
              && least.total * opts.thresholdRatio < (threshold + 1) as real
  {
    hide FlooredShare, PowerOfTwo;
    assert Counts(Some(least));
    var m :| MinTotal(rules, m) && threshold == FlooredShare(opts, m);
    assert m == least.total;
    FlooredShareMeans(opts, m);
  }

  lemma FlooredShareMeans(opts: Options, total: real)
    requires total > 0.0
    ensures FlooredShare(opts, total) >= opts.minThreshold
    ensures opts.thresholdRatio >= 0.0 ==>
              var n := FlooredShare(opts, total);
              && (n as real <= total * opts.thresholdRatio || n == opts.minThreshold)
              && total * opts.thresholdRatio < (n + 1) as real
  {
    if opts.thresholdRatio >= 0.0 {
      NotNegative(total, opts.thresholdRatio);
      TruncateMeans(total * opts.thresholdRatio);
    }
  }

  lemma NotNegative(a: real, b: real)
    requires a >= 0.0 && b >= 0.0
    ensures a * b >= 0.0
  {}

  /** Without a request rule of positive total the default threshold stands. */
  lemma ThresholdIsDefault(opts: Options, rules: seq<Option<UsageRule>>, threshold: int)
    requires forall r :: r in rules && r.Some? && r.value.sourceType == Requests ==> r.value.total <= 0.0
    requires IsThreshold(opts, rules, threshold)
    ensures threshold == opts.defaultThreshold
  {}

  /** Without a valid rule whose window ends later, or with one that ends within the default, the default stands. */
  lemma TimeoutIsDefault(opts: Options, rules: seq<Option<UsageRule>>, now: int, timeout: int)
    requires IsTimeout(opts, rules, now, timeout)
    requires || (forall r :: r in rules && r.Some? && r.value.valid && r.value.windowEnd.Some? ==>
                   r.value.windowEnd.value <= now)
             || (exists r :: r in rules && r.Some? && r.value.valid && r.value.windowEnd.Some?
                             && now < r.value.windowEnd.value < now + opts.defaultTimeout)
    ensures timeout == opts.defaultTimeout
  {}

  /** With all windows that lie ahead longer than the default, the circuit opens until the first of them ends. */
  lemma TimeoutEndsWithWindow(opts: Options, rules: seq<Option<UsageRule>>, now: int, timeout: int, first: UsageRule)
    requires IsTimeout(opts, rules, now, timeout)
    requires Some(first) in rules && first.valid && first.windowEnd.Some? && now < first.windowEnd.value
    requires forall r :: r in rules && WindowAhead(r, now) ==> first.windowEnd.value <= r.value.windowEnd.value
    requires first.windowEnd.value - now >= opts.defaultTimeout
    ensures now + timeout == first.windowEnd.value
  {
    assert WindowAhead(Some(first), now);
  }
}
