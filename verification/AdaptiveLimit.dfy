/** The concurrency limit computed from remaining quota and remaining window time. */
module AdaptiveLimit {
  import opened Prelude
  import opened UsageRecord

  const MAX_INT64 := 0x7FFF_FFFF_FFFF_FFFF
  const NANOS_PER_SECOND := 1000000000.0

  datatype Params = Params(factor: real, minLimit: int, maxLimit: int, fallbackLimit: int)

  predicate Measured(u: TrackedUsage) {
    u.rule.Some? && u.rule.value.total > 0.0
  }

  predicate Exhausted(u: TrackedUsage) {
    Measured(u) && u.EstimatedRemain() <= 0.0
  }

  /** Seconds until the window ends; 60 when there is no window ahead. */
  function SecondsLeft(u: TrackedUsage, now: int): (s: real)
    ensures s > 0.0
  {
    if u.windowEnd.Some? && now < u.windowEnd.value then (u.windowEnd.value - now) as real / NANOS_PER_SECOND else 60.0
  }

  /** What one rule allows: remaining quota per second of window left, scaled. */
  function RuleLimit(u: TrackedUsage, now: int, factor: real): int {
    (u.EstimatedRemain() / SecondsLeft(u, now) * factor).Floor
  }

  function Ceiling(r: real): int {
    -((-r).Floor)
  }

  function Shrunk(limit: int, minRatio: real): int {
    Ceiling(limit as real * minRatio * 10.0)
  }

  /** Close to exhaustion the limit shrinks with the smallest remaining ratio. */
  function Compress(limit: int, minRatio: real): int {
    if minRatio < 0.1 then Shrunk(limit, minRatio) else limit
  }

  function Clamp(p: Params, limit: int): int {
    var raised := if limit < p.minLimit then p.minLimit else limit;
    if p.maxLimit > 0 && raised > p.maxLimit then p.maxLimit else raised
  }

  function MinRatio(usages: seq<TrackedUsage>): real {
    if usages == [] then 1.0
    else
      var rest, last := MinRatio(usages[..|usages| - 1]), usages[|usages| - 1].RemainRatio();
      if last < rest then last else rest
  }

  method ComputeMinRemainRatio(usages: seq<TrackedUsage>) returns (min: real)
    ensures min == MinRatio(usages)
  {
    min := 1.0;
    for i := 0 to |usages|
      invariant min == MinRatio(usages[..i])
    {
      assert usages[..i + 1][..i] == usages[..i];
      var r := usages[i].RemainRatio();
      if r < min {
        min := r;
      }
    }
    assert usages[..|usages|] == usages;
  }

  // ---- What the limit means, whatever order the rules come in ----

  ghost predicate AnyExhausted(usages: seq<TrackedUsage>) {
    exists u :: u in usages && Exhausted(u)
  }

  /** The limit of the tightest measured rule. */
  ghost predicate Tightest(usages: seq<TrackedUsage>, now: int, factor: real, best: int) {
    && (exists u :: u in usages && Measured(u) && RuleLimit(u, now, factor) == best)
    && (forall u :: u in usages && Measured(u) ==> best <= RuleLimit(u, now, factor))
  }

  ghost predicate AnyMeasured(usages: seq<TrackedUsage>) {
    exists u :: u in usages && Measured(u)
  }

  /** Every measured rule allows less than the largest 64-bit integer. */
  ghost predicate Fits64(usages: seq<TrackedUsage>, now: int, factor: real) {
    forall u :: u in usages && Measured(u) ==> RuleLimit(u, now, factor) < MAX_INT64
  }

  /** limit is the answer for these usages. */
  ghost predicate IsLimit(p: Params, usages: seq<TrackedUsage>, now: int, limit: int) {
    if AnyExhausted(usages) then limit == p.minLimit
    else if !AnyMeasured(usages) then limit == p.fallbackLimit
    else exists best :: Tightest(usages, now, p.factor, best) && limit == Clamp(p, Compress(best, MinRatio(usages)))
  }

  /** What the scan knows of the rules read so far: none exhausted, and the tightest limit below the largest integer. */
  ghost predicate Scanned(before: seq<TrackedUsage>, now: int, factor: real, best: int, found: bool) {
    && (forall u :: u in before ==> !Exhausted(u))
    && (!found ==> best == MAX_INT64 && forall u :: u in before && Measured(u) ==>
       RuleLimit(u, now, factor) >= MAX_INT64)
    && (found ==> best < MAX_INT64 && Tightest(before, now, factor, best))
  }

  lemma ScanNext(before: seq<TrackedUsage>, u: TrackedUsage, now: int, factor: real, best: int, found: bool)
    requires Scanned(before, now, factor, best, found) && !Exhausted(u)
    ensures !Measured(u) || best <= RuleLimit(u, now, factor) ==> Scanned(before + [u], now, factor, best, found)
    ensures Measured(u) && RuleLimit(u, now, factor) < best ==>
              Scanned(before + [u], now, factor, RuleLimit(u, now, factor), true)
  {
    assert u in before + [u];
    if found {
      var v :| v in before && Measured(v) && RuleLimit(v, now, factor) == best;
      assert v in before + [u];
    }
  }

  lemma ScanEnds(p: Params, usages: seq<TrackedUsage>, now: int, best: int, found: bool)
    requires Scanned(usages, now, p.factor, best, found) && Fits64(usages, now, p.factor)
    ensures IsLimit(p, usages, now, if found then Clamp(p, Compress(best, MinRatio(usages))) else p.fallbackLimit)
  {
    if found {
      assert AnyMeasured(usages);
    }
  }

  lemma EarlyAnswers(p: Params, usages: seq<TrackedUsage>, now: int)
    ensures usages == [] ==> IsLimit(p, usages, now, p.fallbackLimit)
    ensures AnyExhausted(usages) ==> IsLimit(p, usages, now, p.minLimit)
  {}

  /** tracked is None when the tracker failed. */
  method CalculateLimit(p: Params, tracked: Option<seq<TrackedUsage>>, now: int) returns (limit: int)
    ensures tracked.None? ==> limit == p.fallbackLimit
    ensures tracked.Some? && Fits64(tracked.value, now, p.factor) ==> IsLimit(p, tracked.value, now, limit)
  {
    hide Scanned, RuleLimit, Fits64, MinRatio, IsLimit, Shrunk;
    if tracked.None? {
      return p.fallbackLimit;
    }
    var usages := tracked.value;
    EarlyAnswers(p, usages, now);
    if |usages| == 0 {
      return p.fallbackLimit;
    }
    var minRatio := ComputeMinRemainRatio(usages);
    var bestLimit, found := MAX_INT64, false;
    ScanStarts(now, p.factor);
    assert usages[..0] == [];
    for i := 0 to |usages|
      invariant Scanned(usages[..i], now, p.factor, bestLimit, found)
    {
      var u := usages[i];
      assert usages[..i + 1] == usages[..i] + [u];
      if u.rule.None? || u.rule.value.total <= 0.0 {
        ScanNext(usages[..i], u, now, p.factor, bestLimit, found);
        continue;
      }
      if u.EstimatedRemain() <= 0.0 {
        assert u in usages && Exhausted(u);
        return p.minLimit;
      }
      ScanNext(usages[..i], u, now, p.factor, bestLimit, found);
      var ruleLimit := RuleLimit(u, now, p.factor);
      if ruleLimit < bestLimit {
        bestLimit := ruleLimit;
        found := true;
      }
    }
    assert usages[..|usages|] == usages;
    if Fits64(usages, now, p.factor) {
      ScanEnds(p, usages, now, bestLimit, found);
    }
    if !found {
      return p.fallbackLimit;
    }
    if minRatio < 0.1 {
      bestLimit := Shrunk(bestLimit, minRatio);
    }
    if bestLimit < p.minLimit {
      bestLimit := p.minLimit;
    }
    if p.maxLimit > 0 && bestLimit > p.maxLimit {
      bestLimit := p.maxLimit;
    }
    return bestLimit;
  }

  lemma ScanStarts(now: int, factor: real)
    ensures Scanned([], now, factor, MAX_INT64, false)
  {}

  // ---- What the formulas mean ----

  /** A rule's limit is the rate at which what is left lasts until its window ends, rounded down. */
  lemma RuleLimitInWindow(u: TrackedUsage, now: int, factor: real)
    requires u.windowEnd.Some? && now < u.windowEnd.value
    ensures var left, n := (u.windowEnd.value - now) as real / 1000000000.0, RuleLimit(u, now, factor);
            n as real * left <= (u.remoteRemain - u.localUsed) * factor < (n + 1) as real * left
  {
    RateTimesTime(u.EstimatedRemain(), SecondsLeft(u, now), factor, RuleLimit(u, now, factor));
  }

  /** Without a window, or after its end, what is left is spread over a minute. */
  lemma RuleLimitOutsideWindow(u: TrackedUsage, now: int, factor: real)
    requires u.windowEnd.None? || u.windowEnd.value <= now
    ensures var n := RuleLimit(u, now, factor);
            n as real * 60.0 <= (u.remoteRemain - u.localUsed) * factor < (n + 1) as real * 60.0
  {
    RateTimesTime(u.EstimatedRemain(), SecondsLeft(u, now), factor, RuleLimit(u, now, factor));
  }

  lemma RateTimesTime(remain: real, seconds: real, factor: real, n: int)
    requires seconds > 0.0 && n == (remain / seconds * factor).Floor
    ensures n as real * seconds <= remain * factor < (n + 1) as real * seconds
  {
    var rate := remain / seconds;
    assert remain == rate * seconds;
    Reordered(rate, factor, seconds, remain);
    FloorScaled(rate * factor, seconds, n);
  }

  lemma Reordered(a: real, b: real, c: real, r: real)
    requires r == a * c
    ensures (a * b) * c == r * b
  {
    assert r * b == (a * c) * b;
  }

  lemma FloorScaled(x: real, seconds: real, n: int)
    requires seconds > 0.0 && n == x.Floor
    ensures n as real * seconds <= x * seconds < (n + 1) as real * seconds
  {
    ProductGrows(n as real, x, seconds);
    StrictlyGrows(x, (n + 1) as real, seconds);
  }

  lemma StrictlyGrows(a: real, b: real, f: real)
    requires a < b && f > 0.0
    ensures a * f < b * f
  {}

  /** From a tenth of the quota on nothing is taken off; below, ten times the ratio is kept, rounded up. */
  lemma CompressMeans(limit: int, minRatio: real)
    ensures minRatio >= 0.1 ==> Compress(limit, minRatio) == limit
    ensures minRatio < 0.1 ==> var n := Compress(limit, minRatio);
              (n - 1) as real < limit as real * minRatio * 10.0 <= n as real
  {}

  /** The upper bound counts when it is positive, and goes before the lower one. */
  lemma ClampMeans(p: Params, limit: int)
    ensures p.maxLimit <= 0 ==> Clamp(p, limit) >= limit && Clamp(p, limit) >= p.minLimit
    ensures p.maxLimit > 0 ==> Clamp(p, limit) <= p.maxLimit
    ensures Clamp(p, limit) in {limit, p.minLimit, p.maxLimit}
    ensures p.minLimit <= limit && (p.maxLimit <= 0 || limit <= p.maxLimit) ==> Clamp(p, limit) == limit
    ensures limit < p.minLimit && (p.maxLimit <= 0 || p.minLimit <= p.maxLimit) ==> Clamp(p, limit) == p.minLimit
    ensures p.maxLimit > 0 && (limit > p.maxLimit || p.minLimit > p.maxLimit) ==> Clamp(p, limit) == p.maxLimit
  {}

  // ---- Properties of the limit ----

  /** The limit lies between its bounds. */
  lemma LimitWithinBounds(p: Params, usages: seq<TrackedUsage>, now: int, limit: int)
    requires IsLimit(p, usages, now, limit) && AnyMeasured(usages)
    requires p.maxLimit <= 0 || p.maxLimit >= p.minLimit
    ensures p.minLimit <= limit && (p.maxLimit > 0 ==> limit <= p.maxLimit)
  {}

  ghost predicate IsMinRatio(usages: seq<TrackedUsage>, r: real) {
    && r <= 1.0 && (r == 1.0 || exists u :: u in usages && u.RemainRatio() == r)
    && forall u :: u in usages ==> r <= u.RemainRatio()
  }

  lemma {:induction false} MinRatioMeans(usages: seq<TrackedUsage>)
    ensures IsMinRatio(usages, MinRatio(usages))
  {
    if usages != [] {
      var rest, last := usages[..|usages| - 1], usages[|usages| - 1];
      MinRatioMeans(rest);
      assert usages == rest + [last];
      assert last in usages;
      forall u | u in rest
        ensures u in usages
      {}
    }
  }

  /** The order of the rules, and how often each is listed, does not matter. */
  lemma LimitIgnoresOrder(p: Params, u1: seq<TrackedUsage>, u2: seq<TrackedUsage>, now: int, l1: int, l2: int)
    requires forall u :: u in u1 <==> u in u2
    requires IsLimit(p, u1, now, l1) && IsLimit(p, u2, now, l2)
    ensures l1 == l2
  {
    MinRatioMeans(u1);
    MinRatioMeans(u2);
    assert MinRatio(u1) == MinRatio(u2);
    if !AnyExhausted(u1) && AnyMeasured(u1) {
      var b1 :| Tightest(u1, now, p.factor, b1) && l1 == Clamp(p, Compress(b1, MinRatio(u1)));
      var b2 :| Tightest(u2, now, p.factor, b2) && l2 == Clamp(p, Compress(b2, MinRatio(u2)));
      assert b1 == b2;
    }
  }

  /** The same rules and windows with at least as much quota left in each. */
  ghost predicate HasMore(less: seq<TrackedUsage>, more: seq<TrackedUsage>) {
    && |less| == |more|
    && forall i :: 0 <= i < |less| ==>
         && less[i].rule == more[i].rule && less[i].windowEnd == more[i].windowEnd
         && less[i].EstimatedRemain() <= more[i].EstimatedRemain()
  }

  lemma QuotientGrows(a: real, b: real, s: real, f: real)
    requires a <= b && s > 0.0 && f >= 0.0
    ensures a / s * f <= b / s * f
    ensures a >= 0.0 ==> a / s * f >= 0.0
  {
    assert a / s <= b / s;
    ProductGrows(a / s, b / s, f);
    if a >= 0.0 {
      assert a / s >= 0.0;
      ProductGrows(0.0, a / s, f);
    }
  }

  lemma ProductGrows(a: real, b: real, f: real)
    requires a <= b && f >= 0.0
    ensures a * f <= b * f
  {}

  lemma ProductsGrow(a: real, b: real, r: real, s: real)
    requires 0.0 <= a <= b && 0.0 <= r <= s
    ensures a * r <= b * s
  {
    ProductGrows(a, b, r);
    ProductGrows(r, s, b);
    assert r * b == b * r && s * b == b * s;
  }

  lemma RuleLimitGrows(u: TrackedUsage, v: TrackedUsage, now: int, factor: real)
    requires u.windowEnd == v.windowEnd && u.EstimatedRemain() <= v.EstimatedRemain() && factor >= 0.0
    ensures RuleLimit(u, now, factor) <= RuleLimit(v, now, factor)
    ensures u.EstimatedRemain() > 0.0 ==> RuleLimit(u, now, factor) >= 0
  {
    QuotientGrows(u.EstimatedRemain(), v.EstimatedRemain(), SecondsLeft(u, now), factor);
  }

  lemma RatioGrows(u: TrackedUsage, v: TrackedUsage)
    requires u.rule == v.rule && u.EstimatedRemain() <= v.EstimatedRemain()
    ensures 0.0 <= u.RemainRatio() <= v.RemainRatio()
  {
    if u.rule.Some? && u.rule.value.total > 0.0 {
      QuotientGrows(u.EstimatedRemain(), v.EstimatedRemain(), u.rule.value.total, 1.0);
    }
  }

  lemma MinRatioGrows(less: seq<TrackedUsage>, more: seq<TrackedUsage>)
    requires HasMore(less, more)
    ensures 0.0 <= MinRatio(less) <= MinRatio(more)
  {
    MinRatioMeans(less);
    MinRatioMeans(more);
    if MinRatio(more) != 1.0 {
      var v :| v in more && v.RemainRatio() == MinRatio(more);
      var i :| 0 <= i < |more| && more[i] == v;
      RatioGrows(less[i], v);
      assert less[i] in less;
    }
    if MinRatio(less) != 1.0 {
      var u :| u in less && u.RemainRatio() == MinRatio(less);
      RatioGrows(u, u);
    }
  }

  lemma CeilingGrows(x: real, y: real)
    requires x <= y
    ensures Ceiling(x) <= Ceiling(y)
  {}

  lemma CeilingOfInt(x: real, n: int)
    requires x <= n as real
    ensures Ceiling(x) <= n
  {}

  /** Compression keeps order, and never lifts a limit. */
  lemma CompressGrows(b1: int, b2: int, r1: real, r2: real)
    requires 0 <= b1 <= b2 && 0.0 <= r1 <= r2
    ensures Compress(b1, r1) <= Compress(b2, r2)
  {
    var x, y := b1 as real * r1, b2 as real * r2;
    if r1 < 0.1 {
      if r2 < 0.1 {
        ProductsGrow(b1 as real, b2 as real, r1, r2);
        CeilingGrows(x * 10.0, y * 10.0);
      } else {
        ProductsGrow(b1 as real, b1 as real, r1, 0.1);
        CeilingOfInt(x * 10.0, b1);
      }
    }
  }

  lemma TightestGrows(less: seq<TrackedUsage>, more: seq<TrackedUsage>, now: int, factor: real, b1: int, b2: int)
    requires HasMore(less, more) && factor >= 0.0
    requires Tightest(less, now, factor, b1) && Tightest(more, now, factor, b2)
    ensures b1 <= b2
    ensures !AnyExhausted(less) ==> b1 >= 0
  {
    var v :| v in more && Measured(v) && RuleLimit(v, now, factor) == b2;
    var i :| 0 <= i < |more| && more[i] == v;
    assert less[i] in less && Measured(less[i]);
    RuleLimitGrows(less[i], v, now, factor);
    var u :| u in less && Measured(u) && RuleLimit(u, now, factor) == b1;
    RuleLimitGrows(u, u, now, factor);
  }

  lemma ClampGrows(p: Params, a: int, b: int)
    requires a <= b
    ensures Clamp(p, a) <= Clamp(p, b)
    ensures p.maxLimit <= 0 || p.maxLimit >= p.minLimit ==> p.minLimit <= Clamp(p, a)
  {}

  /** More remaining quota never lowers the limit, across exhaustion and compression alike. */
  lemma LimitGrowsWithQuota(p: Params, less: seq<TrackedUsage>, more: seq<TrackedUsage>, now: int, l1: int, l2: int)
    requires HasMore(less, more) && p.factor >= 0.0 && (p.maxLimit <= 0 || p.maxLimit >= p.minLimit)
    requires IsLimit(p, less, now, l1) && IsLimit(p, more, now, l2)
    ensures l1 <= l2
  {
    SameMeasured(less, more);
    if AnyExhausted(more) {
    } else if AnyExhausted(less) {
      LimitWithinBounds(p, more, now, l2);
    } else if AnyMeasured(less) {
      var b1 :| Tightest(less, now, p.factor, b1) && l1 == Clamp(p, Compress(b1, MinRatio(less)));
      var b2 :| Tightest(more, now, p.factor, b2) && l2 == Clamp(p, Compress(b2, MinRatio(more)));
      TightestGrows(less, more, now, p.factor, b1, b2);
      MinRatioGrows(less, more);
      CompressGrows(b1, b2, MinRatio(less), MinRatio(more));
      ClampGrows(p, Compress(b1, MinRatio(less)), Compress(b2, MinRatio(more)));
    }
  }

  /** The same rule with at least as much left is measured alike, and exhausted only if the other is. */
  lemma MoreLeft(u: TrackedUsage, v: TrackedUsage)
    requires u.rule == v.rule && u.EstimatedRemain() <= v.EstimatedRemain()
    ensures Measured(u) <==> Measured(v)
    ensures Exhausted(v) ==> Exhausted(u)
    ensures Exhausted(u) ==> Measured(u)
  {}

  lemma SameMeasured(less: seq<TrackedUsage>, more: seq<TrackedUsage>)
    requires HasMore(less, more)
    ensures AnyMeasured(less) <==> AnyMeasured(more)
    ensures AnyExhausted(more) ==> AnyExhausted(less)
    ensures AnyExhausted(less) ==> AnyMeasured(less)
  {
    forall i | 0 <= i < |less|
      ensures less[i] in less && more[i] in more
      ensures Measured(less[i]) <==> Measured(more[i])
      ensures Exhausted(more[i]) ==> Exhausted(less[i])
      ensures Exhausted(less[i]) ==> Measured(less[i])
    {
      MoreLeft(less[i], more[i]);
    }
    hide Measured, Exhausted, HasMore;
    if AnyMeasured(less) {
      var u :| u in less && Measured(u);
      var i :| 0 <= i < |less| && less[i] == u;
      assert more[i] in more;
    }
    if AnyMeasured(more) {
      var u :| u in more && Measured(u);
      var i :| 0 <= i < |more| && more[i] == u;
      assert less[i] in less;
    }
    if AnyExhausted(more) {
      var u :| u in more && Exhausted(u);
      var i :| 0 <= i < |more| && more[i] == u;
      assert less[i] in less;
    }
    if AnyExhausted(less) {
      var u :| u in less && Exhausted(u);
      var i :| 0 <= i < |less| && less[i] == u;
      assert Measured(less[i]);
    }
  }
}
