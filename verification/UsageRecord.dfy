/** Tracked usage of one rule: a remote snapshot plus what was counted locally since. */
module UsageRecord {
  import opened Prelude
  import opened Entities

  datatype TrackedUsage = TrackedUsage(
    rule: Option<UsageRule>,
    localUsed: real,
    remoteUsed: real,
    remoteRemain: real,
    windowEnd: Option<int>)
  {
    function EstimatedRemain(): real {
      remoteRemain - localUsed
    }

    function EstimatedUsed(): real {
      remoteUsed + localUsed
    }

    /** Between 0 and 1 for a rule within its total; 1 when there is nothing to measure against. */
    function RemainRatio(): real {
      if rule.None? || rule.value.total <= 0.0 then 1.0
      else
        var ratio := EstimatedRemain() / rule.value.total;
        if ratio < 0.0 then 0.0 else ratio
    }

    predicate Expired(now: int) {
      windowEnd.Some? && now > windowEnd.value
    }

    predicate IsFor(source: SourceType) {
      rule.Some? && rule.value.sourceType == source
    }
  }

  function UsagesOf(store: map<string, seq<TrackedUsage>>, id: string): seq<TrackedUsage> {
    if id in store then store[id] else []
  }

  /** The usages whose window has not passed, in stored order. */
  function Live(usages: seq<TrackedUsage>, now: int): seq<TrackedUsage> {
    if usages == [] then []
    else
      var last := usages[|usages| - 1];
      Live(usages[..|usages| - 1], now) + (if last.Expired(now) then [] else [last])
  }

  /** The windows that count are those that do not end, or end at this moment or later. */
  lemma {:induction false} LiveMembers(usages: seq<TrackedUsage>, now: int)
    ensures forall u :: u in Live(usages, now) <==> u in usages && (u.windowEnd.None? || now <= u.windowEnd.value)
  {
    if usages != [] {
      var rest, last := usages[..|usages| - 1], usages[|usages| - 1];
      LiveMembers(rest, now);
      assert usages == rest + [last];
    }
  }

  /** The ratio is the share of the total that neither the remote figures nor the local count have used up. */
  lemma RatioMeans(u: TrackedUsage)
    ensures u.RemainRatio() >= 0.0
    ensures u.rule.Some? && u.rule.value.total > 0.0 ==>
              if u.localUsed <= u.remoteRemain then u.RemainRatio() * u.rule.value.total == u.remoteRemain - u.localUsed
              else u.RemainRatio() == 0.0
    ensures u.rule.None? || u.rule.value.total <= 0.0 ==> u.RemainRatio() == 1.0
  {}
}
