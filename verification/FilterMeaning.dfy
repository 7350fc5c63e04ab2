/** What each condition means for an account's own fields, operator by operator, and the order strings have. */
module FilterMeaning {
  import opened Prelude
  import opened Entities
  import opened FilterTree

  // ---- The order of strings ----

  /** A proper prefix comes first; otherwise the first character that differs decides. */
  lemma {:induction false} StringLessMeans(a: string, b: string)
    ensures StringLess(a, b) <==>
            (a <= b && a != b) || exists k :: 0 <= k < |a| && k < |b| && a[..k] == b[..k] && a[k] < b[k]
  {
    if a != [] && b != [] {
      StringLessMeans(a[1..], b[1..]);
      if k :| 0 <= k < |a| && k < |b| && a[..k] == b[..k] && a[k] < b[k] {
        if k > 0 {
          assert a[0] == a[..k][0] == b[..k][0] == b[0];
          assert a[1..][..k - 1] == a[..k][1..] == b[1..][..k - 1];
          assert a[1..][k - 1] < b[1..][k - 1];
        }
      }
      if k :| 0 <= k < |a| - 1 && k < |b| - 1 && a[1..][..k] == b[1..][..k] && a[1..][k] < b[1..][k] && a[0] == b[0] {
        assert a[..k + 1] == [a[0]] + a[1..][..k] == b[..k + 1];
        assert a[k + 1] < b[k + 1];
      }
      if a[0] < b[0] {
        assert a[..0] == b[..0];
      }
    }
  }

  /** Of two strings exactly one is less, or they are equal. */
  lemma {:induction false} StringOrderTotal(a: string, b: string)
    ensures a == b ==> !StringLess(a, b) && !StringLess(b, a)
    ensures a != b ==> StringLess(a, b) != StringLess(b, a)
  {
    if a != [] && b != [] {
      StringOrderTotal(a[1..], b[1..]);
      assert a == [a[0]] + a[1..] && b == [b[0]] + b[1..];
    }
  }

  lemma {:induction false} StringOrderTransitive(a: string, b: string, c: string)
    requires StringLess(a, b) && StringLess(b, c)
    ensures StringLess(a, c)
  {
    if a != [] && a[0] == b[0] == c[0] {
      StringOrderTransitive(a[1..], b[1..], c[1..]);
    }
  }

  // ---- Comparisons ----

  /** A condition with a number on the status or the priority compares the two as numbers, whatever type carries it. */
  lemma NumberConditions(a: Account, field: string, x: int, v: GoValue, y: real)
    requires (field == "status" && x == a.status) || (field == "priority" && x == a.priority)
    requires (v.GoInt? && v.i as real == y) || (v.GoInt64? && v.l as real == y) || (v.GoFloat? && v.r == y)
    ensures Matches(Filter(field, OpCmp(Eq), v), a) <==> x as real == y
    ensures Matches(Filter(field, OpCmp(Ne), v), a) <==> x as real != y
    ensures Matches(Filter(field, OpCmp(Gt), v), a) <==> x as real > y
    ensures Matches(Filter(field, OpCmp(Gte), v), a) <==> x as real >= y
    ensures Matches(Filter(field, OpCmp(Lt), v), a) <==> x as real < y
    ensures Matches(Filter(field, OpCmp(Lte), v), a) <==> x as real <= y
  {}

  /** A time that is not set compares as the start of year 1: 719162 days before 1970, in nanoseconds. */
  lemma TimeConditions(a: Account, field: string, set': Option<int>, x: int, t: int)
    requires || (field == "created_at" && set' == Some(a.createdAt))
             || (field == "updated_at" && set' == Some(a.updatedAt))
             || (field == "cooldown_until" && set' == a.cooldownUntil)
             || (field == "circuit_open_until" && set' == a.circuitOpenUntil)
    requires x == if set'.Some? then set'.value else -719162 * 24 * 3600 * 1000000000
    ensures Matches(Filter(field, OpCmp(Eq), GoTime(t)), a) <==> x == t
    ensures Matches(Filter(field, OpCmp(Ne), GoTime(t)), a) <==> x != t
    ensures Matches(Filter(field, OpCmp(Gt), GoTime(t)), a) <==> x > t
    ensures Matches(Filter(field, OpCmp(Gte), GoTime(t)), a) <==> x >= t
    ensures Matches(Filter(field, OpCmp(Lt), GoTime(t)), a) <==> x < t
    ensures Matches(Filter(field, OpCmp(Lte), GoTime(t)), a) <==> x <= t
  {}

  lemma StringConditions(a: Account, field: string, x: string, y: string)
    requires || (field == "id" && x == a.id)
             || (field == "provider_type" && x == a.providerType)
             || (field == "provider_name" && x == a.providerName)
    ensures Matches(Filter(field, OpCmp(Eq), GoString(y)), a) <==> x == y
    ensures Matches(Filter(field, OpCmp(Ne), GoString(y)), a) <==> x != y
    ensures Matches(Filter(field, OpCmp(Gt), GoString(y)), a) <==> StringLess(y, x)
    ensures Matches(Filter(field, OpCmp(Gte), GoString(y)), a) <==> x == y || StringLess(y, x)
    ensures Matches(Filter(field, OpCmp(Lt), GoString(y)), a) <==> StringLess(x, y)
    ensures Matches(Filter(field, OpCmp(Lte), GoString(y)), a) <==> x == y || StringLess(x, y)
  {
    StringOrderTotal(x, y);
  }

  /** Booleans are compared for equality only. */
  lemma BooleanComparisons(x: bool, y: bool)
    ensures MemoryCompare(Eq, GoBool(x), GoBool(y)) <==> x == y
    ensures MemoryCompare(Ne, GoBool(x), GoBool(y)) <==> x != y
    ensures forall op :: op in {Gt, Gte, Lt, Lte} ==> !MemoryCompare(op, GoBool(x), GoBool(y))
  {}

  /** A value of another kind satisfies no comparison, "not equal" included. */
  lemma OtherKindNeverMatches(a: Account, field: string, op: CmpOp, v: GoValue)
    requires || (field in {"status", "priority"} && !v.GoInt? && !v.GoInt64? && !v.GoFloat?)
             || (field in {"created_at", "updated_at", "cooldown_until", "circuit_open_until"} && !v.GoTime?)
             || (field in {"id", "provider_type", "provider_name"} && !v.GoString?)
    ensures !Matches(Filter(field, OpCmp(op), v), a)
  {}

  /** These nine fields can be asked about and no other. */
  lemma FieldsThatCount(field: string, op: CmpOp, v: GoValue)
    ensures MemoryConvertible(Filter(field, OpCmp(op), v)) <==>
            || field == "id" || field == "provider_type" || field == "provider_name" || field == "status"
            || field == "priority" || field == "cooldown_until" || field == "circuit_open_until"
            || field == "created_at" || field == "updated_at"
  {}

  // ---- Ranges, lists and patterns ----

  /** A range is the lower bound at least and the upper bound at most, each as a comparison of its own. */
  lemma RangeIsTwoComparisons(a: Account, field: string, lo: GoValue, hi: GoValue)
    requires field in ACCOUNT_FIELDS
    ensures Matches(Filter(field, OpBetween, GoSlice([lo, hi])), a) <==>
            && Matches(Filter(field, OpCmp(Gte), lo), a)
            && Matches(Filter(field, OpCmp(Lte), hi), a)
  {}

  /** A list holds the field's value only in the field's own type: an int64 is not equal to an int. */
  lemma ListConditions(a: Account, field: string, x: GoValue, items: seq<GoValue>)
    requires items != []
    requires || (field == "id" && x == GoString(a.id))
             || (field == "provider_type" && x == GoString(a.providerType))
             || (field == "provider_name" && x == GoString(a.providerName))
             || (field == "status" && x == GoInt(a.status))
             || (field == "priority" && x == GoInt(a.priority))
             || (field == "created_at" && x == GoTime(a.createdAt))
             || (field == "updated_at" && x == GoTime(a.updatedAt))
    ensures Matches(Filter(field, OpIn, GoSlice(items)), a) <==> exists i :: 0 <= i < |items| && items[i] == x
    ensures Matches(Filter(field, OpNotIn, GoSlice(items)), a) <==> forall i :: 0 <= i < |items| ==> items[i] != x
  {}

  /** A list of conditions is a list like any other, and holds no field's value. */
  lemma ConditionsAsList(a: Account, field: string, subs: seq<Filter>)
    requires field in ACCOUNT_FIELDS && subs != []
    ensures MemoryConvertible(Filter(field, OpIn, GoFilters(subs))) && !Matches(Filter(field, OpIn, GoFilters(subs)), a)
    ensures Matches(Filter(field, OpNotIn, GoFilters(subs)), a)
  {}

  /** A pattern is looked for anywhere in the string. */
  lemma {:induction false} ContainsMeans(s: string, part: string)
    ensures Contains(s, part) <==> exists k :: 0 <= k <= |s| && part <= s[k..]
  {
    assert s[0..] == s;
    if s != "" {
      ContainsMeans(s[1..], part);
      assert forall k :: 0 < k <= |s| ==> s[k..] == s[1..][k - 1..];
      assert forall k :: 0 <= k < |s| ==> s[1..][k..] == s[k + 1..];
    }
  }

  lemma PatternConditions(a: Account, field: string, x: string, part: string)
    requires || (field == "id" && x == a.id)
             || (field == "provider_type" && x == a.providerType)
             || (field == "provider_name" && x == a.providerName)
    ensures Matches(Filter(field, OpLike, GoString(part)), a) <==> exists k :: 0 <= k <= |x| && part <= x[k..]
    ensures Matches(Filter(field, OpNotLike, GoString(part)), a) <==> forall k :: 0 <= k <= |x| ==> !(part <= x[k..])
  {
    ContainsMeans(x, part);
  }

  /** Numbers and times match no pattern and no negated pattern. */
  lemma PatternsAreForStrings(a: Account, field: string, part: string)
    requires field in {"status", "priority", "created_at", "updated_at", "cooldown_until", "circuit_open_until"}
    ensures !Matches(Filter(field, OpLike, GoString(part)), a)
    ensures !Matches(Filter(field, OpNotLike, GoString(part)), a)
  {}

  // ---- The first-level fields ----

  /** Each first-level field is either not used or the account's own. */
  lemma FirstLevelMeans(filter: SearchFilter, a: Account)
    ensures MatchesFirstLevel(a, filter) <==>
            && filter.providerType in {"", a.providerType}
            && filter.providerName in {"", a.providerName}
            && filter.status in {0, a.status}
  {}
}
