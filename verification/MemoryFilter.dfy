/** The in-memory converter: a condition tree becomes a predicate on accounts, or an error. */
module MemoryFilter {
  import opened Prelude
  import opened Entities
  import opened FilterTree
  import opened FilterMeaning

  type AccountPredicate = Account -> bool

  /** The scan over the collected predicates, with its early exit. */
  predicate ScanAll(isAnd: bool, predicates: seq<AccountPredicate>, a: Account) {
    if predicates == [] then isAnd
    else if predicates[0](a) != isAnd then !isAnd
    else ScanAll(isAnd, predicates[1..], a)
  }

  lemma {:induction false} ScanAllMeans(isAnd: bool, predicates: seq<AccountPredicate>, a: Account)
    ensures isAnd ==> (ScanAll(isAnd, predicates, a) <==> forall i :: 0 <= i < |predicates| ==> predicates[i](a))
    ensures !isAnd ==> (ScanAll(isAnd, predicates, a) <==> exists i :: 0 <= i < |predicates| && predicates[i](a))
  {
    if predicates != [] {
      ScanAllMeans(isAnd, predicates[1..], a);
      assert predicates == [predicates[0]] + predicates[1..];
    }
  }

  /** No condition matches every account. */
  method Convert(cond: Filter) returns (r: Result<AccountPredicate, string>)
    ensures r.Success? <==> cond.NilFilter? || MemoryConvertible(cond)
    ensures r.Success? ==> forall a :: r.value(a) == (cond.NilFilter? || Matches(cond, a))
  {
    if cond.NilFilter? {
      return Success((a: Account) => true);
    }
    r := ConvertCondition(cond);
  }

  method ConvertCondition(cond: Filter) returns (r: Result<AccountPredicate, string>)
    ensures r.Success? <==> MemoryConvertible(cond)
    ensures r.Success? ==> forall a :: r.value(a) == Matches(cond, a)
    decreases cond, 1
  {
    if cond.NilFilter? {
      return Failure("nil condition");
    }
    match cond.op {
      case OpAnd => r := BuildLogicalCondition(cond);
      case OpOr => r := BuildLogicalCondition(cond);
      case OpCmp(op) => r := BuildComparisonCondition(cond.field, op, cond.value);
      case OpIn => r := BuildInCondition(cond);
      case OpNotIn => r := BuildInCondition(cond);
      case OpBetween => r := BuildBetweenCondition(cond);
      case OpLike => r := BuildLikeCondition(cond);
      case OpNotLike => r := BuildLikeCondition(cond);
      case _ => r := Failure("unsupported operator");
    }
  }

  method BuildLogicalCondition(cond: Filter) returns (r: Result<AccountPredicate, string>)
    requires cond.Filter? && (cond.op.OpAnd? || cond.op.OpOr?)
    ensures r.Success? <==> MemoryConvertible(cond)
    ensures r.Success? ==> forall a :: r.value(a) == Matches(cond, a)
    decreases cond, 0
  {
    if !cond.value.GoFilters? {
      return Failure("logical operator value must be a list of conditions");
    }
    var subs := cond.value.subs;
    var predicates: seq<AccountPredicate> := [];
    for i := 0 to |subs|
      invariant |predicates| == i
      invariant forall j :: 0 <= j < i ==> MemoryConvertible(subs[j])
      invariant forall j, a :: 0 <= j < i ==> predicates[j](a) == Matches(subs[j], a)
    {
      var p := ConvertCondition(subs[i]);
      if p.Failure? {
        return Failure(p.error);
      }
      predicates := predicates + [p.value];
    }
    if |predicates| == 0 {
      return Failure("no valid sub-conditions in logical condition");
    }
    var isAnd := cond.op.OpAnd?;
    forall a
      ensures ScanAll(isAnd, predicates, a) == Matches(cond, a)
    {
      ScanAllMeans(isAnd, predicates, a);
    }
    return Success((a: Account) => ScanAll(isAnd, predicates, a));
  }

  // ---- The comparison functions, one a kind of value ----

  predicate CompareString(doc: GoValue, val: GoValue, op: CmpOp) {
    doc.GoString? && val.GoString? &&
    match op
    case Eq => doc.s == val.s
    case Ne => doc.s != val.s
    case Gt => StringLess(val.s, doc.s)
    case Gte => doc.s == val.s || StringLess(val.s, doc.s)
    case Lt => StringLess(doc.s, val.s)
    case Lte => doc.s == val.s || StringLess(doc.s, val.s)
  }

  predicate CompareBool(doc: GoValue, val: GoValue, op: CmpOp) {
    doc.GoBool? && val.GoBool? &&
    match op
    case Eq => doc.b == val.b
    case Ne => doc.b != val.b
    case _ => false
  }

  predicate CompareTime(doc: GoValue, val: GoValue, op: CmpOp) {
    doc.GoTime? && val.GoTime? &&
    match op
    case Eq => doc.t == val.t
    case Ne => doc.t != val.t
    case Gt => doc.t > val.t
    case Gte => doc.t > val.t || doc.t == val.t
    case Lt => doc.t < val.t
    case Lte => doc.t < val.t || doc.t == val.t
  }

  function ToFloat64(v: GoValue): Option<real> {
    match v
    case GoInt(i) => Some(i as real)
    case GoInt64(l) => Some(l as real)
    case GoFloat(r) => Some(r)
    case _ => None
  }

  predicate CompareNumber(doc: GoValue, val: GoValue, op: CmpOp) {
    var d, v := ToFloat64(doc), ToFloat64(val);
    d.Some? && v.Some? &&
    match op
    case Eq => d.value == v.value
    case Ne => d.value != v.value
    case Gt => d.value > v.value
    case Gte => d.value >= v.value
    case Lt => d.value < v.value
    case Lte => d.value <= v.value
  }

  /** The kind of the condition's value chooses the comparison. */
  predicate CompareByKind(doc: GoValue, val: GoValue, op: CmpOp) {
    match KindOf(val)
    case KString => CompareString(doc, val, op)
    case KNumber => CompareNumber(doc, val, op)
    case KTime => CompareTime(doc, val, op)
    case KBool => CompareBool(doc, val, op)
    case KNone => false
  }

  /** The four comparisons agree with the one that the database shares. */
  lemma ComparisonsAgree(doc: GoValue, val: GoValue, op: CmpOp)
    ensures CompareByKind(doc, val, op) <==> MemoryCompare(op, doc, val)
  {
    if doc.GoString? && val.GoString? {
      StringOrderTotal(doc.s, val.s);
    }
  }

  method BuildComparisonCondition(field: string, op: CmpOp, value: GoValue)
    returns (r: Result<AccountPredicate, string>)
    ensures r.Success? <==> field in ACCOUNT_FIELDS
    ensures r.Success? ==> forall a :: r.value(a) == MemoryCompare(op, FieldValue(a, field), value)
  {
    if field !in ACCOUNT_FIELDS {
      return Failure("memory: unsupported account field");
    }
    forall doc
      ensures CompareByKind(doc, value, op) <==> MemoryCompare(op, doc, value)
    {
      ComparisonsAgree(doc, value, op);
    }
    return Success((a: Account) => field in ACCOUNT_FIELDS && CompareByKind(FieldValue(a, field), value, op));
  }

  /** The search loop over the listed values. */
  predicate Found(doc: GoValue, items: seq<GoValue>) {
    items != [] && (doc == items[0] || Found(doc, items[1..]))
  }

  lemma {:induction false} FoundIsMember(doc: GoValue, items: seq<GoValue>)
    ensures Found(doc, items) <==> doc in items
  {
    if items != [] {
      FoundIsMember(doc, items[1..]);
      assert items == [items[0]] + items[1..];
    }
  }

  method BuildInCondition(cond: Filter) returns (r: Result<AccountPredicate, string>)
    requires cond.Filter? && (cond.op.OpIn? || cond.op.OpNotIn?)
    ensures r.Success? <==> MemoryConvertible(cond)
    ensures r.Success? ==> forall a :: r.value(a) == Matches(cond, a)
  {
    var field, items := cond.field, SliceItems(cond.value);
    if field !in ACCOUNT_FIELDS {
      return Failure("memory: unsupported account field");
    }
    if items.None? || |items.value| <= 0 {
      return Failure("in operator value must be a slice with at least one value");
    }
    var values, isIn := items.value, cond.op.OpIn?;
    forall doc
      ensures Found(doc, values) <==> doc in values
    {
      FoundIsMember(doc, values);
    }
    return Success((a: Account) => field in ACCOUNT_FIELDS && Found(FieldValue(a, field), values) == isIn);
  }

  /** Two comparisons, the lower bound first. */
  method BuildBetweenCondition(cond: Filter) returns (r: Result<AccountPredicate, string>)
    requires cond.Filter? && cond.op.OpBetween?
    ensures r.Success? <==> MemoryConvertible(cond)
    ensures r.Success? ==> forall a :: r.value(a) == Matches(cond, a)
  {
    var items := SliceItems(cond.value);
    if items.None? || |items.value| != 2 {
      return Failure("between operator value must be a slice with two elements");
    }
    var lower := BuildComparisonCondition(cond.field, Gte, items.value[0]);
    if lower.Failure? {
      return lower;
    }
    var upper := BuildComparisonCondition(cond.field, Lte, items.value[1]);
    if upper.Failure? {
      return upper;
    }
    var condFuncs := [lower.value, upper.value];
    forall a
      ensures ScanAll(true, condFuncs, a) == Matches(cond, a)
    {
      ScanAllMeans(true, condFuncs, a);
      assert condFuncs[0](a) == lower.value(a) && condFuncs[1](a) == upper.value(a);
    }
    return Success((a: Account) => ScanAll(true, condFuncs, a));
  }

  method BuildLikeCondition(cond: Filter) returns (r: Result<AccountPredicate, string>)
    requires cond.Filter? && (cond.op.OpLike? || cond.op.OpNotLike?)
    ensures r.Success? <==> MemoryConvertible(cond)
    ensures r.Success? ==> forall a :: r.value(a) == Matches(cond, a)
  {
    if cond.field !in ACCOUNT_FIELDS {
      return Failure("memory: unsupported account field");
    }
    if !cond.value.GoString? {
      return Failure("like operator requires a string pattern");
    }
    var field, pattern, positive := cond.field, cond.value.s, cond.op.OpLike?;
    return Success((a: Account) =>
      field in ACCOUNT_FIELDS && FieldValue(a, field).GoString?
        && Contains(FieldValue(a, field).s, pattern) == positive);
  }
}
