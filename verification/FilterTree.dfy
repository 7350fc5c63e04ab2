/** Search filters: the condition tree, the values it carries, and what the tree means for an account in memory. */
module FilterTree {
  import opened Prelude
  import opened Entities

  datatype CmpOp = Eq | Ne | Gt | Gte | Lt | Lte

  datatype Operator =
    | OpAnd | OpOr
    | OpCmp(cmp: CmpOp)
    | OpIn | OpNotIn
    | OpLike | OpNotLike
    | OpBetween
    | OpJSONContains | OpJSONNotContains
    | OpUnknown(name: string)

  /**
   A dynamically typed value. GoFilters is a list of conditions, GoOpaque anything the converters do not look into.
   */
  datatype GoValue =
    | GoNil
    | GoString(s: string)
    | GoInt(i: int)
    | GoInt64(l: int)
    | GoFloat(r: real)
    | GoBool(b: bool)
    | GoTime(t: int)
    | GoSlice(items: seq<GoValue>)
    | GoFilters(subs: seq<Filter>)
    | GoOpaque

  datatype Filter = NilFilter | Filter(field: string, op: Operator, value: GoValue)

  /** The elements of a value that reflects as a slice. */
  function SliceItems(v: GoValue): Option<seq<GoValue>> {
    match v
    case GoSlice(items) => Some(items)
    case GoFilters(subs) => Some(seq(|subs|, _ => GoOpaque))
    case _ => None
  }

  predicate Logical(f: Filter) {
    f.Filter? && (f.op.OpAnd? || f.op.OpOr?) && f.value.GoFilters?
  }

  // ---- Leaf comparison ----

  datatype Kind = KString | KNumber | KBool | KTime | KNone

  function KindOf(v: GoValue): Kind {
    match v
    case GoString(_) => KString
    case GoInt(_) => KNumber
    case GoInt64(_) => KNumber
    case GoFloat(_) => KNumber
    case GoBool(_) => KBool
    case GoTime(_) => KTime
    case _ => KNone
  }

  function ToReal(v: GoValue): real
    requires KindOf(v) == KNumber
  {
    match v
    case GoInt(i) => i as real
    case GoInt64(l) => l as real
    case GoFloat(r) => r
  }

  predicate StringLess(a: string, b: string) {
    if a == [] then b != []
    else if b == [] then false
    else a[0] < b[0] || (a[0] == b[0] && StringLess(a[1..], b[1..]))
  }

  predicate Ordered(op: CmpOp, equal: bool, less: bool) {
    match op
    case Eq => equal
    case Ne => !equal
    case Gt => !less && !equal
    case Gte => !less
    case Lt => less
    case Lte => less || equal
  }

  /** Comparison of two values of one kind: what memory and the database agree on. */
  predicate SameKindCompare(op: CmpOp, doc: GoValue, val: GoValue)
    requires KindOf(doc) == KindOf(val)
  {
    match KindOf(val)
    case KString => Ordered(op, doc.s == val.s, StringLess(doc.s, val.s))
    case KNumber => Ordered(op, ToReal(doc) == ToReal(val), ToReal(doc) < ToReal(val))
    case KTime => Ordered(op, doc.t == val.t, doc.t < val.t)
    case KBool => (op == Eq && doc.b == val.b) || (op == Ne && doc.b != val.b)
    case KNone => false
  }

  /** The in-memory comparison: the condition value decides the kind, and a value of another kind never matches. */
  predicate MemoryCompare(op: CmpOp, doc: GoValue, val: GoValue) {
    KindOf(doc) == KindOf(val) && SameKindCompare(op, doc, val)
  }

  // ---- Account fields ----

  const ACCOUNT_FIELDS: set<string> := {
    "id", "provider_type", "provider_name", "status", "priority",
    "cooldown_until", "circuit_open_until", "created_at", "updated_at"
  }

  /** An absent time reads as the zero time, the start of year 1 in nanoseconds before 1970. */
  const ZERO_TIME := -62135596800000000000

  function TimeOrZero(t: Option<int>): GoValue {
    match t
    case Some(v) => GoTime(v)
    case None => GoTime(ZERO_TIME)
  }

  function FieldValue(a: Account, field: string): GoValue
    requires field in ACCOUNT_FIELDS
  {
    if field == "id" then GoString(a.id)
    else if field == "provider_type" then GoString(a.providerType)
    else if field == "provider_name" then GoString(a.providerName)
    else if field == "status" then GoInt(a.status)
    else if field == "priority" then GoInt(a.priority)
    else if field == "cooldown_until" then TimeOrZero(a.cooldownUntil)
    else if field == "circuit_open_until" then TimeOrZero(a.circuitOpenUntil)
    else if field == "created_at" then GoTime(a.createdAt)
    else GoTime(a.updatedAt)
  }

  // ---- Meaning in memory ----

  /** The trees the in-memory converter accepts. */
  predicate MemoryConvertible(f: Filter) {
    f.Filter? &&
    match f.op
    case OpAnd => f.value.GoFilters? && |f.value.subs| > 0 && forall i :: 0 <= i < |f.value.subs| ==>
        MemoryConvertible(f.value.subs[i])
    case OpOr => f.value.GoFilters? && |f.value.subs| > 0 && forall i :: 0 <= i < |f.value.subs| ==>
        MemoryConvertible(f.value.subs[i])
    case OpCmp(_) => f.field in ACCOUNT_FIELDS
    case OpIn => f.field in ACCOUNT_FIELDS && SliceItems(f.value).Some? && |SliceItems(f.value).value| > 0
    case OpNotIn => f.field in ACCOUNT_FIELDS && SliceItems(f.value).Some? && |SliceItems(f.value).value| > 0
    case OpBetween => f.field in ACCOUNT_FIELDS && SliceItems(f.value).Some? && |SliceItems(f.value).value| == 2
    case OpLike => f.field in ACCOUNT_FIELDS && f.value.GoString?
    case OpNotLike => f.field in ACCOUNT_FIELDS && f.value.GoString?
    case _ => false
  }

  predicate Contains(s: string, part: string) {
    part <= s || (s != "" && Contains(s[1..], part))
  }

  /** Whether an account satisfies the tree. */
  predicate Matches(f: Filter, a: Account)
    requires MemoryConvertible(f)
  {
    match f.op
    case OpAnd => forall i :: 0 <= i < |f.value.subs| ==> Matches(f.value.subs[i], a)
    case OpOr => exists i :: 0 <= i < |f.value.subs| && Matches(f.value.subs[i], a)
    case OpCmp(op) => MemoryCompare(op, FieldValue(a, f.field), f.value)
    case OpIn => FieldValue(a, f.field) in SliceItems(f.value).value
    case OpNotIn => FieldValue(a, f.field) !in SliceItems(f.value).value
    case OpBetween =>
      && MemoryCompare(Gte, FieldValue(a, f.field), SliceItems(f.value).value[0])
      && MemoryCompare(Lte, FieldValue(a, f.field), SliceItems(f.value).value[1])
    case OpLike => FieldValue(a, f.field).GoString? && Contains(FieldValue(a, f.field).s, f.value.s)
    case OpNotLike => FieldValue(a, f.field).GoString? && !Contains(FieldValue(a, f.field).s, f.value.s)
  }

  // ---- Search filters ----

  /** First-level fields, empty or zero when not used, and an optional condition tree. */
  datatype SearchFilter = SearchFilter(providerType: string, providerName: string, status: int, supportedModel: string,
    extraCond: Filter)

  const ANY := SearchFilter("", "", 0, "", NilFilter)

  predicate MatchesFirstLevel(a: Account, filter: SearchFilter) {
    && (filter.providerType == "" || a.providerType == filter.providerType)
    && (filter.providerName == "" || a.providerName == filter.providerName)
    && (filter.status == 0 || a.status == filter.status)
  }

  predicate Selects(filter: SearchFilter, a: Account)
    requires filter.extraCond.NilFilter? || MemoryConvertible(filter.extraCond)
  {
    MatchesFirstLevel(a, filter) && (filter.extraCond.NilFilter? || Matches(filter.extraCond, a))
  }
}
