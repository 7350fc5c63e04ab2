/**
 The MySQL converter: a condition tree becomes WHERE text with positional arguments, meaning what the tree means in
 memory.
 */
module MysqlFilter {
  import opened Prelude
  import opened Entities
  import opened FilterTree
  import opened SqlText

  /** Text and arguments of a condition. */
  datatype Converted = Converted(cond: seq<Token>, args: seq<GoValue>)

  type Mapping = map<string, string>

  function ColumnOf(mapping: Mapping, field: string): string {
    if field in mapping then mapping[field] else field
  }

  /** The values that have a JSON form. */
  predicate JsonValue(v: GoValue) {
    v.GoNil? || v.GoString? || v.GoInt? || v.GoInt64? || v.GoFloat? || v.GoBool?
  }

  /** The trees the converter accepts. */
  predicate MysqlConvertible(f: Filter) {
    f.Filter? &&
    match f.op
    case OpAnd => f.value.GoFilters? && |f.value.subs| > 0 && forall i :: 0 <= i < |f.value.subs| ==>
        MysqlConvertible(f.value.subs[i])
    case OpOr => f.value.GoFilters? && |f.value.subs| > 0 && forall i :: 0 <= i < |f.value.subs| ==>
        MysqlConvertible(f.value.subs[i])
    case OpCmp(_) => f.field != ""
    case OpIn => f.field != "" && SliceItems(f.value).Some? && |SliceItems(f.value).value| > 0
    case OpNotIn => f.field != "" && SliceItems(f.value).Some? && |SliceItems(f.value).value| > 0
    case OpBetween => f.field != "" && SliceItems(f.value).Some? && |SliceItems(f.value).value| == 2
    case OpLike => f.field != "" && f.value.GoString?
    case OpNotLike => f.field != "" && f.value.GoString?
    case OpJSONContains => f.field != "" && JsonValue(f.value)
    case OpJSONNotContains => f.field != "" && JsonValue(f.value)
    case OpUnknown(_) => false
  }

  /** The expression a tree stands for: children of AND and OR combined two at a time from the left. */
  function AstOf(mapping: Mapping, f: Filter): (e: Expr)
    requires MysqlConvertible(f)
    ensures Printable(e)
    decreases f, 1, 0
  {
    var col := ColumnOf(mapping, f.field);
    match f.op
    case OpAnd => AstUpTo(mapping, f, |f.value.subs|)
    case OpOr => AstUpTo(mapping, f, |f.value.subs|)
    case OpCmp(op) => Cmp(col, op)
    case OpIn => In(col, false, |SliceItems(f.value).value|)
    case OpNotIn => In(col, true, |SliceItems(f.value).value|)
    case OpBetween => Between(col)
    case OpLike => Like(col, false)
    case OpNotLike => Like(col, true)
    case OpJSONContains => Json(col, false)
    case OpJSONNotContains => Json(col, true)
  }

  function AstUpTo(mapping: Mapping, f: Filter, n: nat): (e: Expr)
    requires MysqlConvertible(f) && Logical(f) && 1 <= n <= |f.value.subs|
    ensures Printable(e)
    decreases f, 0, n
  {
    var last := AstOf(mapping, f.value.subs[n - 1]);
    if n == 1 then last
    else if f.op.OpAnd? then And(AstUpTo(mapping, f, n - 1), last)
    else Or(AstUpTo(mapping, f, n - 1), last)
  }

  function ArgsOf(f: Filter): seq<GoValue>
    requires MysqlConvertible(f)
    decreases f, 1, 0
  {
    match f.op
    case OpAnd => ArgsUpTo(f, |f.value.subs|)
    case OpOr => ArgsUpTo(f, |f.value.subs|)
    case OpIn => SliceItems(f.value).value
    case OpNotIn => SliceItems(f.value).value
    case OpBetween => SliceItems(f.value).value
    case OpJSONContains => [GoOpaque]
    case OpJSONNotContains => [GoOpaque]
    case _ => [f.value]
  }

  function ArgsUpTo(f: Filter, n: nat): seq<GoValue>
    requires MysqlConvertible(f) && Logical(f) && n <= |f.value.subs|
    decreases f, 0, n
  {
    if n == 0 then [] else ArgsUpTo(f, n - 1) + ArgsOf(f.value.subs[n - 1])
  }

  lemma {:induction false} ArgsFillSlots(mapping: Mapping, f: Filter)
    requires MysqlConvertible(f)
    ensures |ArgsOf(f)| == Slots(AstOf(mapping, f))
    decreases f, 1, 0
  {
    if Logical(f) {
      ArgsFillSlotsUpTo(mapping, f, |f.value.subs|);
    }
  }

  lemma {:induction false} ArgsFillSlotsUpTo(mapping: Mapping, f: Filter, n: nat)
    requires MysqlConvertible(f) && Logical(f) && 1 <= n <= |f.value.subs|
    ensures |ArgsUpTo(f, n)| == Slots(AstUpTo(mapping, f, n))
    decreases f, 0, n
  {
    ArgsFillSlots(mapping, f.value.subs[n - 1]);
    if n > 1 {
      ArgsFillSlotsUpTo(mapping, f, n - 1);
    }
  }

  // ---- The converter ----

  method Convert(mapping: Mapping, filter: Filter) returns (r: Result<Converted, string>)
    ensures r.Success? <==> filter.NilFilter? || MysqlConvertible(filter)
    ensures r.Success? ==> r.value == ConditionOf(mapping, filter)
  {
    if filter.NilFilter? {
      return Success(Converted([One, Compare(Eq), One], []));
    }
    r := ConvertCondition(mapping, filter);
  }

  /** The condition of an optional filter: none at all is the condition that always holds. */
  function ConditionOf(mapping: Mapping, filter: Filter): Converted
    requires filter.NilFilter? || MysqlConvertible(filter)
  {
    if filter.NilFilter? then Converted(Render(Always), [])
    else Converted(Render(AstOf(mapping, filter)), ArgsOf(filter))
  }

  method ConvertCondition(mapping: Mapping, cond: Filter) returns (r: Result<Converted, string>)
    ensures r.Success? <==> MysqlConvertible(cond)
    ensures r.Success? ==> r.value == Converted(Render(AstOf(mapping, cond)), ArgsOf(cond))
    decreases cond, 1
  {
    if cond.NilFilter? {
      return Failure("nil condition");
    }
    match cond.op {
      case OpAnd => r := BuildLogicalCondition(mapping, cond);
      case OpOr => r := BuildLogicalCondition(mapping, cond);
      case OpCmp(op) =>
        if cond.field == "" {
          return Failure("field is empty");
        }
        r := Success(Converted([Column(ColumnOf(mapping, cond.field)), Compare(op), Placeholder], [cond.value]));
      case OpIn => r := BuildInCondition(mapping, cond);
      case OpNotIn => r := BuildInCondition(mapping, cond);
      case OpLike => r := BuildLikeCondition(mapping, cond);
      case OpNotLike => r := BuildLikeCondition(mapping, cond);
      case OpBetween => r := BuildBetweenCondition(mapping, cond);
      case OpJSONContains => r := BuildJSONCondition(mapping, cond);
      case OpJSONNotContains => r := BuildJSONCondition(mapping, cond);
      case OpUnknown(_) => r := Failure("unsupported operation");
    }
  }

  method BuildLogicalCondition(mapping: Mapping, cond: Filter) returns (r: Result<Converted, string>)
    requires cond.Filter? && (cond.op.OpAnd? || cond.op.OpOr?)
    ensures r.Success? <==> MysqlConvertible(cond)
    ensures r.Success? ==> r.value == Converted(Render(AstOf(mapping, cond)), ArgsOf(cond))
    decreases cond, 0
  {
    hide Render, AstOf, ArgsOf, MysqlConvertible, Chain, ArgsOfAll;
    if !cond.value.GoFilters? {
      RefusedChild(cond);
      return Failure("invalid logical condition: value must be a list of conditions");
    }
    var conds := cond.value.subs;
    var conn := if cond.op.OpAnd? then KwAnd else KwOr;
    var result: Option<Converted> := None;
    ghost var asts: seq<Expr> := [];
    for i := 0 to |conds|
      invariant forall j :: 0 <= j < i ==> MysqlConvertible(conds[j])
      invariant i == 0 <==> result.None?
      invariant |asts| == i && forall j :: 0 <= j < i ==> asts[j] == AstOf(mapping, conds[j])
      invariant i > 0 ==> result.value == Converted(Render(Chain(cond.op.OpAnd?, asts)), ArgsOfAll(conds[..i]))
    {
      var child := ConvertCondition(mapping, conds[i]);
      if child.Failure? {
        RefusedChild(cond);
        return Failure(child.error);
      }
      ChainNext(cond.op.OpAnd?, asts, AstOf(mapping, conds[i]));
      ArgsOfAllNext(conds, i);
      asts := asts + [AstOf(mapping, conds[i])];
      if child.value.cond == [] {
        continue;
      }
      if result.None? {
        result := Some(child.value);
        continue;
      }
      result := Some(Converted(
        [LParen] + result.value.cond + [RParen, conn, LParen] + child.value.cond + [RParen],
        result.value.args + child.value.args));
    }
    if result.None? {
      RefusedChild(cond);
      return Failure("empty logical condition");
    }
    LogicalResult(mapping, cond, asts);
    return Success(result.value);
  }

  lemma RefusedChild(cond: Filter)
    requires cond.Filter? && (cond.op.OpAnd? || cond.op.OpOr?)
    ensures MysqlConvertible(cond) ==> cond.value.GoFilters? && |cond.value.subs| > 0
    ensures MysqlConvertible(cond) ==> forall i :: 0 <= i < |cond.value.subs| ==> MysqlConvertible(cond.value.subs[i])
  {}

  lemma LogicalResult(mapping: Mapping, cond: Filter, asts: seq<Expr>)
    requires Logical(cond) && |cond.value.subs| == |asts| > 0
    requires forall j :: 0 <= j < |asts| ==>
              MysqlConvertible(cond.value.subs[j]) && asts[j] == AstOf(mapping, cond.value.subs[j])
    ensures MysqlConvertible(cond)
    ensures AstOf(mapping, cond) == Chain(cond.op.OpAnd?, asts)
    ensures ArgsOf(cond) == ArgsOfAll(cond.value.subs[..|asts|])
  {
    ChainIsAst(mapping, cond, asts, |asts|);
    ArgsAreChained(cond, |asts|);
  }

  /** Expressions combined two at a time from the left. */
  function Chain(isAnd: bool, asts: seq<Expr>): Expr
    requires asts != []
  {
    var last := asts[|asts| - 1];
    if |asts| == 1 then last
    else if isAnd then And(Chain(isAnd, asts[..|asts| - 1]), last)
    else Or(Chain(isAnd, asts[..|asts| - 1]), last)
  }

  lemma ChainNext(isAnd: bool, asts: seq<Expr>, last: Expr)
    ensures Render(last) != []
    ensures asts == [] ==> Chain(isAnd, asts + [last]) == last
    ensures asts != [] ==>
              Render(Chain(isAnd, asts + [last])) ==
              [LParen] + Render(Chain(isAnd, asts)) + [RParen, if isAnd then KwAnd else KwOr, LParen] + Render(last) +
                [RParen]
  {
    assert (asts + [last])[..|asts|] == asts;
  }

  function ArgsOfAll(conds: seq<Filter>): seq<GoValue>
    requires forall j :: 0 <= j < |conds| ==> MysqlConvertible(conds[j])
  {
    if conds == [] then [] else ArgsOfAll(conds[..|conds| - 1]) + ArgsOf(conds[|conds| - 1])
  }

  lemma ArgsOfAllNext(conds: seq<Filter>, i: nat)
    requires i < |conds| && forall j :: 0 <= j <= i ==> MysqlConvertible(conds[j])
    ensures ArgsOfAll(conds[..i + 1]) == ArgsOfAll(conds[..i]) + ArgsOf(conds[i])
    ensures i == 0 ==> ArgsOfAll(conds[..1]) == ArgsOf(conds[0])
  {
    assert conds[..i + 1][..i] == conds[..i];
  }

  lemma {:induction false} ChainIsAst(mapping: Mapping, f: Filter, asts: seq<Expr>, n: nat)
    requires MysqlConvertible(f) && Logical(f) && 1 <= n <= |f.value.subs| && n == |asts|
    requires forall j :: 0 <= j < n ==> asts[j] == AstOf(mapping, f.value.subs[j])
    ensures Chain(f.op.OpAnd?, asts) == AstUpTo(mapping, f, n)
    decreases n
  {
    if n > 1 {
      ChainIsAst(mapping, f, asts[..n - 1], n - 1);
    }
  }

  lemma {:induction false} ArgsAreChained(f: Filter, n: nat)
    requires MysqlConvertible(f) && Logical(f) && n <= |f.value.subs|
    ensures ArgsOfAll(f.value.subs[..n]) == ArgsUpTo(f, n)
    decreases n
  {
    if n > 0 {
      ArgsAreChained(f, n - 1);
      ArgsOfAllNext(f.value.subs, n - 1);
    }
  }

  method BuildInCondition(mapping: Mapping, cond: Filter) returns (r: Result<Converted, string>)
    requires cond.Filter? && (cond.op.OpIn? || cond.op.OpNotIn?)
    ensures r.Success? <==> MysqlConvertible(cond)
    ensures r.Success? ==> r.value == Converted(Render(AstOf(mapping, cond)), ArgsOf(cond))
  {
    if cond.field == "" {
      return Failure("field is empty");
    }
    var value := SliceItems(cond.value);
    if value.None? || |value.value| <= 0 {
      return Failure("in operator value must be a slice with at least one value");
    }
    var items := value.value;
    var args: seq<GoValue>, placeholders: seq<Token> := [], [];
    for i := 0 to |items|
      invariant args == items[..i]
      invariant placeholders == Marks(i)
    {
      MarksNext(i);
      args := args + [items[i]];
      placeholders := placeholders + (if i == 0 then [Placeholder] else [Comma, Placeholder]);
    }
    assert items[..|items|] == items;
    var operator := if cond.op.OpIn? then [KwIn] else [KwNot, KwIn];
    var cond' := [Column(ColumnOf(mapping, cond.field))] + operator + [LParen] + placeholders + [RParen];
    return Success(Converted(cond', args));
  }

  lemma {:induction false} MarksNext(n: nat)
    ensures Marks(n + 1) == Marks(n) + (if n == 0 then [Placeholder] else [Comma, Placeholder])
  {
    if n > 1 {
      MarksNext(n - 1);
    }
  }

  method BuildLikeCondition(mapping: Mapping, cond: Filter) returns (r: Result<Converted, string>)
    requires cond.Filter? && (cond.op.OpLike? || cond.op.OpNotLike?)
    ensures r.Success? <==> MysqlConvertible(cond)
    ensures r.Success? ==> r.value == Converted(Render(AstOf(mapping, cond)), ArgsOf(cond))
  {
    if cond.field == "" {
      return Failure("field is empty");
    }
    if !cond.value.GoString? {
      return Failure("like operator value must be a string");
    }
    var operator := if cond.op.OpLike? then [KwLike] else [KwNot, KwLike];
    return Success(Converted([Column(ColumnOf(mapping, cond.field))] + operator + [Placeholder], [cond.value]));
  }

  method BuildBetweenCondition(mapping: Mapping, cond: Filter) returns (r: Result<Converted, string>)
    requires cond.Filter? && cond.op.OpBetween?
    ensures r.Success? <==> MysqlConvertible(cond)
    ensures r.Success? ==> r.value == Converted(Render(AstOf(mapping, cond)), ArgsOf(cond))
  {
    if cond.field == "" {
      return Failure("field is empty");
    }
    var value := SliceItems(cond.value);
    if value.None? || |value.value| != 2 {
      return Failure("between operator value must be a slice with two elements");
    }
    return Success(Converted(
      [Column(ColumnOf(mapping, cond.field)), KwBetween, Placeholder, KwAnd, Placeholder],
      [value.value[0], value.value[1]]));
  }

  /** The argument is the JSON text of the value, which is not part of this model. */
  method BuildJSONCondition(mapping: Mapping, cond: Filter) returns (r: Result<Converted, string>)
    requires cond.Filter? && (cond.op.OpJSONContains? || cond.op.OpJSONNotContains?)
    ensures r.Success? <==> MysqlConvertible(cond)
    ensures r.Success? ==> r.value == Converted(Render(AstOf(mapping, cond)), ArgsOf(cond))
  {
    if cond.field == "" {
      return Failure("field is empty");
    }
    if !JsonValue(cond.value) {
      return Failure("failed to convert value to JSON");
    }
    var operator: seq<Token> := if cond.op.OpJSONContains? then [KwJsonContains] else [KwNot, KwJsonContains];
    var call := [LParen, Column(ColumnOf(mapping, cond.field)), Comma, Placeholder, RParen];
    return Success(Converted(operator + call, [GoOpaque]));
  }

  // ---- Same meaning as in memory ----

  /** Trees of and/or, comparisons, in, not in and between. */
  predicate Plain(f: Filter) {
    f.Filter? &&
    match f.op
    case OpAnd => f.value.GoFilters? ==> forall i :: 0 <= i < |f.value.subs| ==> Plain(f.value.subs[i])
    case OpOr => f.value.GoFilters? ==> forall i :: 0 <= i < |f.value.subs| ==> Plain(f.value.subs[i])
    case OpCmp(_) => true
    case OpIn => true
    case OpNotIn => true
    case OpBetween => true
    case _ => false
  }

  /**
   On the field's own values: comparisons with a value of the field's kind, lists of values of the field's exact type.
   */
  predicate WellTyped(f: Filter)
    requires MemoryConvertible(f)
  {
    match f.op
    case OpAnd => forall i :: 0 <= i < |f.value.subs| ==> WellTyped(f.value.subs[i])
    case OpOr => forall i :: 0 <= i < |f.value.subs| ==> WellTyped(f.value.subs[i])
    case OpCmp(_) => KindOf(f.value) == FieldKind(f.field)
    case OpIn => forall i :: 0 <= i < |SliceItems(f.value).value| ==> ExactType(f.field, SliceItems(f.value).value[i])
    case OpNotIn => forall i :: 0 <= i < |SliceItems(f.value).value| ==>
        ExactType(f.field, SliceItems(f.value).value[i])
    case OpBetween => forall i :: 0 <= i < |SliceItems(f.value).value| ==>
        KindOf(SliceItems(f.value).value[i]) == FieldKind(f.field)
    case _ => true
  }

  function FieldKind(field: string): Kind {
    if field in {"id", "provider_type", "provider_name"} then KString
    else if field in {"status", "priority"} then KNumber
    else KTime
  }

  predicate ExactType(field: string, v: GoValue) {
    match FieldKind(field)
    case KString => v.GoString?
    case KNumber => v.GoInt?
    case _ => v.GoTime?
  }

  /** An absent time is a NULL in the row. */
  predicate Present(a: Account, field: string) {
    && (field == "cooldown_until" ==> a.cooldownUntil.Some?)
    && (field == "circuit_open_until" ==> a.circuitOpenUntil.Some?)
  }

  /** The row shows the account: every mapped column holds the field's value, or NULL for an absent time. */
  ghost predicate RowShows(db: Server, mapping: Mapping, a: Account) {
    forall field {:trigger ColumnOf(mapping, field)} :: field in ACCOUNT_FIELDS ==>
      db.row(ColumnOf(mapping, field)) == if Present(a, field) then FieldValue(a, field) else GoNil
  }

  /** The tree looks only at fields the account has. */
  predicate NonNull(f: Filter, a: Account) {
    f.Filter? &&
    if f.op.OpAnd? || f.op.OpOr? then
      f.value.GoFilters? ==> forall i :: 0 <= i < |f.value.subs| ==> NonNull(f.value.subs[i], a)
    else Present(a, f.field)
  }

  /** What memory accepts, the database side accepts too. */
  lemma {:induction false} MemoryImpliesMysql(f: Filter)
    requires MemoryConvertible(f)
    ensures MysqlConvertible(f)
  {
    if Logical(f) {
      forall i | 0 <= i < |f.value.subs|
        ensures MysqlConvertible(f.value.subs[i])
      {
        MemoryImpliesMysql(f.value.subs[i]);
      }
    }
  }

  predicate KnownFields(f: Filter) {
    f.Filter? &&
    if f.op.OpAnd? || f.op.OpOr? then
      f.value.GoFilters? ==> forall i :: 0 <= i < |f.value.subs| ==> KnownFields(f.value.subs[i])
    else f.field in ACCOUNT_FIELDS
  }

  /** On plain trees over account fields the two converters refuse exactly the same trees. */
  lemma {:induction false} SameRefusals(f: Filter)
    requires Plain(f) && KnownFields(f)
    ensures MemoryConvertible(f) <==> MysqlConvertible(f)
  {
    if Logical(f) {
      forall i | 0 <= i < |f.value.subs|
        ensures MemoryConvertible(f.value.subs[i]) <==> MysqlConvertible(f.value.subs[i])
      {
        SameRefusals(f.value.subs[i]);
      }
    }
  }

  /** AND and OR without a list of conditions are among those trees, and both refuse them. */
  lemma MalformedIsRefused(f: Filter)
    requires f.Filter? && (f.op.OpAnd? || f.op.OpOr?) && !f.value.GoFilters?
    ensures Plain(f) && KnownFields(f) && !MemoryConvertible(f) && !MysqlConvertible(f)
  {}

  /** The rendered text, parsed and evaluated with its arguments, decides as the memory predicate does. */
  lemma ConversionKeepsMeaning(db: Server, mapping: Mapping, f: Filter, a: Account)
    requires Plain(f) && MemoryConvertible(f) && WellTyped(f) && NonNull(f, a) && RowShows(db, mapping, a)
    ensures MysqlConvertible(f)
    ensures var c := ConditionOf(mapping, f);
            var e := Parse(c.cond);
            e.Some? && |c.args| == Slots(e.value) && (Eval(db, e.value, c.args) <==> Matches(f, a))
  {
    MemoryImpliesMysql(f);
    ParseRender(AstOf(mapping, f));
    ArgsFillSlots(mapping, f);
    AstMeaning(db, mapping, f, a);
  }

  lemma {:induction false} AstMeaning(db: Server, mapping: Mapping, f: Filter, a: Account)
    requires Plain(f) && MemoryConvertible(f) && WellTyped(f) && NonNull(f, a) && RowShows(db, mapping, a)
    requires MysqlConvertible(f) && |ArgsOf(f)| == Slots(AstOf(mapping, f))
    ensures Eval(db, AstOf(mapping, f), ArgsOf(f)) <==> Matches(f, a)
    decreases f, 1, 0
  {
    if Logical(f) {
      AstMeaningUpTo(db, mapping, f, a, |f.value.subs|);
    } else {
      LeafMeaning(db, mapping, f, a);
    }
  }

  lemma LeafMeaning(db: Server, mapping: Mapping, f: Filter, a: Account)
    requires Plain(f) && !Logical(f) && MemoryConvertible(f) && WellTyped(f) && NonNull(f, a)
              && RowShows(db, mapping, a)
    requires MysqlConvertible(f) && |ArgsOf(f)| == Slots(AstOf(mapping, f))
    ensures Eval(db, AstOf(mapping, f), ArgsOf(f)) <==> Matches(f, a)
  {
    var doc := FieldValue(a, f.field);
    assert db.row(ColumnOf(mapping, f.field)) == doc && KindOf(doc) == FieldKind(f.field);
    if f.op.OpIn? || f.op.OpNotIn? {
      var items := SliceItems(f.value).value;
      forall i | 0 <= i < |items|
        ensures SqlCompare(db, Eq, doc, items[i]) <==> doc == items[i]
      {
        assert ExactType(f.field, items[i]);
      }
    }
  }

  lemma EvalPair(db: Server, l: Expr, r: Expr, x: seq<GoValue>, y: seq<GoValue>)
    requires |x| == Slots(l) && |y| == Slots(r)
    ensures Eval(db, And(l, r), x + y) <==> Eval(db, l, x) && Eval(db, r, y)
    ensures Eval(db, Or(l, r), x + y) <==> Eval(db, l, x) || Eval(db, r, y)
  {
    assert (x + y)[..|x|] == x && (x + y)[|x|..] == y;
  }

  /** The first n children, combined. */
  ghost predicate CombinedMeaning(f: Filter, a: Account, n: nat)
    requires MemoryConvertible(f) && Logical(f) && n <= |f.value.subs|
  {
    if f.op.OpAnd? then forall i :: 0 <= i < n ==> Matches(f.value.subs[i], a)
    else exists i :: 0 <= i < n && Matches(f.value.subs[i], a)
  }

  /** One more child in the combination. */
  lemma CombinedNext(f: Filter, a: Account, n: nat)
    requires MemoryConvertible(f) && Logical(f) && 1 <= n <= |f.value.subs|
    ensures CombinedMeaning(f, a, n) <==>
              if n == 1 then Matches(f.value.subs[0], a)
              else if f.op.OpAnd? then CombinedMeaning(f, a, n - 1) && Matches(f.value.subs[n - 1], a)
              else CombinedMeaning(f, a, n - 1) || Matches(f.value.subs[n - 1], a)
  {
    hide Matches;
  }

  lemma Children(f: Filter, a: Account, n: nat)
    requires Plain(f) && Logical(f) && MemoryConvertible(f) && WellTyped(f) && NonNull(f, a)
    requires MysqlConvertible(f) && 1 <= n <= |f.value.subs|
    ensures var last := f.value.subs[n - 1];
            && Plain(last) && MemoryConvertible(last) && WellTyped(last) && NonNull(last, a) && MysqlConvertible(last)
  {}

  lemma {:induction false} AstMeaningUpTo(db: Server, mapping: Mapping, f: Filter, a: Account, n: nat)
    requires Plain(f) && Logical(f) && MemoryConvertible(f) && WellTyped(f) && NonNull(f, a) && RowShows(db, mapping, a)
    requires MysqlConvertible(f) && 1 <= n <= |f.value.subs|
    requires |ArgsUpTo(f, n)| == Slots(AstUpTo(mapping, f, n))
    ensures Eval(db, AstUpTo(mapping, f, n), ArgsUpTo(f, n)) <==> CombinedMeaning(f, a, n)
    decreases f, 0, n
  {
    hide Eval, Matches, AstOf, ArgsOf, RowShows, CombinedMeaning, Plain, WellTyped, NonNull, MemoryConvertible;
    var last := f.value.subs[n - 1];
    Children(f, a, n);
    CombinedNext(f, a, n);
    ArgsFillSlots(mapping, last);
    AstMeaning(db, mapping, last, a);
    if n == 1 {
      assert ArgsUpTo(f, 1) == ArgsOf(last);
    } else {
      ArgsFillSlotsUpTo(mapping, f, n - 1);
      AstMeaningUpTo(db, mapping, f, a, n - 1);
      EvalPair(db, AstUpTo(mapping, f, n - 1), AstOf(mapping, last), ArgsUpTo(f, n - 1), ArgsOf(last));
    }
  }

  // ---- What the text of each leaf is, and when the comparison with memory applies ----

  /** A leaf names the column the field is mapped to, or the field itself, and binds its values in order. */
  lemma LeafText(mapping: Mapping, field: string, op: CmpOp, v: GoValue, lo: GoValue, hi: GoValue, pattern: string)
    requires field != ""
    ensures var col := Column(if field in mapping then mapping[field] else field);
            && ConditionOf(mapping, Filter(field, OpCmp(op), v)) == Converted([col, Compare(op), Placeholder], [v])
            && ConditionOf(mapping, Filter(field, OpBetween, GoSlice([lo, hi]))) ==
               Converted([col, KwBetween, Placeholder, KwAnd, Placeholder], [lo, hi])
            && ConditionOf(mapping, Filter(field, OpLike, GoString(pattern))) ==
               Converted([col, KwLike, Placeholder], [GoString(pattern)])
            && ConditionOf(mapping, Filter(field, OpNotLike, GoString(pattern))) ==
               Converted([col, KwNot, KwLike, Placeholder], [GoString(pattern)])
  {}

  /** So does a list, with a mark for each value. */
  lemma ListText(mapping: Mapping, field: string, items: seq<GoValue>, negated: bool)
    requires field != "" && items != []
    ensures var col := Column(if field in mapping then mapping[field] else field);
            var head := if negated then [col, KwNot, KwIn, LParen] else [col, KwIn, LParen];
            ConditionOf(mapping, Filter(field, if negated then OpNotIn else OpIn, GoSlice(items))) ==
            Converted(head + Marks(|items|) + [RParen], items)
  {
    hide Render, Marks;
    InText(if field in mapping then mapping[field] else field, negated, |items|);
  }

  lemma InText(col: string, negated: bool, count: nat)
    ensures var head := if negated then [Column(col), KwNot, KwIn, LParen] else [Column(col), KwIn, LParen];
            Render(In(col, negated, count)) == head + Marks(count) + [RParen]
  {
    hide Marks;
  }

  /** JSON conditions take nothing, strings, numbers and booleans; times, lists and anything else are refused. */
  lemma JsonForms(field: string, v: GoValue)
    requires field != ""
    ensures MysqlConvertible(Filter(field, OpJSONContains, v)) <==>
            !v.GoTime? && !v.GoSlice? && !v.GoFilters? && !v.GoOpaque?
    ensures MysqlConvertible(Filter(field, OpJSONNotContains, v)) <==>
            !v.GoTime? && !v.GoSlice? && !v.GoFilters? && !v.GoOpaque?
  {}

  /** What the columns of a row hold for an account; a time that is not set is NULL. */
  lemma RowOfAccount(db: Server, mapping: Mapping, a: Account)
    requires RowShows(db, mapping, a)
    ensures db.row(ColumnOf(mapping, "id")) == GoString(a.id)
    ensures db.row(ColumnOf(mapping, "provider_type")) == GoString(a.providerType)
    ensures db.row(ColumnOf(mapping, "provider_name")) == GoString(a.providerName)
    ensures db.row(ColumnOf(mapping, "status")) == GoInt(a.status)
    ensures db.row(ColumnOf(mapping, "priority")) == GoInt(a.priority)
    ensures db.row(ColumnOf(mapping, "created_at")) == GoTime(a.createdAt)
    ensures db.row(ColumnOf(mapping, "updated_at")) == GoTime(a.updatedAt)
    ensures db.row(ColumnOf(mapping, "cooldown_until")) ==
            if a.cooldownUntil.Some? then GoTime(a.cooldownUntil.value) else GoNil
    ensures db.row(ColumnOf(mapping, "circuit_open_until")) ==
            if a.circuitOpenUntil.Some? then GoTime(a.circuitOpenUntil.value) else GoNil
  {}

  /** The trees on which the two converters are compared for an account. */
  predicate SameOnBoth(f: Filter, a: Account) {
    Plain(f) && MemoryConvertible(f) && WellTyped(f) && NonNull(f, a)
  }

  /** Comparisons and ranges with values of the field's kind, on a time only when it is set. */
  lemma LeavesAreSame(a: Account, field: string, op: CmpOp, v: GoValue, w: GoValue)
    requires || (field in {"status", "priority"}
                  && (v.GoInt? || v.GoInt64? || v.GoFloat?) && (w.GoInt? || w.GoInt64? || w.GoFloat?))
             || (field in {"id", "provider_type", "provider_name"} && v.GoString? && w.GoString?)
             || (field in {"created_at", "updated_at"} && v.GoTime? && w.GoTime?)
             || (field == "cooldown_until" && a.cooldownUntil.Some? && v.GoTime? && w.GoTime?)
             || (field == "circuit_open_until" && a.circuitOpenUntil.Some? && v.GoTime? && w.GoTime?)
    ensures SameOnBoth(Filter(field, OpCmp(op), v), a)
    ensures SameOnBoth(Filter(field, OpBetween, GoSlice([v, w])), a)
  {}

  /** Lists of values of the field's own type. */
  lemma ListsAreSame(a: Account, field: string, items: seq<GoValue>)
    requires items != []
    requires || (field in {"status", "priority"} && forall v :: v in items ==> v.GoInt?)
             || (field in {"id", "provider_type", "provider_name"} && forall v :: v in items ==> v.GoString?)
             || (field in {"created_at", "updated_at"} && forall v :: v in items ==> v.GoTime?)
    ensures SameOnBoth(Filter(field, OpIn, GoSlice(items)), a)
    ensures SameOnBoth(Filter(field, OpNotIn, GoSlice(items)), a)
  {}

  /** And whatever AND and OR make of such trees. */
  lemma TreesAreSame(a: Account, field: string, subs: seq<Filter>)
    requires subs != [] && forall i :: 0 <= i < |subs| ==> SameOnBoth(subs[i], a)
    ensures SameOnBoth(Filter(field, OpAnd, GoFilters(subs)), a)
    ensures SameOnBoth(Filter(field, OpOr, GoFilters(subs)), a)
  {}
}
