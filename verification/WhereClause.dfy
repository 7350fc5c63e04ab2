/** The account query: first-level fields and the extra condition joined by AND, and when that keeps its meaning. */
module WhereClause {
  import opened Prelude
  import opened Entities
  import opened FilterTree
  import opened SqlText
  import opened MysqlFilter

  /** The comparisons the first-level fields ask for. */
  function FirstLevel(filter: SearchFilter): (fields: seq<Expr>)
    ensures forall i :: 0 <= i < |fields| ==> fields[i].Cmp?
  {
    (if filter.providerType != "" then [Cmp("provider_type", Eq)] else []) +
    (if filter.providerName != "" then [Cmp("provider_name", Eq)] else []) +
    (if filter.status != 0 then [Cmp("status", Eq)] else [])
  }

  function FirstLevelArgs(filter: SearchFilter): (args: seq<GoValue>)
    ensures |args| == |FirstLevel(filter)|
  {
    (if filter.providerType != "" then [GoString(filter.providerType)] else []) +
    (if filter.providerName != "" then [GoString(filter.providerName)] else []) +
    (if filter.status != 0 then [GoInt(filter.status)] else [])
  }

  /** Parts joined by AND, nothing parenthesised. */
  function JoinAnd(parts: seq<seq<Token>>): seq<Token>
    requires parts != []
  {
    if |parts| == 1 then parts[0] else parts[0] + ([KwAnd] + JoinAnd(parts[1..]))
  }

  /** What the joined text reads as. An OR at the top of the condition takes the fields into its left side only. */
  function Joined(fields: seq<Expr>, e: Expr): Expr {
    if fields == [] then e
    else
      var first := AndChain(fields[0], fields[1..]);
      match e
      case And(l, r) => And(And(first, l), r)
      case Or(l, r) => Or(And(first, l), r)
      case _ => And(first, e)
  }

  function AndChain(left: Expr, fields: seq<Expr>): Expr
    decreases |fields|
  {
    if fields == [] then left else AndChain(And(left, fields[0]), fields[1..])
  }

  function Texts(fields: seq<Expr>, cond: seq<Token>): seq<seq<Token>> {
    if fields == [] then [cond] else [Render(fields[0])] + Texts(fields[1..], cond)
  }

  /** The clause reads as the fields joined to the expression the condition was rendered from. */
  method BuildAccountWhereClause(filter: SearchFilter, cond: seq<Token>, ghost e: Expr) returns (clause: seq<Token>)
    requires Printable(e) && cond == Render(e)
    ensures Parse(clause) == Some(Joined(FirstLevel(filter), e))
  {
    var parts: seq<seq<Token>> := [];
    if filter.providerType != "" {
      parts := parts + [[Column("provider_type"), Compare(Eq), Placeholder]];
    }
    if filter.providerName != "" {
      parts := parts + [[Column("provider_name"), Compare(Eq), Placeholder]];
    }
    if filter.status != 0 {
      parts := parts + [[Column("status"), Compare(Eq), Placeholder]];
    }
    parts := parts + [cond];
    PartsAreTexts(filter, cond, parts);
    ParseJoined(FirstLevel(filter), e);
    return JoinAnd(parts);
  }

  method BuildAccountWhereArgs(filter: SearchFilter, condArgs: seq<GoValue>) returns (args: seq<GoValue>)
    ensures args == FirstLevelArgs(filter) + condArgs
  {
    args := [];
    if filter.providerType != "" {
      args := args + [GoString(filter.providerType)];
    }
    if filter.providerName != "" {
      args := args + [GoString(filter.providerName)];
    }
    if filter.status != 0 {
      args := args + [GoInt(filter.status)];
    }
    args := args + condArgs;
  }

  lemma PartsAreTexts(filter: SearchFilter, cond: seq<Token>, parts: seq<seq<Token>>)
    requires var field := (name: string, used: bool) => if used then [[Column(name), Compare(Eq), Placeholder]] else [];
             parts == field("provider_type", filter.providerType != "") +
               field("provider_name", filter.providerName != "")
                      + field("status", filter.status != 0) + [cond]
    ensures parts == Texts(FirstLevel(filter), cond)
  {
    var all := FirstLevel(filter);
    if |all| > 0 {
      assert Texts(all, cond) == [Render(all[0])] + Texts(all[1..], cond);
      if |all| > 1 {
        assert Texts(all[1..], cond) == [Render(all[1])] + Texts(all[1..][1..], cond);
        if |all| > 2 {
          assert Texts(all[1..][1..], cond) == [Render(all[2])] + Texts([], cond);
        }
      }
    }
  }

  // ---- Reading the joined text ----

  lemma ParseJoined(fields: seq<Expr>, e: Expr)
    requires Printable(e) && forall i :: 0 <= i < |fields| ==> fields[i].Cmp?
    ensures Parse(JoinAnd(Texts(fields, Render(e)))) == Some(Joined(fields, e))
  {
    var ts := JoinAnd(Texts(fields, Render(e)));
    if fields == [] {
      ParseRender(e);
    } else {
      hide ParseFactor, ParseOr, ParseAnd, ParseAndRest, Render;
      var rest := Texts(fields[1..], Render(e));
      assert ts == Render(fields[0]) + ([KwAnd] + JoinAnd(rest));
      assert At(ts, 0, ts);
      AtConcat(ts, 0, Render(fields[0]), [KwAnd] + JoinAnd(rest));
      ParseLeafOf(ts, 0, fields[0]);
      var p := Parsed(fields[0], |Render(fields[0])|);
      ParseFieldsRest(ts, 0, p, fields[1..], e);
    }
  }

  /** left has been read up to an AND that the remaining fields and the condition follow. */
  lemma {:induction false} ParseFieldsRest(ts: seq<Token>, i: nat, left: Parsed, fields: seq<Expr>, e: Expr)
    requires Printable(e) && forall i :: 0 <= i < |fields| ==> fields[i].Cmp?
    requires ReadsTo(ts, i, left)
    requires At(ts, left.next, [KwAnd] + JoinAnd(Texts(fields, Render(e))))
    requires left.next + 1 + |JoinAnd(Texts(fields, Render(e)))| == |ts|
    ensures ParseOr(ts, i) == Some(Parsed(
              match e
              case And(l, r) => And(And(AndChain(left.e, fields), l), r)
              case Or(l, r) => Or(And(AndChain(left.e, fields), l), r)
              case _ => And(AndChain(left.e, fields), e),
              |ts|))
    decreases |fields|
  {
    hide ParseFactor, ParseOr, ParseAnd, ParseAndRest, Render;
    var rest := JoinAnd(Texts(fields, Render(e)));
    AtToken(ts, left.next, [KwAnd] + rest, 0);
    AtConcat(ts, left.next, [KwAnd], rest);
    if fields == [] {
      ParseCondition(ts, i, left, e);
    } else {
      var more := Texts(fields[1..], Render(e));
      assert rest == Render(fields[0]) + ([KwAnd] + JoinAnd(more));
      AtConcat(ts, left.next + 1, Render(fields[0]), [KwAnd] + JoinAnd(more));
      ParseLeafOf(ts, left.next + 1, fields[0]);
      var next := left.next + 1 + |Render(fields[0])|;
      ExtendConjunction(ts, i, left, Parsed(fields[0], next));
      ParseFieldsRest(ts, i, Parsed(And(left.e, fields[0]), next), fields[1..], e);
    }
  }

  /** A conjunction starting at i has been read as far as left; what follows decides the rest. */
  predicate ReadsTo(ts: seq<Token>, i: nat, left: Parsed) {
    i < left.next <= |ts| && ParseAnd(ts, i) == ParseAndRest(ts, left)
  }

  lemma ExtendConjunction(ts: seq<Token>, i: nat, left: Parsed, right: Parsed)
    requires ReadsTo(ts, i, left) && Peek(ts, left.next, KwAnd)
    requires ParseFactor(ts, left.next + 1) == Some(right)
    ensures ReadsTo(ts, i, Parsed(And(left.e, right.e), right.next))
  {}

  /** The condition is the last part. */
  lemma ParseCondition(ts: seq<Token>, i: nat, left: Parsed, e: Expr)
    requires Printable(e) && ReadsTo(ts, i, left) && Peek(ts, left.next, KwAnd)
    requires At(ts, left.next + 1, Render(e)) && left.next + 1 + |Render(e)| == |ts|
    ensures ParseOr(ts, i) == Some(Parsed(
              match e
              case And(l, r) => And(And(left.e, l), r)
              case Or(l, r) => Or(And(left.e, l), r)
              case _ => And(left.e, e),
              |ts|))
  {
    hide ParseFactor, ParseOr, ParseAnd, ParseAndRest, Render;
    var at, end := left.next + 1, |ts|;
    if !Binary(e) {
      ParseLeafOf(ts, at, e);
      ExtendConjunction(ts, i, left, Parsed(e, end));
      EndConjunction(ts, i, Parsed(And(left.e, e), end));
      ParseLoneConjunction(ts, i, Parsed(And(left.e, e), end));
    } else {
      var mid := at + |Group(e.left)|;
      ParseSidesOf(ts, at, e);
      var both := Parsed(And(left.e, e.left), mid);
      ExtendConjunction(ts, i, left, Parsed(e.left, mid));
      if e.And? {
        ExtendConjunction(ts, i, both, Parsed(e.right, end));
        EndConjunction(ts, i, Parsed(And(both.e, e.right), end));
        ParseLoneConjunction(ts, i, Parsed(And(both.e, e.right), end));
      } else {
        EndConjunction(ts, i, both);
        ParseLoneFactor(ts, mid + 1, Parsed(e.right, end));
        ParseTwoConjunctions(ts, i, mid, end, Or(both.e, e.right));
      }
    }
  }

  lemma EndConjunction(ts: seq<Token>, i: nat, p: Parsed)
    requires ReadsTo(ts, i, p) && !Peek(ts, p.next, KwAnd)
    ensures ParseAnd(ts, i) == Some(p)
  {}

  // ---- Meaning ----

  predicate OwnColumns(mapping: Mapping) {
    && ColumnOf(mapping, "provider_type") == "provider_type"
    && ColumnOf(mapping, "provider_name") == "provider_name"
    && ColumnOf(mapping, "status") == "status"
  }

  /** The query for a filter, as a whole: its text read back, with its arguments. */
  ghost predicate QueryAccepts(db: Server, filter: SearchFilter, e: Expr, args: seq<GoValue>)
    requires |args| == |FirstLevel(filter)| + Slots(e)
  {
    JoinedSlots(FirstLevel(filter), e);
    Eval(db, Joined(FirstLevel(filter), e), args)
  }

  lemma {:induction false} ChainSlots(left: Expr, fields: seq<Expr>)
    requires forall i :: 0 <= i < |fields| ==> fields[i].Cmp?
    ensures Slots(AndChain(left, fields)) == Slots(left) + |fields|
    decreases |fields|
  {
    if fields != [] {
      ChainSlots(And(left, fields[0]), fields[1..]);
    }
  }

  lemma JoinedSlots(fields: seq<Expr>, e: Expr)
    requires forall i :: 0 <= i < |fields| ==> fields[i].Cmp?
    ensures Slots(Joined(fields, e)) == |fields| + Slots(e)
  {
    if fields != [] {
      ChainSlots(fields[0], fields[1..]);
    }
  }

  /** A chain of comparisons holds when each does. */
  lemma {:induction false} ChainMeaning(db: Server, left: Expr, fields: seq<Expr>, x: seq<GoValue>, y: seq<GoValue>)
    requires forall i :: 0 <= i < |fields| ==> fields[i].Cmp?
    requires |x| == Slots(left) && |y| == |fields|
    ensures Slots(AndChain(left, fields)) == |x + y|
    ensures Eval(db, AndChain(left, fields), x + y) <==>
            Eval(db, left, x) && FieldsHold(db, fields, y)
    decreases |fields|
  {
    if fields == [] {
      assert x + y == x;
    } else {
      EvalPair(db, left, fields[0], x, [y[0]]);
      ChainMeaning(db, And(left, fields[0]), fields[1..], x + [y[0]], y[1..]);
      assert x + [y[0]] + y[1..] == x + y;
      FieldsHoldFirst(db, fields, y);
    }
  }

  ghost predicate FieldsHold(db: Server, fields: seq<Expr>, args: seq<GoValue>)
    requires |args| == |fields| && forall i :: 0 <= i < |fields| ==> fields[i].Cmp?
  {
    forall i :: 0 <= i < |fields| ==> SqlCompare(db, fields[i].op, db.row(fields[i].col), args[i])
  }

  lemma FieldsHoldFirst(db: Server, fields: seq<Expr>, args: seq<GoValue>)
    requires |args| == |fields| > 0 && forall i :: 0 <= i < |fields| ==> fields[i].Cmp?
    ensures FieldsHold(db, fields, args) <==>
            SqlCompare(db, fields[0].op, db.row(fields[0].col), args[0]) && FieldsHold(db, fields[1..], args[1..])
  {
    assert fields == [fields[0]] + fields[1..] && args == [args[0]] + args[1..];
  }

  lemma FieldsHoldBoth(db: Server, f: seq<Expr>, x: seq<GoValue>, g: seq<Expr>, y: seq<GoValue>)
    requires |x| == |f| && |y| == |g|
    requires (forall i :: 0 <= i < |f| ==> f[i].Cmp?) && forall i :: 0 <= i < |g| ==> g[i].Cmp?
    ensures forall i :: 0 <= i < |f + g| ==> (f + g)[i].Cmp?
    ensures FieldsHold(db, f + g, x + y) <==> FieldsHold(db, f, x) && FieldsHold(db, g, y)
  {
    if FieldsHold(db, f + g, x + y) {
      forall i | 0 <= i < |g|
        ensures SqlCompare(db, g[i].op, db.row(g[i].col), y[i])
      {
        assert (f + g)[|f| + i] == g[i] && (x + y)[|f| + i] == y[i];
      }
      forall i | 0 <= i < |f|
        ensures SqlCompare(db, f[i].op, db.row(f[i].col), x[i])
      {
        assert (f + g)[i] == f[i] && (x + y)[i] == x[i];
      }
    }
  }

  /** One optional field of the query. */
  lemma FieldHolds(db: Server, used: bool, col: string, v: GoValue)
    ensures var field, arg := (if used then [Cmp(col, Eq)] else []), (if used then [v] else []);
            FieldsHold(db, field, arg) <==> (used ==> SqlCompare(db, Eq, db.row(col), v))
  {
    if used {
      assert [Cmp(col, Eq)][0] == Cmp(col, Eq) && [v][0] == v;
    }
  }

  lemma FieldsHoldMeaning(db: Server, mapping: Mapping, filter: SearchFilter, a: Account)
    requires RowShows(db, mapping, a) && OwnColumns(mapping)
    ensures FieldsHold(db, FirstLevel(filter), FirstLevelArgs(filter)) <==> MatchesFirstLevel(a, filter)
  {
    RowOfAccount(db, mapping, a);
    hide RowShows, FieldsHold;
    var kind, name, status := filter.providerType != "", filter.providerName != "", filter.status != 0;
    var kindField := if kind then [Cmp("provider_type", Eq)] else [];
    var nameField := if name then [Cmp("provider_name", Eq)] else [];
    var statusField := if status then [Cmp("status", Eq)] else [];
    var kindArg := if kind then [GoString(filter.providerType)] else [];
    var nameArg := if name then [GoString(filter.providerName)] else [];
    var statusArg := if status then [GoInt(filter.status)] else [];
    FieldHolds(db, kind, "provider_type", GoString(filter.providerType));
    FieldHolds(db, name, "provider_name", GoString(filter.providerName));
    FieldHolds(db, status, "status", GoInt(filter.status));
    FieldsHoldBoth(db, kindField, kindArg, nameField, nameArg);
    FieldsHoldBoth(db, kindField + nameField, kindArg + nameArg, statusField, statusArg);
  }

  /** The first-level part of the query decides as the in-memory check does. */
  lemma FirstLevelMeaning(db: Server, mapping: Mapping, filter: SearchFilter, a: Account)
    requires RowShows(db, mapping, a) && OwnColumns(mapping) && FirstLevel(filter) != []
    ensures var fields := FirstLevel(filter);
            var first := AndChain(fields[0], fields[1..]);
            Slots(first) == |fields| && (Eval(db, first, FirstLevelArgs(filter)) <==> MatchesFirstLevel(a, filter))
  {
    var fields, args := FirstLevel(filter), FirstLevelArgs(filter);
    FieldsHoldMeaning(db, mapping, filter, a);
    FieldsHoldFirst(db, fields, args);
    hide FirstLevel, FirstLevelArgs, MatchesFirstLevel, RowShows;
    ChainMeaning(db, fields[0], fields[1..], args[..1], args[1..]);
    assert args[..1] + args[1..] == args;
    assert Eval(db, fields[0], args[..1]) <==> SqlCompare(db, fields[0].op, db.row(fields[0].col), args[0]);
  }

  /** What the query decides for a row, top-level OR or not. */
  lemma QueryMeaning(db: Server, mapping: Mapping, filter: SearchFilter, e: Expr, args: seq<GoValue>, a: Account)
    requires RowShows(db, mapping, a) && OwnColumns(mapping) && |args| == Slots(e)
    ensures var first := MatchesFirstLevel(a, filter);
            QueryAccepts(db, filter, e, FirstLevelArgs(filter) + args) <==>
              if FirstLevel(filter) != [] && e.Or? then
                (first && Eval(db, e.left, args[..Slots(e.left)])) || Eval(db, e.right, args[Slots(e.left)..])
              else first && Eval(db, e, args)
  {
    var fields, fargs := FirstLevel(filter), FirstLevelArgs(filter);
    JoinedSlots(fields, e);
    if fields == [] {
      assert fargs + args == args;
    } else {
      FirstLevelMeaning(db, mapping, filter, a);
      var first := AndChain(fields[0], fields[1..]);
      if Binary(e) {
        var x, y := args[..Slots(e.left)], args[Slots(e.left)..];
        assert fargs + args == (fargs + x) + y;
        EvalPair(db, first, e.left, fargs, x);
        EvalPair(db, And(first, e.left), e.right, fargs + x, y);
      } else {
        EvalPair(db, first, e, fargs, args);
      }
    }
  }

  /**
   Exactly when one row is decided as intended: always, unless a top-level OR lets its right side in past the fields.
   */
  lemma QueryKeepsMeaningIff(db: Server, mapping: Mapping, filter: SearchFilter, e: Expr, args: seq<GoValue>,
                             a: Account)
    requires RowShows(db, mapping, a) && OwnColumns(mapping) && |args| == Slots(e)
    ensures (QueryAccepts(db, filter, e, FirstLevelArgs(filter) + args) <==>
              (MatchesFirstLevel(a, filter) && Eval(db, e, args)))
            <==>
            (FirstLevel(filter) == [] || !e.Or? || MatchesFirstLevel(a, filter)
              || !Eval(db, e.right, args[Slots(e.left)..]))
  {
    QueryMeaning(db, mapping, filter, e, args, a);
  }

  /** Trees whose rendering is an OR at the top: two or more alternatives, possibly under single-child conditions. */
  predicate RendersAsOr(f: Filter) {
    Logical(f) &&
    if |f.value.subs| == 1 then RendersAsOr(f.value.subs[0]) else f.op.OpOr? && |f.value.subs| > 1
  }

  lemma {:induction false} OrAtTheTop(mapping: Mapping, f: Filter)
    requires MysqlConvertible(f)
    ensures AstOf(mapping, f).Or? <==> RendersAsOr(f)
  {
    if Logical(f) && |f.value.subs| == 1 {
      OrAtTheTop(mapping, f.value.subs[0]);
      assert AstOf(mapping, f) == AstUpTo(mapping, f, 1);
    }
  }

  /** The alternative an OR at the top is read to end with: the one the fields do not reach. */
  function LastAlternative(f: Filter): Filter
    requires RendersAsOr(f)
  {
    if |f.value.subs| == 1 then LastAlternative(f.value.subs[0]) else f.value.subs[|f.value.subs| - 1]
  }

  lemma {:induction false} LastIsRight(mapping: Mapping, f: Filter)
    requires MysqlConvertible(f) && RendersAsOr(f)
    ensures MysqlConvertible(LastAlternative(f))
    ensures AstOf(mapping, f).Or? && AstOf(mapping, f).right == AstOf(mapping, LastAlternative(f))
    ensures |ArgsOf(f)| == Slots(AstOf(mapping, f))
    ensures ArgsOf(f)[Slots(AstOf(mapping, f).left)..] == ArgsOf(LastAlternative(f))
  {
    var n := |f.value.subs|;
    ArgsFillSlots(mapping, f);
    if n == 1 {
      LastIsRight(mapping, f.value.subs[0]);
      assert AstOf(mapping, f) == AstUpTo(mapping, f, 1);
      assert ArgsUpTo(f, 1) == ArgsOf(f.value.subs[0]);
    } else {
      ArgsFillSlotsUpTo(mapping, f, n - 1);
      assert AstOf(mapping, f) == AstUpTo(mapping, f, n);
      assert ArgsOf(f) == ArgsUpTo(f, n - 1) + ArgsOf(f.value.subs[n - 1]);
    }
  }

  lemma {:induction false} LastFits(f: Filter, a: Account)
    requires RendersAsOr(f) && Plain(f) && MemoryConvertible(f) && WellTyped(f) && NonNull(f, a)
    ensures var last := LastAlternative(f);
            Plain(last) && MemoryConvertible(last) && WellTyped(last) && NonNull(last, a)
  {
    if |f.value.subs| == 1 {
      LastFits(f.value.subs[0], a);
    }
  }

  /** The search filters the two sides are compared on. */
  predicate Comparable(filter: SearchFilter, a: Account) {
    var f := filter.extraCond;
    f.NilFilter? || SameOnBoth(f, a)
  }

  /** Without a condition nothing is asked of the account, with one that it is compared the same way on both sides. */
  lemma ComparableFilters(filter: SearchFilter, a: Account)
    ensures filter.extraCond.NilFilter? ==> Comparable(filter, a)
    ensures filter.extraCond.Filter? && SameOnBoth(filter.extraCond, a) ==> Comparable(filter, a)
  {}

  /** What the database decides for a row that shows the account. */
  ghost predicate QuerySelects(db: Server, mapping: Mapping, filter: SearchFilter)
    requires filter.extraCond.NilFilter? || MysqlConvertible(filter.extraCond)
  {
    var f := filter.extraCond;
    if f.NilFilter? then QueryAccepts(db, filter, Always, FirstLevelArgs(filter))
    else
      ArgsFillSlots(mapping, f);
      QueryAccepts(db, filter, AstOf(mapping, f), FirstLevelArgs(filter) + ArgsOf(f))
  }

  /**
   The query selects an account exactly as the in-memory search does, if and only if there are no first-level fields, or
   the tree does not render with an OR at its top, or the fields match, or its last alternative does not.
   */
  lemma QuerySelectsIff(db: Server, mapping: Mapping, filter: SearchFilter, a: Account)
    requires RowShows(db, mapping, a) && OwnColumns(mapping) && Comparable(filter, a)
    ensures var f := filter.extraCond;
            && (f.NilFilter? || MysqlConvertible(f))
            && ((QuerySelects(db, mapping, filter) <==> Selects(filter, a)) <==>
                (FirstLevel(filter) == [] || f.NilFilter? || !RendersAsOr(f) || MatchesFirstLevel(a, filter)
                 || !(MemoryConvertible(LastAlternative(f)) && Matches(LastAlternative(f), a))))
  {
    var f := filter.extraCond;
    if f.NilFilter? {
      QueryMeaning(db, mapping, filter, Always, [], a);
      assert FirstLevelArgs(filter) + [] == FirstLevelArgs(filter);
    } else {
      MemoryImpliesMysql(f);
      OrAtTheTop(mapping, f);
      ArgsFillSlots(mapping, f);
      AstMeaning(db, mapping, f, a);
      var e, args := AstOf(mapping, f), ArgsOf(f);
      QueryKeepsMeaningIff(db, mapping, filter, e, args, a);
      if RendersAsOr(f) {
        LastIsRight(mapping, f);
        LastFits(f, a);
        AstMeaning(db, mapping, LastAlternative(f), a);
      }
    }
  }

  /**
   Without a top-level OR, or without first-level fields, the database selects exactly the accounts memory selects.
   */
  lemma QueryAgreesWithMemory(db: Server, mapping: Mapping, filter: SearchFilter, a: Account)
    requires RowShows(db, mapping, a) && OwnColumns(mapping) && Comparable(filter, a)
    requires FirstLevel(filter) == [] || !RendersAsOr(filter.extraCond)
    ensures var f := filter.extraCond;
            && (f.NilFilter? || MysqlConvertible(f))
            && var e, args := (if f.NilFilter? then Always else AstOf(mapping, f)), ConditionOf(mapping, f).args;
               |args| == Slots(e) && (QueryAccepts(db, filter, e, FirstLevelArgs(filter) + args) <==>
                 Selects(filter, a))
  {
    var f := filter.extraCond;
    if f.NilFilter? {
      QueryMeaning(db, mapping, filter, Always, [], a);
    } else {
      MemoryImpliesMysql(f);
      OrAtTheTop(mapping, f);
      ArgsFillSlots(mapping, f);
      AstMeaning(db, mapping, f, a);
      QueryMeaning(db, mapping, filter, AstOf(mapping, f), ArgsOf(f), a);
    }
  }

  /** The failing family is not empty: a disabled account comes back from a query for available ones. */
  lemma TopLevelOrLeaks(db: Server, mapping: Mapping, a: Account)
    requires RowShows(db, mapping, a) && OwnColumns(mapping) && ColumnOf(mapping, "priority") == "priority"
    requires a.status == STATUS_DISABLED && a.priority == 7
    ensures var f := Filter.Filter("", OpOr, GoFilters([Filter.Filter("priority", OpCmp(Eq), GoInt(5)),
              Filter.Filter("priority", OpCmp(Eq), GoInt(7))]));
            var filter := ANY.(status := STATUS_AVAILABLE, extraCond := f);
            && MemoryConvertible(f) && MysqlConvertible(f) && !Selects(filter, a)
            && |ArgsOf(f)| == Slots(AstOf(mapping, f))
            && QueryAccepts(db, filter, AstOf(mapping, f), FirstLevelArgs(filter) + ArgsOf(f))
  {
    var five, seven := Filter.Filter("priority", OpCmp(Eq), GoInt(5)), Filter.Filter("priority", OpCmp(Eq), GoInt(7));
    var f := Filter.Filter("", OpOr, GoFilters([five, seven]));
    var filter := ANY.(status := STATUS_AVAILABLE, extraCond := f);
    TwoWayOr(mapping, f, five, seven);
    RowOfAccount(db, mapping, a);
    hide AstOf, ArgsOf, RowShows, QueryAccepts, MysqlConvertible, MemoryConvertible, Matches, ConditionOf;
    assert [GoInt(5), GoInt(7)][1..] == [GoInt(7)];
    QueryMeaning(db, mapping, filter, AstOf(mapping, f), ArgsOf(f), a);
  }

  /** What an OR of two comparisons of the priority is compiled to. */
  lemma TwoWayOr(mapping: Mapping, f: Filter, first: Filter, second: Filter)
    requires ColumnOf(mapping, "priority") == "priority"
    requires f == Filter.Filter("", OpOr, GoFilters([first, second]))
    requires first.Filter? && first == Filter.Filter("priority", OpCmp(Eq), first.value)
    requires second.Filter? && second == Filter.Filter("priority", OpCmp(Eq), second.value)
    ensures MemoryConvertible(f) && MysqlConvertible(f)
    ensures AstOf(mapping, f) == Or(Cmp("priority", Eq), Cmp("priority", Eq))
    ensures ArgsOf(f) == [first.value, second.value]
  {
    assert MysqlConvertible(first) && MysqlConvertible(second) && MysqlConvertible(f);
    assert f.value.subs == [first, second] && Logical(f);
    assert AstUpTo(mapping, f, 1) == Cmp("priority", Eq);
    assert AstUpTo(mapping, f, 2) == Or(Cmp("priority", Eq), Cmp("priority", Eq));
    assert ArgsUpTo(f, 1) == [first.value];
    assert ArgsUpTo(f, 2) == ArgsUpTo(f, 1) + [second.value];
  }
}
