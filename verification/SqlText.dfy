/** WHERE-clause text as tokens, its expressions, a parser with the usual precedence, and evaluation over a row. */
module SqlText {
  import opened Prelude
  import opened FilterTree

  datatype Token =
    | LParen | RParen | Comma
    | KwAnd | KwOr | KwNot | KwIn | KwBetween | KwLike | KwJsonContains
    | Column(name: string)
    | Compare(op: CmpOp)
    | Placeholder
    | One

  datatype Expr =
    | And(left: Expr, right: Expr)
    | Or(left: Expr, right: Expr)
    | Cmp(col: string, op: CmpOp)
    | In(col: string, negated: bool, count: nat)
    | Between(col: string)
    | Like(col: string, negated: bool)
    | Json(col: string, negated: bool)
    | Always

  // ---- Rendering ----

  function Marks(count: nat): seq<Token> {
    if count == 0 then [] else if count == 1 then [Placeholder] else [Placeholder, Comma] + Marks(count - 1)
  }

  /** How the converter writes an expression: both sides of AND and OR parenthesised, nothing around the whole. */
  function Render(e: Expr): seq<Token> {
    match e
    case And(l, r) => [LParen] + Render(l) + [RParen, KwAnd, LParen] + Render(r) + [RParen]
    case Or(l, r) => [LParen] + Render(l) + [RParen, KwOr, LParen] + Render(r) + [RParen]
    case Cmp(col, op) => [Column(col), Compare(op), Placeholder]
    case In(col, negated, count) =>
      [Column(col)] + (if negated then [KwNot, KwIn] else [KwIn]) + [LParen] + Marks(count) + [RParen]
    case Between(col) => [Column(col), KwBetween, Placeholder, KwAnd, Placeholder]
    case Like(col, negated) => [Column(col)] + (if negated then [KwNot, KwLike] else [KwLike]) + [Placeholder]
    case Json(col, negated) => (if negated then [KwNot] else []) +
        [KwJsonContains, LParen, Column(col), Comma, Placeholder, RParen]
    case Always => [One, Compare(Eq), One]
  }

  // ---- Parsing: OR binds weaker than AND, both group to the left ----

  datatype Parsed = Parsed(e: Expr, next: nat)

  predicate Peek(ts: seq<Token>, i: nat, t: Token) {
    i < |ts| && ts[i] == t
  }

  function ParseOr(ts: seq<Token>, i: nat): (r: Option<Parsed>)
    ensures r.Some? ==> i < r.value.next <= |ts|
    decreases |ts| - i, 5
  {
    if i >= |ts| then None
    else
      var left := ParseAnd(ts, i);
      if left.None? then None else ParseOrRest(ts, left.value)
  }

  function ParseOrRest(ts: seq<Token>, left: Parsed): (r: Option<Parsed>)
    requires left.next <= |ts|
    ensures r.Some? ==> left.next <= r.value.next <= |ts|
    decreases |ts| - left.next, 4
  {
    if !Peek(ts, left.next, KwOr) then Some(left)
    else
      var right := ParseAnd(ts, left.next + 1);
      if right.None? then None
      else ParseOrRest(ts, Parsed(Or(left.e, right.value.e), right.value.next))
  }

  function ParseAnd(ts: seq<Token>, i: nat): (r: Option<Parsed>)
    ensures r.Some? ==> i < r.value.next <= |ts|
    decreases |ts| - i, 3
  {
    if i >= |ts| then None
    else
      var left := ParseFactor(ts, i);
      if left.None? then None else ParseAndRest(ts, left.value)
  }

  function ParseAndRest(ts: seq<Token>, left: Parsed): (r: Option<Parsed>)
    requires left.next <= |ts|
    ensures r.Some? ==> left.next <= r.value.next <= |ts|
    decreases |ts| - left.next, 2
  {
    if !Peek(ts, left.next, KwAnd) then Some(left)
    else
      var right := ParseFactor(ts, left.next + 1);
      if right.None? then None
      else ParseAndRest(ts, Parsed(And(left.e, right.value.e), right.value.next))
  }

  function ParseFactor(ts: seq<Token>, i: nat): (r: Option<Parsed>)
    ensures r.Some? ==> i < r.value.next <= |ts|
    decreases |ts| - i, 1
  {
    if i >= |ts| then None
    else match ts[i]
      case LParen =>
        var inner := ParseOr(ts, i + 1);
        if inner.Some? && Peek(ts, inner.value.next, RParen) then Some(Parsed(inner.value.e, inner.value.next + 1))
        else None
      case Column(col) => ParseColumn(ts, i + 1, col)
      case KwJsonContains => ParseJson(ts, i + 1, false)
      case KwNot => if Peek(ts, i + 1, KwJsonContains) then ParseJson(ts, i + 2, true) else None
      case One => if Peek(ts, i + 1, Compare(Eq)) && Peek(ts, i + 2, One) then Some(Parsed(Always, i + 3)) else None
      case _ => None
  }

  /** A predicate on a column, after the column name. The AND of BETWEEN belongs to it. */
  function ParseColumn(ts: seq<Token>, i: nat, col: string): (r: Option<Parsed>)
    ensures r.Some? ==> i < r.value.next <= |ts|
  {
    if i >= |ts| then None
    else match ts[i]
      case Compare(op) => if Peek(ts, i + 1, Placeholder) then Some(Parsed(Cmp(col, op), i + 2)) else None
      case KwIn => ParseList(ts, i + 1, col, false)
      case KwLike => if Peek(ts, i + 1, Placeholder) then Some(Parsed(Like(col, false), i + 2)) else None
      case KwBetween =>
        if Peek(ts, i + 1, Placeholder) && Peek(ts, i + 2, KwAnd) && Peek(ts, i + 3, Placeholder)
        then Some(Parsed(Between(col), i + 4)) else None
      case KwNot =>
        if Peek(ts, i + 1, KwIn) then ParseList(ts, i + 2, col, true)
        else if Peek(ts, i + 1, KwLike) && Peek(ts, i + 2, Placeholder) then Some(Parsed(Like(col, true), i + 3))
        else None
      case _ => None
  }

  function ParseList(ts: seq<Token>, i: nat, col: string, negated: bool): (r: Option<Parsed>)
    ensures r.Some? ==> i < r.value.next <= |ts|
  {
    if !Peek(ts, i, LParen) then None
    else
      var marks := ParseMarks(ts, i + 1);
      if marks.None? || !Peek(ts, marks.value.1, RParen) then None
      else Some(Parsed(In(col, negated, marks.value.0), marks.value.1 + 1))
  }

  /** How many placeholders follow, and where they end. */
  function ParseMarks(ts: seq<Token>, i: nat): (r: Option<(nat, nat)>)
    ensures r.Some? ==> i < r.value.1 <= |ts| && r.value.0 > 0
    decreases |ts| - i
  {
    if !Peek(ts, i, Placeholder) then None
    else if !Peek(ts, i + 1, Comma) then Some((1, i + 1))
    else
      var rest := ParseMarks(ts, i + 2);
      if rest.None? then None else Some((rest.value.0 + 1, rest.value.1))
  }

  function ParseJson(ts: seq<Token>, i: nat, negated: bool): (r: Option<Parsed>)
    ensures r.Some? ==> i < r.value.next <= |ts|
  {
    if Peek(ts, i, LParen) && i + 1 < |ts| && ts[i + 1].Column? && Peek(ts, i + 2, Comma)
       && Peek(ts, i + 3, Placeholder) && Peek(ts, i + 4, RParen)
    then Some(Parsed(Json(ts[i + 1].name, negated), i + 5))
    else None
  }

  /** A whole clause parses when nothing is left over. */
  function Parse(ts: seq<Token>): Option<Expr> {
    var r := ParseOr(ts, 0);
    if r.Some? && r.value.next == |ts| then Some(r.value.e) else None
  }

  // ---- Parsing undoes rendering ----

  /** ts continues with x at position i. */
  predicate At(ts: seq<Token>, i: nat, x: seq<Token>) {
    i + |x| <= |ts| && ts[i..i + |x|] == x
  }

  lemma AtConcat(ts: seq<Token>, i: nat, x: seq<Token>, y: seq<Token>)
    requires At(ts, i, x + y)
    ensures At(ts, i, x) && At(ts, i + |x|, y)
  {
    assert ts[i..i + |x|] == ts[i..i + |x + y|][..|x|];
    assert ts[i + |x|..i + |x| + |y|] == ts[i..i + |x + y|][|x|..];
  }

  lemma AtToken(ts: seq<Token>, i: nat, x: seq<Token>, k: nat)
    requires At(ts, i, x) && k < |x|
    ensures Peek(ts, i + k, x[k])
  {
    assert ts[i..i + |x|][k] == ts[i + k];
  }

  predicate Binary(e: Expr) {
    e.And? || e.Or?
  }

  /** IN lists are never empty. */
  predicate Printable(e: Expr) {
    match e
    case And(l, r) => Printable(l) && Printable(r)
    case Or(l, r) => Printable(l) && Printable(r)
    case In(_, _, count) => count > 0
    case _ => true
  }

  /** The text stops being an AND/OR chain at i. */
  predicate ChainEnds(ts: seq<Token>, i: nat) {
    !Peek(ts, i, KwAnd) && !Peek(ts, i, KwOr)
  }

  lemma {:induction false} ParseMarksOf(ts: seq<Token>, i: nat, count: nat)
    requires count > 0 && At(ts, i, Marks(count) + [RParen])
    ensures ParseMarks(ts, i) == Some((count, i + |Marks(count)|))
    decreases count
  {
    AtToken(ts, i, Marks(count) + [RParen], 0);
    AtToken(ts, i, Marks(count) + [RParen], 1);
    if count > 1 {
      assert Marks(count) + [RParen] == [Placeholder, Comma] + (Marks(count - 1) + [RParen]);
      AtConcat(ts, i, [Placeholder, Comma], Marks(count - 1) + [RParen]);
      ParseMarksOf(ts, i + 2, count - 1);
    }
  }

  lemma ParseListOf(ts: seq<Token>, i: nat, col: string, negated: bool, count: nat)
    requires count > 0 && At(ts, i, [LParen] + Marks(count) + [RParen])
    ensures ParseList(ts, i, col, negated) == Some(Parsed(In(col, negated, count), i + |Marks(count)| + 2))
  {
    AtToken(ts, i, [LParen] + Marks(count) + [RParen], 0);
    AtToken(ts, i, [LParen] + Marks(count) + [RParen], |Marks(count)| + 1);
    assert [LParen] + Marks(count) + [RParen] == [LParen] + (Marks(count) + [RParen]);
    AtConcat(ts, i, [LParen], Marks(count) + [RParen]);
    ParseMarksOf(ts, i + 1, count);
  }

  lemma ParseColumnOf(ts: seq<Token>, i: nat, e: Expr)
    requires e.Cmp? || e.Between? || e.Like?
    requires At(ts, i, Render(e))
    ensures ParseFactor(ts, i) == Some(Parsed(e, i + |Render(e)|))
  {
    AtToken(ts, i, Render(e), 0);
    AtToken(ts, i, Render(e), 1);
    AtToken(ts, i, Render(e), 2);
    if e.Between? {
      AtToken(ts, i, Render(e), 3);
      AtToken(ts, i, Render(e), 4);
    } else if e.Like? && e.negated {
      AtToken(ts, i, Render(e), 3);
    }
  }

  lemma ParseInOf(ts: seq<Token>, i: nat, e: Expr)
    requires e.In? && e.count > 0 && At(ts, i, Render(e))
    ensures ParseFactor(ts, i) == Some(Parsed(e, i + |Render(e)|))
  {
    var head := if e.negated then [Column(e.col), KwNot, KwIn] else [Column(e.col), KwIn];
    var tail := [LParen] + Marks(e.count) + [RParen];
    assert Render(e) == head + tail && |tail| == |Marks(e.count)| + 2;
    hide Render, Marks;
    ParseListAfter(ts, i, e, head, tail);
  }

  /** The list after the column and its keywords. */
  lemma ParseListAfter(ts: seq<Token>, i: nat, e: Expr, head: seq<Token>, tail: seq<Token>)
    requires e.In? && e.count > 0 && At(ts, i, head + tail) && tail == [LParen] + Marks(e.count) + [RParen]
    requires head == if e.negated then [Column(e.col), KwNot, KwIn] else [Column(e.col), KwIn]
    ensures ParseFactor(ts, i) == Some(Parsed(e, i + |head| + |Marks(e.count)| + 2))
  {
    hide Marks, ParseList, At;
    AtConcat(ts, i, head, tail);
    AtToken(ts, i, head, 0);
    AtToken(ts, i, head, 1);
    if e.negated {
      AtToken(ts, i, head, 2);
    }
    ParseListOf(ts, i + |head|, e.col, e.negated, e.count);
  }

  lemma ParseJsonOf(ts: seq<Token>, i: nat, e: Expr)
    requires e.Json? && At(ts, i, Render(e))
    ensures ParseFactor(ts, i) == Some(Parsed(e, i + |Render(e)|))
  {
    var head := if e.negated then [KwNot, KwJsonContains] else [KwJsonContains];
    var tail := [LParen, Column(e.col), Comma, Placeholder, RParen];
    assert Render(e) == head + tail;
    AtConcat(ts, i, head, tail);
    AtToken(ts, i, head, 0);
    if e.negated {
      AtToken(ts, i, head, 1);
    }
    ParseJsonAfter(ts, i + |head|, e.col, e.negated);
    hide Render, ParseJson, At, ParseOr, ParseColumn;
  }

  lemma ParseJsonAfter(ts: seq<Token>, i: nat, col: string, negated: bool)
    requires At(ts, i, [LParen, Column(col), Comma, Placeholder, RParen])
    ensures ParseJson(ts, i, negated) == Some(Parsed(Json(col, negated), i + 5))
  {
    var tail := [LParen, Column(col), Comma, Placeholder, RParen];
    AtToken(ts, i, tail, 0);
    AtToken(ts, i, tail, 1);
    AtToken(ts, i, tail, 2);
    AtToken(ts, i, tail, 3);
    AtToken(ts, i, tail, 4);
  }

  lemma ParseLeafOf(ts: seq<Token>, i: nat, e: Expr)
    requires !Binary(e) && Printable(e) && At(ts, i, Render(e))
    ensures ParseFactor(ts, i) == Some(Parsed(e, i + |Render(e)|))
  {
    match e {
      case In(_, _, _) => ParseInOf(ts, i, e);
      case Json(_, _) => ParseJsonOf(ts, i, e);
      case Always =>
        AtToken(ts, i, Render(e), 0);
        AtToken(ts, i, Render(e), 1);
        AtToken(ts, i, Render(e), 2);
      case _ => ParseColumnOf(ts, i, e);
    }
  }

  /** A parenthesised rendering reads back as one factor. */
  lemma {:induction false} ParseGroupOf(ts: seq<Token>, i: nat, e: Expr)
    requires Printable(e) && At(ts, i, Group(e))
    ensures ParseFactor(ts, i) == Some(Parsed(e, i + |Group(e)|))
    decreases e, 3
  {
    hide Render, ParseFactor, ParseOr;
    var x := Group(e);
    AtToken(ts, i, x, 0);
    AtToken(ts, i, x, |Render(e)| + 1);
    assert x == [LParen] + (Render(e) + [RParen]);
    AtConcat(ts, i, [LParen], Render(e) + [RParen]);
    AtConcat(ts, i + 1, Render(e), [RParen]);
    ParseOrOf(ts, i + 1, e);
    ParseParens(ts, i, Parsed(e, i + 1 + |Render(e)|));
  }

  lemma ParseParens(ts: seq<Token>, i: nat, inner: Parsed)
    requires Peek(ts, i, LParen) && ParseOr(ts, i + 1) == Some(inner) && Peek(ts, inner.next, RParen)
    ensures ParseFactor(ts, i) == Some(Parsed(inner.e, inner.next + 1))
  {}

  /** The two sides of an AND or OR stand one after the other, each read as one factor, up to end. */
  predicate SidesAt(ts: seq<Token>, i: nat, mid: nat, end: nat, e: Expr)
    requires Binary(e)
  {
    && ParseFactor(ts, i) == Some(Parsed(e.left, mid))
    && Peek(ts, mid, if e.And? then KwAnd else KwOr)
    && ParseFactor(ts, mid + 1) == Some(Parsed(e.right, end))
  }

  function Group(e: Expr): seq<Token> {
    [LParen] + Render(e) + [RParen]
  }

  lemma RenderSides(e: Expr)
    requires Binary(e)
    ensures Render(e) == Group(e.left) + ([if e.And? then KwAnd else KwOr] + Group(e.right))
  {}

  lemma SidesLayout(ts: seq<Token>, i: nat, e: Expr, mid: nat)
    requires Binary(e) && At(ts, i, Render(e)) && mid == i + |Group(e.left)|
    ensures At(ts, i, Group(e.left)) && At(ts, mid + 1, Group(e.right))
    ensures Peek(ts, mid, if e.And? then KwAnd else KwOr)
    ensures i + |Render(e)| == mid + 1 + |Group(e.right)|
  {
    hide Render, Group;
    var conn := if e.And? then KwAnd else KwOr;
    var first, second := Group(e.left), Group(e.right);
    RenderSides(e);
    AtConcat(ts, i, first, [conn] + second);
    AtToken(ts, mid, [conn] + second, 0);
    AtConcat(ts, mid, [conn], second);
  }

  lemma {:induction false} ParseSidesOf(ts: seq<Token>, i: nat, e: Expr)
    requires Printable(e) && Binary(e) && At(ts, i, Render(e))
    ensures SidesAt(ts, i, i + |Group(e.left)|, i + |Render(e)|, e)
    decreases e, 0
  {
    hide ParseFactor, Render;
    var mid := i + |Group(e.left)|;
    SidesLayout(ts, i, e, mid);
    ParseGroupOf(ts, i, e.left);
    ParseGroupOf(ts, mid + 1, e.right);
  }

  /** A factor that no AND follows is a whole conjunction. */
  lemma ParseLoneFactor(ts: seq<Token>, i: nat, p: Parsed)
    requires ParseFactor(ts, i) == Some(p) && !Peek(ts, p.next, KwAnd)
    ensures ParseAnd(ts, i) == Some(p)
  {}

  /** A conjunction that no OR follows is a whole disjunction. */
  lemma ParseLoneConjunction(ts: seq<Token>, i: nat, p: Parsed)
    requires ParseAnd(ts, i) == Some(p) && !Peek(ts, p.next, KwOr)
    ensures ParseOr(ts, i) == Some(p)
  {}

  lemma ParseConjunction(ts: seq<Token>, i: nat, mid: nat, end: nat, e: Expr)
    requires e.And? && SidesAt(ts, i, mid, end, e) && end <= |ts|
    ensures ParseAnd(ts, i) == ParseAndRest(ts, Parsed(e, end))
  {
    assert ParseAnd(ts, i) == ParseAndRest(ts, Parsed(e.left, mid));
  }

  lemma ParseDisjunction(ts: seq<Token>, i: nat, mid: nat, end: nat, e: Expr)
    requires e.Or? && SidesAt(ts, i, mid, end, e) && ChainEnds(ts, end)
    ensures ParseOr(ts, i) == Some(Parsed(e, end))
  {
    ParseLoneFactor(ts, i, Parsed(e.left, mid));
    ParseLoneFactor(ts, mid + 1, Parsed(e.right, end));
    ParseTwoConjunctions(ts, i, mid, end, e);
  }

  lemma ParseTwoConjunctions(ts: seq<Token>, i: nat, mid: nat, end: nat, e: Expr)
    requires e.Or? && ParseAnd(ts, i) == Some(Parsed(e.left, mid)) && Peek(ts, mid, KwOr)
    requires ParseAnd(ts, mid + 1) == Some(Parsed(e.right, end)) && !Peek(ts, end, KwOr)
    ensures ParseOr(ts, i) == Some(Parsed(e, end))
  {
    assert ParseOrRest(ts, Parsed(e, end)) == Some(Parsed(e, end));
    assert ParseOrRest(ts, Parsed(e.left, mid)) == ParseOrRest(ts, Parsed(Or(e.left, e.right), end));
  }

  lemma {:induction false} ParseOrOf(ts: seq<Token>, i: nat, e: Expr)
    requires Printable(e) && At(ts, i, Render(e)) && ChainEnds(ts, i + |Render(e)|)
    ensures ParseOr(ts, i) == Some(Parsed(e, i + |Render(e)|))
    decreases e, 2
  {
    var end := i + |Render(e)|;
    if !Binary(e) {
      ParseLeafOf(ts, i, e);
      ParseLoneFactor(ts, i, Parsed(e, end));
      ParseLoneConjunction(ts, i, Parsed(e, end));
    } else {
      ParseBinaryOf(ts, i, e, end);
    }
  }

  lemma {:induction false} ParseBinaryOf(ts: seq<Token>, i: nat, e: Expr, end: nat)
    requires Printable(e) && Binary(e) && At(ts, i, Render(e)) && end == i + |Render(e)| && ChainEnds(ts, end)
    ensures ParseOr(ts, i) == Some(Parsed(e, end))
    decreases e, 1
  {
    hide ParseOr, ParseAnd, ParseFactor, Render, At;
    ParseSidesOf(ts, i, e);
    var mid := i + |Group(e.left)|;
    if e.And? {
      ParseConjunction(ts, i, mid, end, e);
      ParseLoneConjunction(ts, i, Parsed(e, end));
    } else {
      ParseDisjunction(ts, i, mid, end, e);
    }
  }

  /** Reading back what was rendered gives the same expression. */
  lemma ParseRender(e: Expr)
    requires Printable(e)
    ensures Parse(Render(e)) == Some(e)
  {
    var ts := Render(e);
    assert ts[0..0 + |ts|] == ts;
    ParseOrOf(ts, 0, e);
  }

  // ---- Evaluation with positional arguments ----

  /** How many placeholders an expression holds. */
  function Slots(e: Expr): nat {
    match e
    case And(l, r) => Slots(l) + Slots(r)
    case Or(l, r) => Slots(l) + Slots(r)
    case Cmp(_, _) => 1
    case In(_, _, count) => count
    case Between(_) => 2
    case Like(_, _) => 1
    case Json(_, _) => 1
    case Always => 0
  }

  /** The database side: the row, and what it answers where the model knows nothing
      (comparisons across kinds, patterns, JSON containment). */
  datatype Server = Server(
    row: string -> GoValue,
    cast: (CmpOp, GoValue, GoValue) -> bool,
    like: (GoValue, GoValue) -> bool,
    json: (GoValue, GoValue) -> bool)

  predicate SqlCompare(db: Server, op: CmpOp, doc: GoValue, val: GoValue) {
    if KindOf(doc) == KindOf(val) then SameKindCompare(op, doc, val) else db.cast(op, doc, val)
  }

  /** The i-th placeholder from the left takes the i-th argument. */
  predicate Eval(db: Server, e: Expr, args: seq<GoValue>)
    requires |args| == Slots(e)
  {
    match e
    case And(l, r) => Eval(db, l, args[..Slots(l)]) && Eval(db, r, args[Slots(l)..])
    case Or(l, r) => Eval(db, l, args[..Slots(l)]) || Eval(db, r, args[Slots(l)..])
    case Cmp(col, op) => SqlCompare(db, op, db.row(col), args[0])
    case In(col, negated, _) => (exists i :: 0 <= i < |args| && SqlCompare(db, Eq, db.row(col), args[i])) != negated
    case Between(col) => SqlCompare(db, Gte, db.row(col), args[0]) && SqlCompare(db, Lte, db.row(col), args[1])
    case Like(col, negated) => db.like(db.row(col), args[0]) != negated
    case Json(col, negated) => db.json(db.row(col), args[0]) != negated
    case Always => true
  }

  /** The negated forms decide the opposite of the plain ones. */
  lemma NegationsNegate(db: Server, col: string, args: seq<GoValue>)
    ensures |args| == 1 ==> (Eval(db, Like(col, true), args) <==> !Eval(db, Like(col, false), args))
    ensures |args| == 1 ==> (Eval(db, Like(col, false), args) <==> db.like(db.row(col), args[0]))
    ensures |args| == 1 ==> (Eval(db, Json(col, true), args) <==> !Eval(db, Json(col, false), args))
    ensures |args| == 1 ==> (Eval(db, Json(col, false), args) <==> db.json(db.row(col), args[0]))
    ensures Eval(db, In(col, true, |args|), args) <==> !Eval(db, In(col, false, |args|), args)
  {}
}
