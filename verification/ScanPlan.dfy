/** Index hints for a scan of `blocks`: what the planner reads off the WHERE clause, and
    why no block that a hint passes over has a row of the result. */
module ScanPlan {
  import opened Bytes
  import opened SqlValue
  import opened SqlExpr
  import opened BlockRows
  import opened HashJoin
  import SI = SecondaryIndexes
  import BC = BlockCodec

  type Hint = SI.Hint

  function StrVal(e: Expr): Option<Text> {
    if e.Lit? && e.l.Quoted? then Some(e.l.s) else None
  }

  function IntVal(e: Expr): Option<int> {
    if e.Lit? && e.l.Number? then ParseI64(e.l.text) else None
  }

  function OrElse<T>(a: Option<T>, b: Option<T>): Option<T> { if a.Some? then a else b }

  /** `as u32`. */
  function AsU32(i: int): (r: nat)
    ensures r < 0x1_0000_0000 && (0 <= i < 0x1_0000_0000 ==> r == i)
  {
    i % 0x1_0000_0000
  }

  // Hints

  function EqHint(col: Option<Text>, val: Option<Text>, num: Option<int>): Hint {
    if col == Some(BLOCK_TYPE) then
      (if val.Some? && TypeFromName(val.value).Some? then SI.OfTypes([TypeFromName(val.value).value]) else SI.FullScan)
    else if col == Some(PRE) then (if num.Some? then SI.PreExact(AsU32(num.value)) else SI.FullScan)
    else if col == Some(CONTENT) then (if val.Some? then SI.ContentExact(val.value) else SI.FullScan)
    else if col == Some(SI.LANG) then (if val.Some? && val.value != [] then SI.LangExact(val.value) else SI.FullScan)
    else if col == Some(SI.DEPTH) then
      (if num.Some? && num.value > 0 then SI.DepthExact(num.value % 256) else SI.FullScan)
    else SI.FullScan
  }

  /** The types a list names; elements that are no string literals, or name no type, are passed over. */
  function ListedTypes(list: seq<Expr>): seq<BC.BlockType> {
    if |list| == 0 then []
    else
      var rest := ListedTypes(list[1..]);
      if StrVal(list[0]).Some? && TypeFromName(StrVal(list[0]).value).Some?
      then [TypeFromName(StrVal(list[0]).value).value] + rest else rest
  }

  function Subject(e: Expr): Option<Text>
    requires e.Binary?
  {
    OrElse(ColName(e.left), ColName(e.right))
  }

  function EqStr(e: Expr): Option<Text>
    requires e.Binary?
  {
    OrElse(StrVal(e.right), StrVal(e.left))
  }

  function EqInt(e: Expr): Option<int>
    requires e.Binary?
  {
    OrElse(IntVal(e.right), IntVal(e.left))
  }

  /** `hint_for_conjunct`. */
  function HintFor(e: Expr, g: Engine): Hint
    decreases e
  {
    match e
    case Binary(_, Eq, _) => EqHint(Subject(e), EqStr(e), EqInt(e))
    case InList(x, list, negated) =>
      if !negated && ColName(x) == Some(BLOCK_TYPE) && ListedTypes(list) != [] then SI.OfTypes(ListedTypes(list)) else SI.FullScan
    case Between(x, negated, low, high) =>
      if !negated && ColName(x) == Some(PRE) && IntVal(low).Some? && IntVal(high).Some?
      then SI.PreRange(AsU32(IntVal(low).value), AsU32(IntVal(high).value)) else SI.FullScan
    case Match(c, q) =>
      if ColName(c) == Some(CONTENT) && StrVal(q).Some? && g.tok(StrVal(q).value) != []
      then SI.TermMatch(g.tok(StrVal(q).value)) else SI.FullScan
    case Nested(x) => HintFor(x, g)
    case _ => SI.FullScan
  }

  // When hints are sound

  /** The `as u32` casts keep every `pre` between the bounds, and the range is not inverted. */
  predicate RangeOk(lo: int, hi: int) {
    var (a, b) := (AsU32(lo), AsU32(hi));
    a <= b && (Max(lo, 0) > Least(hi) || (a <= Max(lo, 0) && Least(hi) <= b))
  }

  function Max(a: int, b: int): int { if a >= b then a else b }

  function Least(hi: int): int { if hi <= 0xFFFF_FFFF then hi else 0xFFFF_FFFF }

  predicate AllLiteral(list: seq<Expr>) { forall x | x in list :: x.Lit? }

  /** The conjunct's IN list is all literals, its BETWEEN bounds survive the casts. */
  predicate ConjunctOk(c: Expr) {
    (c.InList? && !c.negated && ColName(c.e) == Some(BLOCK_TYPE) && ListedTypes(c.list) != [] ==> AllLiteral(c.list)) &&
    (c.Between? && !c.negated && ColName(c.e) == Some(PRE) && IntVal(c.low).Some? && IntVal(c.high).Some? ==>
      RangeOk(IntVal(c.low).value, IntVal(c.high).value))
  }

  predicate WhereOk(w: Expr) { forall c | c in Conjuncts(w) :: ConjunctOk(c) }

  /** If `pre` lies between the bounds, it lies between the casts of them. */
  predicate Covered(lo: int, hi: int, pre: nat) {
    pre < 0x1_0000_0000 && lo <= pre <= hi ==> AsU32(lo) <= pre <= AsU32(hi)
  }

  /** Exactly under `RangeOk` does the range over `u32` miss no block and not panic. */
  lemma RangeOkIff(lo: int, hi: int)
    ensures RangeOk(lo, hi) <==> AsU32(lo) <= AsU32(hi) && forall pre: nat :: Covered(lo, hi, pre)
  {
    hide AsU32;
    var (a, b) := (AsU32(lo), AsU32(hi));
    if RangeOk(lo, hi) {
      forall p: nat ensures Covered(lo, hi, p) {
        assert p < 0x1_0000_0000 && lo <= p <= hi ==> Max(lo, 0) <= p <= Least(hi);
      }
    } else if a <= b {
      assert !Covered(lo, hi, Max(lo, 0)) || !Covered(lo, hi, Least(hi));
    }
  }

  /** `pre BETWEEN 5 AND 3` gives a hint whose range is inverted: looking it up panics. */
  lemma InvertedRange(g: Engine)
    ensures var c := Between(Ident(PRE), false, Lit(Number([53])), Lit(Number([51])));
      HintFor(c, g) == SI.PreRange(5, 3) && !ConjunctOk(c)
  {
    assert FromDigits([53]) == Some(5) && FromDigits([51]) == Some(3);
    assert ParseI64([53]) == Some(5) && ParseI64([51]) == Some(3);
    ColumnNames();
    assert LowerText(PRE) == PRE;
  }

  /** Where a block stands in the scan, as far as its row shows. */
  datatype Spot = Spot(prefix: Text, docId: nat, id: nat, others: Others)

  function RowOf(p: Spot, b: BC.Block): Row { BlockRow(p.prefix, p.docId, b, p.id, p.others) }

  /** An equality that holds has a column on one side and the literal it was read off on the other. */
  predicate Sides(e: Expr, col: Expr, lit: Expr, row: Row, g: Engine)
    requires e.Binary?
  {
    ((col == e.left && lit == e.right) || (col == e.right && lit == e.left)) &&
    ColName(col) == Subject(e) && lit.Lit? &&
    (EqStr(e).Some? ==> StrVal(lit) == EqStr(e)) && (EqInt(e).Some? ==> IntVal(lit) == EqInt(e)) &&
    SqlEq(Eval(col, row, g), LitValue(lit.l, g))
  }

  lemma {:induction false} EqSides(e: Expr, p: Spot, b: BC.Block, g: Engine)
    requires e.Binary? && e.op == Eq && Subject(e).Some? && (EqStr(e).Some? || EqInt(e).Some?)
    requires Truthy(Eval(e, RowOf(p, b), g))
    ensures exists col, lit :: Sides(e, col, lit, RowOf(p, b), g)
  {
    hide BlockRow, CanonicalInt, ParseI64;
    var col, lit := if ColName(e.left).Some? then e.left else e.right, if ColName(e.left).Some? then e.right else e.left;
    assert Sides(e, col, lit, RowOf(p, b), g);
  }

  /** An equality that gives a hint holds only on blocks the hint is about. */
  lemma {:induction false} EqHintSound(e: Expr, p: Spot, b: BC.Block, g: Engine, tools: SI.Tools)
    requires e.Binary? && e.op == Eq && !HintFor(e, g).FullScan? && b.pre < 0x1_0000_0000
    requires Truthy(Eval(e, RowOf(p, b), g))
    ensures SI.HintHolds(HintFor(e, g), tools, b)
  {
    hide BlockRow, CanonicalInt, ParseI64, Eval, TypeFromName, TypeName, ColName;
    EqSides(e, p, b, g);
    var col, lit :| Sides(e, col, lit, RowOf(p, b), g);
    EqColumn(Subject(e).value, col, lit, p, b, g, tools);
  }

  lemma {:induction false} EqColumn(name: Text, col: Expr, lit: Expr, p: Spot, b: BC.Block, g: Engine, tools: SI.Tools)
    requires ColName(col) == Some(name) && lit.Lit? && b.pre < 0x1_0000_0000
    requires SqlEq(Eval(col, RowOf(p, b), g), LitValue(lit.l, g))
    requires !EqHint(Some(name), StrVal(lit), IntVal(lit)).FullScan?
    ensures SI.HintHolds(EqHint(Some(name), StrVal(lit), IntVal(lit)), tools, b)
  {
    hide BlockRow, CanonicalInt, ParseI64, Eval, TypeFromName, TypeName, ColName;
    ColumnNames();
    if name == BLOCK_TYPE {
      ColumnValue(col, 2, p.prefix, p.docId, b, p.id, p.others, g);
      TypeNames(b.blockType);
    } else if name == PRE {
      ColumnValue(col, 4, p.prefix, p.docId, b, p.id, p.others, g);
    } else if name == CONTENT {
      ColumnValue(col, 3, p.prefix, p.docId, b, p.id, p.others, g);
    } else if name == SI.LANG {
      ColumnValue(col, 7, p.prefix, p.docId, b, p.id, p.others, g);
    } else if name == SI.DEPTH {
      ColumnValue(col, 6, p.prefix, p.docId, b, p.id, p.others, g);
    }
  }

  function IsLiteral(name: Text, l: Literal): Expr { Binary(Ident(name), Eq, Lit(l)) }

  /** An equality with a literal the column can hold gives a hint that holds on exactly the
      blocks whose rows satisfy it; that of `content` holds whatever the case of letters. */
  lemma {:induction false} EqHintExact(n: int, s: Text, t: BC.BlockType, p: Spot, b: BC.Block, g: Engine, tools: SI.Tools)
    requires 0 <= n < 0x1_0000_0000 && s != []
    ensures var e := IsLiteral(PRE, Number(ToText(n))); Truthy(Eval(e, RowOf(p, b), g)) <==> SI.HintHolds(HintFor(e, g), tools, b)
    ensures var e := IsLiteral(SI.LANG, Quoted(s)); Truthy(Eval(e, RowOf(p, b), g)) <==> SI.HintHolds(HintFor(e, g), tools, b)
    ensures 0 < n < 256 ==>
      var e := IsLiteral(SI.DEPTH, Number(ToText(n))); Truthy(Eval(e, RowOf(p, b), g)) <==> SI.HintHolds(HintFor(e, g), tools, b)
    ensures var e := IsLiteral(BLOCK_TYPE, Quoted(TypeName(t)));
      Truthy(Eval(e, RowOf(p, b), g)) <==> SI.HintHolds(HintFor(e, g), tools, b)
    ensures SI.HintHolds(HintFor(IsLiteral(CONTENT, Quoted(s)), g), tools, b) <==> tools.lower(b.content) == tools.lower(s)
  {
    hide BlockRow, Eval, CanonicalInt, ParseI64, ToText, TypeFromName, TypeName, SI.HeadingDepth, SI.CodeLang, LowerText, HintFor;
    CellsAre(p.prefix, p.docId, b, p.id, p.others, g);
    TextParses(n);
    TypeNames(t);
    TypeNames(b.blockType);
    LowerColumns();
    NamesApart();
    EqualityIs(PRE, Number(ToText(n)), RowOf(p, b), g);
    EqualityIs(SI.DEPTH, Number(ToText(n)), RowOf(p, b), g);
    EqualityIs(SI.LANG, Quoted(s), RowOf(p, b), g);
    EqualityIs(BLOCK_TYPE, Quoted(TypeName(t)), RowOf(p, b), g);
    EqualityIs(CONTENT, Quoted(s), RowOf(p, b), g);
  }

  lemma EqualityIs(name: Text, l: Literal, row: Row, g: Engine)
    ensures Truthy(Eval(IsLiteral(name, l), row, g)) <==> SqlEq(Eval(Ident(name), row, g), LitValue(l, g))
    ensures HintFor(IsLiteral(name, l), g) ==
      EqHint(Some(LowerText(name)), if l.Quoted? then Some(l.s) else None, if l.Number? then ParseI64(l.text) else None)
  {
    hide ParseI64, LowerText, EqHint, SqlEq, LitValue;
    Evaluated(IsLiteral(name, l), Eval(Ident(name), row, g), Eval(Lit(l), row, g), row, g);
  }

  lemma Evaluated(e: Expr, v: Value, w: Value, row: Row, g: Engine)
    requires e.Binary? && e.op == Eq && Eval(e.left, row, g) == v && Eval(e.right, row, g) == w
    ensures Eval(e, row, g) == Bool(SqlEq(v, w))
  {
    hide SqlEq;
  }

  lemma LowerColumns()
    ensures LowerText(PRE) == PRE && LowerText(SI.LANG) == SI.LANG && LowerText(SI.DEPTH) == SI.DEPTH
    ensures LowerText(BLOCK_TYPE) == BLOCK_TYPE && LowerText(CONTENT) == CONTENT
  {
  }

  lemma NamesApart()
    ensures BLOCK_TYPE != PRE && BLOCK_TYPE != CONTENT && BLOCK_TYPE != SI.LANG && BLOCK_TYPE != SI.DEPTH && PRE != CONTENT
    ensures PRE != SI.LANG && PRE != SI.DEPTH && CONTENT != SI.LANG && CONTENT != SI.DEPTH && SI.LANG != SI.DEPTH
  {
    assert |PRE| == 3 && |BLOCK_TYPE| == 10 && |CONTENT| == 7 && |SI.LANG| == 4 && |SI.DEPTH| == 5;
  }

  lemma ColumnNames()
    ensures COLUMNS[2] == BLOCK_TYPE && COLUMNS[3] == CONTENT && COLUMNS[4] == PRE && COLUMNS[6] == SI.DEPTH && COLUMNS[7] == SI.LANG
  {
  }

  /** The elements of a list that have to be computed. */
  function Computed(list: seq<Expr>): seq<Expr> {
    if |list| == 0 then [] else (if list[0].Lit? then [] else [list[0]]) + Computed(list[1..])
  }

  lemma {:induction false} LiteralsNotComputed(list: seq<Expr>)
    requires AllLiteral(list)
    ensures Computed(list) == []
  {
    if |list| > 0 {
      assert list[0] in list && list[0].Lit?;
      LiteralsNotComputed(list[1..]);
    }
  }

  /** A type a list contains is listed, unless it is computed. */
  lemma {:induction false} ListedOrComputed(list: seq<Expr>, t: BC.BlockType, row: Row, g: Engine)
    ensures AnyEq(list, Str(TypeName(t)), row, g) ==> t in ListedTypes(list) || AnyEq(Computed(list), Str(TypeName(t)), row, g)
    ensures AnyEq(Computed(list), Str(TypeName(t)), row, g) ==> AnyEq(list, Str(TypeName(t)), row, g)
  {
    hide TypeFromName, TypeName, ParseI64;
    TypeNames(t);
    if |list| > 0 {
      var rest := Computed(list[1..]);
      ListedOrComputed(list[1..], t, row, g);
      if list[0].Lit? {
        assert Computed(list) == rest && Eval(list[0], row, g) == LitValue(list[0].l, g);
        if ValueEq(LitValue(list[0].l, g), Str(TypeName(t))) {
          assert list[0].l == Quoted(TypeName(t)) && ListedTypes(list)[0] == t;
        }
      } else {
        assert Computed(list)[0] == list[0] && Computed(list)[1..] == rest;
      }
    }
  }

  /** The hint of an IN list loses a block exactly if a computed element gives the
      block's type and no literal names it. */
  lemma {:induction false} ListHintLosesIff(e: Expr, p: Spot, b: BC.Block, g: Engine, tools: SI.Tools)
    requires e.InList? && !HintFor(e, g).FullScan?
    ensures Truthy(Eval(e, RowOf(p, b), g)) && !SI.HintHolds(HintFor(e, g), tools, b) <==>
      b.blockType !in ListedTypes(e.list) && AnyEq(Computed(e.list), Str(TypeName(b.blockType)), RowOf(p, b), g)
  {
    hide BlockRow, AnyEq, ListedTypes, TypeName, ColName, Computed;
    ColumnNames();
    ColumnValue(e.e, 2, p.prefix, p.docId, b, p.id, p.others, g);
    ListedOrComputed(e.list, b.blockType, RowOf(p, b), g);
  }

  lemma {:induction false} ListHintSound(e: Expr, p: Spot, b: BC.Block, g: Engine, tools: SI.Tools)
    requires e.InList? && ConjunctOk(e) && !HintFor(e, g).FullScan? && Truthy(Eval(e, RowOf(p, b), g))
    ensures SI.HintHolds(HintFor(e, g), tools, b)
  {
    hide BlockRow, ListedTypes, TypeName;
    ListHintLosesIff(e, p, b, g, tools);
    LiteralsNotComputed(e.list);
  }

  lemma {:induction false} RangeHintSound(e: Expr, p: Spot, b: BC.Block, g: Engine, tools: SI.Tools)
    requires e.Between? && ConjunctOk(e) && !HintFor(e, g).FullScan? && Truthy(Eval(e, RowOf(p, b), g))
    requires b.pre < 0x1_0000_0000
    ensures SI.HintHolds(HintFor(e, g), tools, b) && HintFor(e, g).lo <= HintFor(e, g).hi
  {
    hide BlockRow, ParseI64, ColName, RangeOk, AsU32;
    ColumnNames();
    ColumnValue(e.e, 4, p.prefix, p.docId, b, p.id, p.others, g);
    var lo, hi := IntVal(e.low).value, IntVal(e.high).value;
    RangeOkIff(lo, hi);
    assert Covered(lo, hi, b.pre);
  }

  /** A `match()` that gives a hint holds on exactly the blocks the hint is about. */
  lemma {:induction false} MatchHintExact(e: Expr, p: Spot, b: BC.Block, g: Engine, tools: SI.Tools)
    requires e.Match? && !HintFor(e, g).FullScan? && g.tok == tools.tok
    ensures Truthy(Eval(e, RowOf(p, b), g)) <==> SI.HintHolds(HintFor(e, g), tools, b)
    ensures HintFor(e, g).TermMatch?
  {
    hide BlockRow, ColName;
    ColumnNames();
    ColumnValue(e.content, 3, p.prefix, p.docId, b, p.id, p.others, g);
  }

  lemma {:induction false} HintSound(e: Expr, p: Spot, b: BC.Block, g: Engine, tools: SI.Tools)
    requires ConjunctOk(e) && !HintFor(e, g).FullScan? && g.tok == tools.tok && b.pre < 0x1_0000_0000
    requires Truthy(Eval(e, RowOf(p, b), g)) && !e.Nested?
    ensures SI.HintHolds(HintFor(e, g), tools, b)
  {
    match e
    case Binary(_, Eq, _) => EqHintSound(e, p, b, g, tools);
    case InList(_, _, _) => ListHintSound(e, p, b, g, tools);
    case Between(_, _, _, _) => RangeHintSound(e, p, b, g, tools);
    case Match(_, _) => MatchHintExact(e, p, b, g, tools);
  }

  // Hints are read off the WHERE clause as written, rows are tested against it folded

  /** A conjunct that gives a hint is a column against literals: folding leaves it alone. */
  lemma {:induction false} HintIsFolded(e: Expr, g: Engine)
    requires ConjunctOk(e) && !HintFor(e, g).FullScan? && !e.Nested?
    ensures Fold(e, g) == e && !IsConstant(e)
  {
    hide Eval, ParseI64, RangeOk, TypeFromName, LowerText;
    match e
    case Binary(l, Eq, r) =>
      assert (ColName(l).Some? && r.Lit?) || (l.Lit? && ColName(r).Some?);
      LeafFolded(l, g);
      LeafFolded(r, g);
    case InList(x, list, _) =>
      LeafFolded(x, g);
      LiteralsFolded(list, g);
    case Between(x, _, low, high) =>
      LeafFolded(x, g);
      LeafFolded(low, g);
      LeafFolded(high, g);
    case _ =>
  }

  lemma {:induction false} LeafFolded(e: Expr, g: Engine)
    requires e.Lit? || ColName(e).Some?
    ensures Fold(e, g) == e
  {
  }

  lemma {:induction false} LiteralsFolded(list: seq<Expr>, g: Engine)
    requires AllLiteral(list)
    ensures FoldAll(list, g) == list
  {
    hide Eval;
    if |list| > 0 {
      assert list[0] in list && list[0].Lit?;
      LeafFolded(list[0], g);
      LiteralsFolded(list[1..], g);
      assert [list[0]] + list[1..] == list;
    }
  }

  lemma {:induction false} ConjunctNotNested(w: Expr, c: Expr)
    requires c in Conjuncts(w)
    ensures !c.Nested? && !(c.Binary? && c.op == And)
    decreases w
  {
    match w
    case Binary(l, And, r) =>
      if c in Conjuncts(l) { ConjunctNotNested(l, c); } else { ConjunctNotNested(r, c); }
    case Nested(x) => ConjunctNotNested(x, c);
    case _ =>
  }

  lemma {:induction false} ConjunctNotConstant(w: Expr, c: Expr)
    requires c in Conjuncts(w) && !IsConstant(c)
    ensures !IsConstant(w)
    decreases w
  {
    match w
    case Binary(l, And, r) =>
      if c in Conjuncts(l) { ConjunctNotConstant(l, c); } else { ConjunctNotConstant(r, c); }
    case Nested(x) => ConjunctNotConstant(x, c);
    case _ =>
  }

  /** If the folded WHERE clause holds, so does every conjunct that folding leaves alone. */
  lemma {:induction false} FoldedConjunctHolds(w: Expr, c: Expr, row: Row, g: Engine)
    requires c in Conjuncts(w) && Fold(c, g) == c && !IsConstant(c) && Truthy(Eval(Fold(w, g), row, g))
    ensures Truthy(Eval(c, row, g))
    decreases w
  {
    ConjunctNotConstant(w, c);
    FoldInsideConstant(w, g);
    assert Fold(w, g) == FoldInside(w, g);
    match w
    case Binary(l, And, r) =>
      if c in Conjuncts(l) { FoldedConjunctHolds(l, c, row, g); } else { FoldedConjunctHolds(r, c, row, g); }
    case Nested(x) => FoldedConjunctHolds(x, c, row, g);
    case _ =>
  }

  /** What the row loop keeps. */
  predicate Keeps(w: Expr, row: Row, g: Engine) { Truthy(Eval(Fold(w, g), row, g)) }

  /** A row that the WHERE clause keeps is a row of every hint the planner may choose. */
  lemma {:induction false} WhereImpliesHint(w: Expr, c: Expr, p: Spot, b: BC.Block, g: Engine, tools: SI.Tools)
    requires ConjunctOk(c) && c in Conjuncts(w) && !HintFor(c, g).FullScan? && g.tok == tools.tok && b.pre < 0x1_0000_0000
    requires Keeps(w, RowOf(p, b), g)
    ensures SI.HintHolds(HintFor(c, g), tools, b)
  {
    hide Eval, Fold, ConjunctOk, HintFor, BlockRow, Conjuncts;
    ConjunctNotNested(w, c);
    HintIsFolded(c, g);
    FoldedConjunctHolds(w, c, RowOf(p, b), g);
    HintSound(c, p, b, g, tools);
  }
}
