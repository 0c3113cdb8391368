/** What SQL expressions mean, operator by operator, on the values their parts have. */
module SqlMeaning {
  import opened Bytes
  import opened SqlValue
  import opened SqlExpr

  const TWO_64: int := 0x1_0000_0000_0000_0000

  // Literals and names

  lemma LiteralsMean(i: int, s: Text, b: bool, row: Row, g: Engine)
    requires IsI64(i)
    ensures Eval(Lit(Number(ToText(i))), row, g) == Int(i)
    ensures Eval(Lit(Quoted(s)), row, g) == Str(s) && Eval(Lit(Boolean(b)), row, g) == Bool(b)
    ensures Eval(Lit(NullLit), row, g) == Null
  {
    TextParses(i);
  }

  /** The first column with the name. */
  ghost predicate NamedFirst(columns: seq<Text>, name: Text, k: nat) {
    k < |columns| && EqIgnoreCase(columns[k], name) && forall i | 0 <= i < k :: !EqIgnoreCase(columns[i], name)
  }

  /** No column has the whole name, and this is the first one whose last part is that of the name. */
  ghost predicate MeantFirst(columns: seq<Text>, name: Text, k: nat) {
    (forall i | 0 <= i < |columns| :: !EqIgnoreCase(columns[i], name)) &&
    k < |columns| && EqIgnoreCase(ShortName(columns[k]), ShortName(name)) &&
    forall i | 0 <= i < k :: !EqIgnoreCase(ShortName(columns[i]), ShortName(name))
  }

  /** A name is the value of the column it names, NULL if there is none. */
  lemma NamesMean(name: Text, row: Row, k: nat, g: Engine)
    requires |row.values| == |row.columns|
    ensures NamedFirst(row.columns, name, k) || MeantFirst(row.columns, name, k) ==> Eval(Ident(name), row, g) == row.values[k]
    ensures (forall i | 0 <= i < |row.columns| :: !NamedFirst(row.columns, name, i) && !MeantFirst(row.columns, name, i)) ==>
      Eval(Ident(name), row, g) == Null
  {
    var (full, short) := (FullPosition(row.columns, name), ShortPosition(row.columns, name));
    hide FullPosition, ShortPosition, ShortName, EqIgnoreCase;
    if full.Some? {
      assert NamedFirst(row.columns, name, full.value);
    } else if short.Some? {
      assert MeantFirst(row.columns, name, short.value);
    }
  }

  /** An operator takes the values of its sides. */
  lemma Sides(l: Expr, r: Expr, row: Row, g: Engine)
    ensures forall op: BinOp :: Eval(Binary(l, op, r), row, g) == Apply(op, Eval(l, row, g), Eval(r, row, g), g)
  {
    hide Apply;
  }

  lemma OneSide(x: Expr, row: Row, g: Engine)
    ensures forall op: UnOp :: Eval(Unary(op, x), row, g) == ApplyUnary(op, Eval(x, row, g), g)
    ensures Eval(IsNull(x), row, g) == Bool(Eval(x, row, g).Null?) && Eval(IsNotNull(x), row, g) == Bool(!Eval(x, row, g).Null?)
  {
    hide ApplyUnary;
  }

  // Comparisons

  lemma IntegersCompare(l: Expr, r: Expr, i: int, j: int, row: Row, g: Engine)
    requires Eval(l, row, g) == Int(i) && Eval(r, row, g) == Int(j)
    ensures Eval(Binary(l, Eq, r), row, g) == Bool(i == j) && Eval(Binary(l, NotEq, r), row, g) == Bool(i != j)
    ensures Eval(Binary(l, Lt, r), row, g) == Bool(i < j) && Eval(Binary(l, LtEq, r), row, g) == Bool(i <= j)
    ensures Eval(Binary(l, Gt, r), row, g) == Bool(i > j) && Eval(Binary(l, GtEq, r), row, g) == Bool(i >= j)
  {
    hide Eval;
    Sides(l, r, row, g);
  }

  /** Strings compare by their bytes, however many digits they hold. */
  lemma TextsCompare(l: Expr, r: Expr, s: Text, t: Text, row: Row, g: Engine)
    requires Eval(l, row, g) == Str(s) && Eval(r, row, g) == Str(t)
    ensures Eval(Binary(l, Eq, r), row, g) == Bool(s == t) && Eval(Binary(l, NotEq, r), row, g) == Bool(s != t)
    ensures Eval(Binary(l, Lt, r), row, g) == Bool(TextBelow(s, t)) && Eval(Binary(l, GtEq, r), row, g) == Bool(!TextBelow(s, t))
    ensures Eval(Binary(l, Gt, r), row, g) == Bool(TextBelow(t, s)) && Eval(Binary(l, LtEq, r), row, g) == Bool(!TextBelow(t, s))
  {
    hide Eval, CompareText, TextBelow;
    Sides(l, r, row, g);
    CompareTextIs(s, t);
  }

  /** A string compares with an integer as the integer it spells, and not at all if it spells none. */
  lemma CellsCompare(l: Expr, r: Expr, s: Text, j: int, row: Row, g: Engine)
    requires Eval(l, row, g) == Str(s) && Eval(r, row, g) == Int(j) && IsI64(j)
    ensures Eval(Binary(l, Eq, r), row, g) == Bool(s == ToText(j)) && Eval(Binary(r, Eq, l), row, g) == Bool(s == ToText(j))
    ensures Eval(Binary(l, NotEq, r), row, g) == Bool(s != ToText(j))
    ensures Eval(Binary(l, Lt, r), row, g) == Bool(exists i :: IsI64(i) && s == ToText(i) && i < j)
    ensures Eval(Binary(l, LtEq, r), row, g) == Bool(exists i :: IsI64(i) && s == ToText(i) && i <= j)
    ensures Eval(Binary(l, Gt, r), row, g) == Bool(exists i :: IsI64(i) && s == ToText(i) && i > j)
    ensures Eval(Binary(l, GtEq, r), row, g) == Bool(exists i :: IsI64(i) && s == ToText(i) && i >= j)
    ensures Eval(Binary(r, Lt, l), row, g) == Eval(Binary(l, Gt, r), row, g)
    ensures Eval(Binary(r, LtEq, l), row, g) == Eval(Binary(l, GtEq, r), row, g)
  {
    hide Eval, CanonicalInt, ToText;
    Sides(l, r, row, g);
    Sides(r, l, row, g);
    CanonicalIff(s, j);
    forall i | IsI64(i) ensures CanonicalInt(s) == Some(i) <==> s == ToText(i) {
      CanonicalIff(s, i);
    }
    Canonical(s);
  }

  lemma Canonical(s: Text)
    ensures CanonicalInt(s).Some? ==> IsI64(CanonicalInt(s).value) && s == ToText(CanonicalInt(s).value)
  {
  }

  /** Floats compare by value, and NaN with nothing. */
  ghost predicate FloatBelow(a: F64, b: F64) {
    exists p, q :: SortsAs(Float(a), p) && SortsAs(Float(b), q) && PlaceBelow(p, q) && !q.NotANumber?
  }

  ghost predicate FloatSame(a: F64, b: F64) {
    a != NaN && exists p :: SortsAs(Float(a), p) && SortsAs(Float(b), p)
  }

  lemma FloatsCompare(l: Expr, r: Expr, a: F64, b: F64, row: Row, g: Engine)
    requires Eval(l, row, g) == Float(a) && Eval(r, row, g) == Float(b)
    ensures Eval(Binary(l, Eq, r), row, g) == Bool(FloatSame(a, b)) && Eval(Binary(l, NotEq, r), row, g) == Bool(!FloatSame(a, b))
    ensures Eval(Binary(l, Lt, r), row, g) == Bool(FloatBelow(a, b)) && Eval(Binary(l, Gt, r), row, g) == Bool(FloatBelow(b, a))
    ensures Eval(Binary(l, LtEq, r), row, g) == Bool(FloatBelow(a, b) || FloatSame(a, b))
    ensures Eval(Binary(l, GtEq, r), row, g) == Bool(FloatBelow(b, a) || FloatSame(a, b))
  {
    hide Eval, FloatBelow, FloatSame;
    Sides(l, r, row, g);
    FloatOrder(a, b);
    FloatOrder(b, a);
  }

  lemma FloatOrder(a: F64, b: F64)
    ensures CompareFloat(a, b) == Some(Less) <==> FloatBelow(a, b)
    ensures CompareFloat(a, b) == Some(Equal) <==> FloatSame(a, b)
    ensures FloatEq(a, b) <==> FloatSame(a, b)
    ensures CompareFloat(a, b) == Some(Greater) <==> CompareFloat(b, a) == Some(Less)
  {
    var (p, q) := (PlaceOf(NumFloat(a)), PlaceOf(NumFloat(b)));
    assert SortsAs(Float(a), p) && SortsAs(Float(b), q);
  }

  /** An integer compares with a float as the double nearest to it. */
  lemma MixedCompare(l: Expr, r: Expr, op: BinOp, i: int, f: F64, x: Expr, row: Row, g: Engine)
    requires Eval(l, row, g) == Int(i) && Eval(r, row, g) == Float(f) && Eval(x, row, g) == Float(g.ofInt(i))
    requires op == Lt || op == LtEq || op == Gt || op == GtEq
    ensures Eval(Binary(l, op, r), row, g) == Eval(Binary(x, op, r), row, g)
    ensures Eval(Binary(r, op, l), row, g) == Eval(Binary(r, op, x), row, g)
    ensures Eval(Binary(l, Eq, r), row, g) == Bool(false)
  {
    hide Eval, CompareFloat;
    Sides(l, r, row, g);
    Sides(r, l, row, g);
    Sides(x, r, row, g);
    Sides(r, x, row, g);
  }

  /** NULL equals NULL only, and nothing is below or above it. */
  lemma NullCompares(l: Expr, r: Expr, row: Row, g: Engine)
    requires Eval(r, row, g) == Null
    ensures Eval(Binary(l, Eq, r), row, g) == Bool(Eval(l, row, g) == Null)
    ensures Eval(Binary(l, Lt, r), row, g) == Bool(false) && Eval(Binary(l, Gt, r), row, g) == Bool(false)
    ensures Eval(Binary(l, LtEq, r), row, g) == Bool(Eval(l, row, g) == Null) == Eval(Binary(l, GtEq, r), row, g)
    ensures Eval(IsNull(l), row, g) == Bool(Eval(l, row, g) == Null) && Eval(IsNotNull(l), row, g) == Bool(Eval(l, row, g) != Null)
  {
    hide Eval, CanonicalInt, CompareText, CompareFloat, FloatEq;
    Sides(l, r, row, g);
    OneSide(l, row, g);
  }

  lemma RangesMean(x: Expr, low: Expr, high: Expr, i: int, lo: int, hi: int, row: Row, g: Engine)
    requires Eval(x, row, g) == Int(i) && Eval(low, row, g) == Int(lo) && Eval(high, row, g) == Int(hi)
    ensures Eval(Between(x, false, low, high), row, g) == Bool(lo <= i <= hi)
    ensures Eval(Between(x, true, low, high), row, g) == Bool(i < lo || hi < i)
  {
    BetweenIs(x, false, low, high, row, g);
    BetweenIs(x, true, low, high, row, g);
    hide Eval;
  }

  lemma BetweenIs(x: Expr, negated: bool, low: Expr, high: Expr, row: Row, g: Engine)
    ensures var v := Eval(x, row, g);
      Eval(Between(x, negated, low, high), row, g) ==
      Bool((AtMost(CmpVal(Eval(low, row, g), v, g.ofInt)) && AtMost(CmpVal(v, Eval(high, row, g), g.ofInt))) != negated)
  {
    hide CmpVal, AtMost;
  }

  lemma {:induction false} ListsMean(x: Expr, list: seq<Expr>, row: Row, g: Engine)
    requires !Eval(x, row, g).Float?
    ensures Eval(InList(x, list, false), row, g) == Bool(exists e :: e in list && Eval(e, row, g) == Eval(x, row, g))
    ensures Eval(InList(x, list, true), row, g) == Bool(forall e | e in list :: Eval(e, row, g) != Eval(x, row, g))
  {
    AnyEqMeans(list, Eval(x, row, g), row, g);
  }

  lemma {:induction false} AnyEqMeans(list: seq<Expr>, v: Value, row: Row, g: Engine)
    requires !v.Float?
    ensures AnyEq(list, v, row, g) <==> exists e :: e in list && Eval(e, row, g) == v
  {
    if |list| > 0 {
      hide Eval;
      AnyEqMeans(list[1..], v, row, g);
      assert ValueEq(Eval(list[0], row, g), v) <==> Eval(list[0], row, g) == v;
      assert AnyEq(list, v, row, g) <==> Eval(list[0], row, g) == v || AnyEq(list[1..], v, row, g);
      assert list == [list[0]] + list[1..] && list[0] in list;
      assert forall e :: e in list <==> e == list[0] || e in list[1..];
    }
  }

  // Arithmetic

  /** The 64-bit integer that is congruent to `i` modulo 2^64. */
  ghost predicate WrapsTo(i: int, w: int) { IsI64(w) && exists k :: w == i + k * TWO_64 }

  lemma WrapIs(i: int)
    ensures WrapsTo(i, Wrap(i)) && forall w | WrapsTo(i, w) :: w == Wrap(i)
  {
    var k := -((i - MIN64) / TWO_64);
    assert Wrap(i) == i + k * TWO_64;
    forall w | WrapsTo(i, w) ensures w == Wrap(i) {
      var m :| w == i + m * TWO_64;
      assert w - Wrap(i) == (m - k) * TWO_64;
    }
  }

  /** `q` is `i` over `j`, cut toward zero. */
  ghost predicate Cuts(i: int, j: int, q: int) {
    var rest := i - q * j;
    (if rest < 0 then -rest else rest) < (if j < 0 then -j else j) && (rest == 0 || (rest > 0 <==> i > 0))
  }

  lemma QuotientCuts(i: int, j: int)
    requires j != 0
    ensures Cuts(i, j, Quotient(i, j))
  {
    hide Cuts;
    var n := if i >= 0 then i else -i;
    var (q, rest) := (n / j, n % j);
    Divides(n, j);
    if i >= 0 {
      CutsBy(i, j, q, rest);
    } else {
      Negated(q, j);
      CutsBy(i, j, -q, -rest);
    }
  }

  lemma Divides(n: int, j: int)
    requires j != 0
    ensures n - (n / j) * j == n % j && 0 <= n % j < if j < 0 then -j else j
  {
  }

  lemma Negated(q: int, j: int)
    ensures (-q) * j == -(q * j)
  {
  }

  lemma CutsBy(i: int, j: int, q: int, rest: int)
    requires i - q * j == rest && (if rest < 0 then -rest else rest) < (if j < 0 then -j else j)
    requires (i >= 0 ==> rest >= 0) && (i <= 0 ==> rest <= 0)
    ensures Cuts(i, j, q)
  {
  }

  /** An operand that is an integer, or a string that holds one. */
  ghost predicate Holds(v: Value, i: int, g: Engine) {
    v == Int(i) || (v.Str? && ParseI64(g.trim(v.s)) == Some(i))
  }

  lemma IntegersCompute(l: Expr, r: Expr, i: int, j: int, row: Row, g: Engine)
    requires Holds(Eval(l, row, g), i, g) && Holds(Eval(r, row, g), j, g)
    ensures exists w :: WrapsTo(i + j, w) && Eval(Binary(l, Plus, r), row, g) == Int(w)
    ensures exists w :: WrapsTo(i - j, w) && Eval(Binary(l, Minus, r), row, g) == Int(w)
    ensures exists w :: WrapsTo(i * j, w) && Eval(Binary(l, Multiply, r), row, g) == Int(w)
    ensures j != 0 ==> exists q, w :: Cuts(i, j, q) && WrapsTo(q, w) && Eval(Binary(l, Divide, r), row, g) == Int(w)
    ensures j == 0 && FloatSame(g.ofInt(0), Finite(0.0)) ==> Eval(Binary(l, Divide, r), row, g) == Null
  {
    hide Eval, Numeric, Wrap, Quotient, WrapsTo, Cuts, FloatSame, FloatEq;
    Sides(l, r, row, g);
    HeldIsNumeric(Eval(l, row, g), i, g);
    HeldIsNumeric(Eval(r, row, g), j, g);
    FloatOrder(g.ofInt(0), Finite(0.0));
    WrapIs(i + j);
    WrapIs(i - j);
    WrapIs(i * j);
    assert Eval(Binary(l, Plus, r), row, g) == Int(Wrap(i + j));
    assert Eval(Binary(l, Minus, r), row, g) == Int(Wrap(i - j));
    assert Eval(Binary(l, Multiply, r), row, g) == Int(Wrap(i * j));
    if j != 0 {
      QuotientCuts(i, j);
      WrapIs(Quotient(i, j));
      assert Eval(Binary(l, Divide, r), row, g) == Int(Wrap(Quotient(i, j)));
    }
  }

  lemma HeldIsNumeric(v: Value, i: int, g: Engine)
    requires Holds(v, i, g)
    ensures Numeric(v, g) == Int(i)
  {
    hide ParseI64;
  }

  /** With a float on either side, and a number on the other, the operation is that on doubles. */
  lemma FloatsCompute(l: Expr, r: Expr, a: F64, b: F64, row: Row, g: Engine)
    requires var (v, w) := (Eval(l, row, g), Eval(r, row, g));
      (v == Float(a) && (w == Float(b) || (w.Int? && g.ofInt(w.i) == b))) || (w == Float(b) && v.Int? && g.ofInt(v.i) == a)
    ensures Eval(Binary(l, Plus, r), row, g) == Float(g.add(a, b)) && Eval(Binary(l, Minus, r), row, g) == Float(g.sub(a, b))
    ensures Eval(Binary(l, Multiply, r), row, g) == Float(g.mul(a, b))
    ensures Eval(Binary(l, Divide, r), row, g) == if FloatSame(b, Finite(0.0)) then Null else Float(g.div(a, b))
  {
    hide Eval, FloatSame, FloatEq, ParseI64;
    Sides(l, r, row, g);
    FloatOrder(b, Finite(0.0));
  }

  /** With NULL or a boolean there is no result. */
  lemma NothingComputes(l: Expr, r: Expr, op: BinOp, row: Row, g: Engine)
    requires op == Plus || op == Minus || op == Multiply || op == Divide
    requires Eval(l, row, g).Null? || Eval(l, row, g).Bool? || Eval(r, row, g).Null? || Eval(r, row, g).Bool?
    ensures Eval(Binary(l, op, r), row, g) == Null
  {
    hide Eval, ParseI64;
    Sides(l, r, row, g);
  }

  lemma NegativesMean(x: Expr, i: int, row: Row, g: Engine)
    requires Eval(x, row, g) == Int(i)
    ensures exists w :: WrapsTo(-i, w) && Eval(Unary(Neg, x), row, g) == Int(w)
  {
    hide Eval, Wrap, WrapsTo;
    OneSide(x, row, g);
    WrapIs(-i);
    assert Eval(Unary(Neg, x), row, g) == Int(Wrap(-i));
  }

  lemma TextsJoin(l: Expr, r: Expr, s: Text, row: Row, g: Engine)
    requires Eval(l, row, g) == Str(s)
    ensures forall t | Eval(r, row, g) == Str(t) :: Eval(Binary(l, StringConcat, r), row, g) == Str(s + t)
    ensures forall i | Eval(r, row, g) == Int(i) :: Eval(Binary(l, StringConcat, r), row, g) == Str(s + ToText(i))
    ensures forall b | Eval(r, row, g) == Bool(b) :: Eval(Binary(l, StringConcat, r), row, g) == Str(s + if b then Spelled("true") else Spelled("false"))
    ensures Eval(r, row, g) == Null ==> Eval(Binary(l, StringConcat, r), row, g) == Str(s + Spelled("NULL"))
  {
    assert TRUE == Spelled("true") && FALSE == Spelled("false") && NULL == Spelled("NULL");
    hide Eval, ToText, Spelled;
    Sides(l, r, row, g);
  }

  // Logic

  /** What WHERE takes for true. */
  ghost predicate IsTrue(v: Value) {
    v == Bool(true) || (v.Int? && v.i != 0) || (v.Float? && !FloatSame(v.f, Finite(0.0))) || (v.Str? && |v.s| > 0)
  }

  lemma TruthIs(v: Value)
    ensures Truthy(v) <==> IsTrue(v)
  {
    hide FloatSame;
    if v.Float? {
      FloatOrder(v.f, Finite(0.0));
    }
  }

  lemma LogicMeans(l: Expr, r: Expr, row: Row, g: Engine)
    ensures var (p, q) := (IsTrue(Eval(l, row, g)), IsTrue(Eval(r, row, g)));
      Eval(Binary(l, And, r), row, g) == Bool(p && q) && Eval(Binary(l, Or, r), row, g) == Bool(p || q) &&
      Eval(Unary(Not, l), row, g) == Bool(!p)
  {
    hide Eval, IsTrue, Truthy;
    Sides(l, r, row, g);
    OneSide(l, row, g);
    TruthIs(Eval(l, row, g));
    TruthIs(Eval(r, row, g));
  }

  /** `match()` holds if the query has a token, and the content all of them. */
  lemma MatchMeans(c: Expr, q: Expr, s: Text, t: Text, row: Row, g: Engine)
    requires Eval(c, row, g) == Str(s) && Eval(q, row, g) == Str(t)
    ensures Eval(Match(c, q), row, g) == Bool(|g.tok(t)| > 0 && forall x | x in g.tok(t) :: x in g.tok(s))
  {
  }
}
