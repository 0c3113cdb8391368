/** Scalar expressions: evaluation, and constant folding before it. Arithmetic wraps as
    in a release build. */
module SqlExpr {
  import opened Bytes
  import opened SqlValue

  datatype Literal = Number(text: Text) | Quoted(s: Text) | Boolean(b: bool) | NullLit | OtherLit

  datatype BinOp =
    | And | Or | Eq | NotEq | Lt | LtEq | Gt | GtEq | Plus | Minus | Multiply | Divide | StringConcat | OtherBin

  datatype UnOp = Not | Neg | OtherUn

  /** `Other` is any form that folding leaves alone, such as a function call or LIKE. */
  datatype Expr =
    | Lit(l: Literal)
    | Ident(name: Text)
    | Compound(parts: seq<Text>)
    | Binary(left: Expr, op: BinOp, right: Expr)
    | Unary(uop: UnOp, e: Expr)
    | IsNull(e: Expr)
    | IsNotNull(e: Expr)
    | InList(e: Expr, list: seq<Expr>, negated: bool)
    | Between(e: Expr, negated: bool, low: Expr, high: Expr)
    | Nested(e: Expr)
    | Cast(e: Expr)
    | Match(content: Expr, query: Expr)
    | Other(id: nat)

  /** What the evaluator takes from its surroundings: double arithmetic and notation,
      trimming, the tokenizer in force, and all other expression forms. */
  datatype Engine = Engine(
    ofInt: int -> F64, add: (F64, F64) -> F64, sub: (F64, F64) -> F64, mul: (F64, F64) -> F64,
    div: (F64, F64) -> F64, neg: F64 -> F64, shows: F64 -> Text, parses: Text -> Option<F64>,
    trim: Text -> Text, tok: Text -> seq<Text>, other: (nat, Row) -> Value)

  function TwoTo(k: nat): nat { if k == 0 then 1 else 2 * TwoTo(k - 1) }

  /** The floats a double can be: the finite ones are whole multiples of 2^-1074 with at
      most 53 significant bits, below 2^1024 (binary64, section 3.4 of IEEE 754-2019). */
  ghost predicate IsDouble(f: F64) {
    f.Finite? ==> exists m: int, k: nat :: Spells(f.r, m, k)
  }

  ghost predicate Spells(r: real, m: int, k: nat) {
    -0x20_0000_0000_0000 < m < 0x20_0000_0000_0000 && k <= 2045 && Scaled(r, 1074, m, k)
  }

  /** `r` times 2^n is `m` times 2^k. */
  ghost predicate Scaled(r: real, n: nat, m: int, k: nat) {
    r * (TwoTo(n) as real) == (m * TwoTo(k)) as real
  }

  /** What `f64::to_string` writes of a double, `parse::<f64>` reads back, and all
      arithmetic stays among the doubles. */
  ghost predicate Lawful(g: Engine) {
    (forall f | IsDouble(f) :: g.parses(g.shows(f)) == Some(f)) &&
    (forall t :: Doubled(g.parses(t))) && (forall i | IsI64(i) :: IsDouble(g.ofInt(i))) &&
    (forall f | IsDouble(f) :: IsDouble(g.neg(f))) &&
    ClosedUnder(g.add) && ClosedUnder(g.sub) && ClosedUnder(g.mul) && ClosedUnder(g.div)
  }

  ghost predicate Doubled(o: Option<F64>) { o.Some? ==> IsDouble(o.value) }

  ghost predicate ClosedUnder(op: (F64, F64) -> F64) {
    forall a, b | IsDouble(a) && IsDouble(b) :: IsDouble(op(a, b))
  }

  /** A value as the program can hold it. */
  ghost predicate Held(v: Value) { ValueOk(v) && (v.Float? ==> IsDouble(v.f)) }

  // A lawful engine is possible

  /** A notation for doubles: significand and exponent in decimal. */
  ghost function Shown(f: F64): Text {
    match f
    case NaN => [0]
    case NegInf => [1]
    case PosInf => [2]
    case NegZero => [3]
    case Finite(r) =>
      if IsDouble(f) then
        var m: int, k: nat :| Spells(r, m, k);
        [4] + (ToText(m) + ([101] + ToText(k)))
      else []
  }

  lemma NoExponentSign(i: int)
    ensures 101 !in ToText(i)
  {
    hide Digits;
  }

  lemma FirstSign(a: Text, b: Text)
    requires 101 !in a
    ensures var s := a + ([101] + b); s[|a|] == 101 && forall i | 0 <= i < |a| :: s[i] != 101
  {
  }

  /** What stands before the first `e` and behind it. */
  lemma {:induction false} SplitAtSign(a: Text, b: Text, c: Text, d: Text)
    requires 101 !in a && 101 !in c && a + ([101] + b) == c + ([101] + d)
    ensures a == c && b == d
  {
    var s, t := a + ([101] + b), c + ([101] + d);
    FirstSign(a, b);
    FirstSign(c, d);
    assert s[..|a|] == a && t[..|c|] == c && s[|a| + 1..] == b && t[|c| + 1..] == d;
  }

  lemma {:induction false} TwoToPositive(k: nat)
    ensures TwoTo(k) > 0
  {
    if k > 0 {
      TwoToPositive(k - 1);
    }
  }

  lemma ScaledOnce(a: real, b: real, n: nat, m: int, k: nat)
    requires Scaled(a, n, m, k) && Scaled(b, n, m, k)
    ensures a == b
  {
    TwoToPositive(n);
    Cancel(a, b, TwoTo(n) as real);
  }

  lemma Cancel(a: real, b: real, d: real)
    requires d > 0.0 && a * d == b * d
    ensures a == b
  {
    assert (a - b) * d == 0.0;
  }

  lemma SpellingFits(r: real, m: int, k: nat)
    requires Spells(r, m, k)
    ensures IsI64(m) && IsI64(k) && Scaled(r, 1074, m, k)
  {
  }

  /** Different doubles are shown differently. */
  lemma ShownOnce(a: F64, b: F64)
    requires IsDouble(a) && IsDouble(b) && Shown(a) == Shown(b)
    ensures a == b
  {
    hide IsDouble, Spells, Scaled, ToText, ParseI64;
    if a.Finite? && b.Finite? {
      var m: int, k: nat :| Spells(a.r, m, k) && Shown(a) == [4] + (ToText(m) + ([101] + ToText(k)));
      var n: int, l: nat :| Spells(b.r, n, l) && Shown(b) == [4] + (ToText(n) + ([101] + ToText(l)));
      assert Shown(a)[1..] == ToText(m) + ([101] + ToText(k)) && Shown(b)[1..] == ToText(n) + ([101] + ToText(l));
      NoExponentSign(m);
      NoExponentSign(n);
      SplitAtSign(ToText(m), ToText(k), ToText(n), ToText(l));
      SpellingFits(a.r, m, k);
      SpellingFits(b.r, n, l);
      TextParses(m);
      TextParses(n);
      TextParses(k);
      TextParses(l);
      ScaledOnce(a.r, b.r, 1074, m, k);
    }
  }

  ghost function Unshown(t: Text): Option<F64> {
    if f: F64 :| IsDouble(f) && Shown(f) == t then Some(f) else None
  }

  /** The laws asked of the engine can be met. */
  lemma LawfulIsPossible() returns (g: Engine)
    ensures Lawful(g)
  {
    hide IsDouble, Shown;
    var nan := (a: F64, b: F64) => NaN;
    g := Engine(i => NaN, nan, nan, nan, nan, f => NaN, f => Shown(f), t => Unshown(t), t => t, t => [], (i, row) => Null);
    assert IsDouble(NaN) by { NanIsDouble(); }
    forall f | IsDouble(f) ensures g.parses(g.shows(f)) == Some(f) {
      var u := Unshown(Shown(f)).value;
      ShownOnce(u, f);
    }
  }

  lemma NanIsDouble()
    ensures IsDouble(NaN)
  {
  }

  /** Two's complement wrap-around to 64 bits. */
  function Wrap(i: int): (r: int)
    ensures IsI64(r) && (IsI64(i) ==> r == i)
  {
    (i - MIN64) % 0x1_0000_0000_0000_0000 + MIN64
  }

  function Truthy(v: Value): bool {
    match v
    case Bool(b) => b
    case Int(i) => i != 0
    case Float(f) => !FloatEq(f, Finite(0.0))
    case Str(s) => s != []
    case Null => false
  }

  /** `eval_sql_value`. */
  function LitValue(l: Literal, g: Engine): Value {
    match l
    case Number(n) =>
      (match ParseI64(n)
       case Some(i) => Int(i)
       case None => match g.parses(n) case Some(f) => Float(f) case None => Null)
    case Quoted(s) => Str(s)
    case Boolean(b) => Bool(b)
    case _ => Null
  }

  // "true", "false", "NULL"
  const TRUE: Text := [116, 114, 117, 101]
  const FALSE: Text := [102, 97, 108, 115, 101]
  const NULL: Text := [78, 85, 76, 76]

  function Display(v: Value, g: Engine): Text {
    match v
    case Str(s) => s
    case Int(i) => ToText(i)
    case Float(f) => g.shows(f)
    case Bool(b) => if b then TRUE else FALSE
    case Null => NULL
  }

  /** `numeric`: a string that holds a number as that number. */
  function Numeric(v: Value, g: Engine): Value {
    if !v.Str? then v
    else
      match ParseI64(g.trim(v.s))
      case Some(i) => Int(i)
      case None =>
        match g.parses(g.trim(v.s))
        case Some(f) => if f == NaN || f == NegInf || f == PosInf then v else Float(f)
        case None => v
  }

  function AsF64(v: Value, g: Engine): Option<F64> {
    match v case Float(f) => Some(f) case Int(i) => Some(g.ofInt(i)) case _ => None
  }

  function Arith(a: Value, b: Value, onInt: (int, int) -> int, onFloat: (F64, F64) -> F64, g: Engine): Value {
    var x, y := Numeric(a, g), Numeric(b, g);
    if x.Int? && y.Int? then Int(Wrap(onInt(x.i, y.i)))
    else
      match (AsF64(x, g), AsF64(y, g))
      case (Some(p), Some(q)) => Float(onFloat(p, q))
      case _ => Null
  }

  function Divided(a: Value, b: Value, g: Engine): Value {
    var x, y := Numeric(a, g), Numeric(b, g);
    if x.Int? && y.Int? && y.i != 0 then Int(Wrap(Quotient(x.i, y.i)))
    else
      match (AsF64(x, g), AsF64(y, g))
      case (Some(p), Some(q)) => if FloatEq(q, Finite(0.0)) then Null else Float(g.div(p, q))
      case _ => Null
  }

  function AtMost(o: Option<Ordering>): bool { o == Some(Less) || o == Some(Equal) }

  /** A binary operator on the values of its sides. AND and OR may leave out the right
      side, which then cannot matter. */
  function Apply(op: BinOp, a: Value, b: Value, g: Engine): Value {
    match op
    case And => Bool(Truthy(a) && Truthy(b))
    case Or => Bool(Truthy(a) || Truthy(b))
    case Eq => Bool(SqlEq(a, b))
    case NotEq => Bool(!SqlEq(a, b))
    case Lt => Bool(CmpVal(a, b, g.ofInt) == Some(Less))
    case LtEq => Bool(AtMost(CmpVal(a, b, g.ofInt)))
    case Gt => Bool(CmpVal(a, b, g.ofInt) == Some(Greater))
    case GtEq => Bool(CmpVal(a, b, g.ofInt).Some? && CmpVal(a, b, g.ofInt) != Some(Less))
    case Plus => Arith(a, b, (x, y) => x + y, g.add, g)
    case Minus => Arith(a, b, (x, y) => x - y, g.sub, g)
    case Multiply => Arith(a, b, (x, y) => x * y, g.mul, g)
    case Divide => Divided(a, b, g)
    case StringConcat => Str(Display(a, g) + Display(b, g))
    case OtherBin => Null
  }

  function ApplyUnary(op: UnOp, v: Value, g: Engine): Value {
    match op
    case Not => Bool(!Truthy(v))
    case Neg =>
      (match v
       case Int(i) => Int(Wrap(-i))
       case Float(f) => Float(g.neg(f))
       case _ => Null)
    case OtherUn => Null
  }

  /** `match(content, query)`. */
  function MatchValue(content: Value, query: Value, g: Engine): Value {
    if content.Str? && query.Str? then
      var terms := g.tok(query.s);
      Bool(terms != [] && forall t | t in terms :: t in g.tok(content.s))
    else Bool(false)
  }

  function Join(parts: seq<Text>): Text {
    if |parts| == 0 then []
    else if |parts| == 1 then parts[0]
    else parts[0] + [46] + Join(parts[1..])
  }

  function OrNull(v: Option<Value>): Value {
    match v case Some(x) => x case None => Null
  }

  /** `eval_expr`. */
  function Eval(e: Expr, row: Row, g: Engine): Value
    decreases e
  {
    match e
    case Lit(l) => LitValue(l, g)
    case Ident(name) => OrNull(Get(row, name))
    case Compound(parts) =>
      var full := Get(row, Join(parts));
      OrNull(if full.Some? then full else Get(row, if parts == [] then [] else parts[|parts| - 1]))
    case Binary(l, op, r) => Apply(op, Eval(l, row, g), Eval(r, row, g), g)
    case Unary(op, x) => ApplyUnary(op, Eval(x, row, g), g)
    case IsNull(x) => Bool(Eval(x, row, g).Null?)
    case IsNotNull(x) => Bool(!Eval(x, row, g).Null?)
    case InList(x, list, negated) => Bool(AnyEq(list, Eval(x, row, g), row, g) != negated)
    case Between(x, negated, low, high) =>
      var v := Eval(x, row, g);
      Bool((AtMost(CmpVal(Eval(low, row, g), v, g.ofInt)) && AtMost(CmpVal(v, Eval(high, row, g), g.ofInt))) != negated)
    case Nested(x) => Eval(x, row, g)
    case Cast(x) => Eval(x, row, g)
    case Match(c, q) => MatchValue(Eval(c, row, g), Eval(q, row, g), g)
    case Other(id) => g.other(id, row)
  }

  function AnyEq(list: seq<Expr>, v: Value, row: Row, g: Engine): bool
    decreases list
  {
    |list| > 0 && (ValueEq(Eval(list[0], row, g), v) || AnyEq(list[1..], v, row, g))
  }

  // Folding

  predicate IsConstant(e: Expr)
    decreases e
  {
    match e
    case Lit(_) => true
    case Unary(_, x) => IsConstant(x)
    case IsNull(x) => IsConstant(x)
    case IsNotNull(x) => IsConstant(x)
    case Nested(x) => IsConstant(x)
    case Cast(x) => IsConstant(x)
    case Binary(l, _, r) => IsConstant(l) && IsConstant(r)
    case Between(x, _, low, high) => IsConstant(x) && IsConstant(low) && IsConstant(high)
    case InList(x, list, _) => IsConstant(x) && AllConstant(list)
    case _ => false
  }

  predicate AllConstant(list: seq<Expr>)
    decreases list
  {
    |list| > 0 ==> IsConstant(list[0]) && AllConstant(list[1..])
  }

  /** `value_to_expr`. */
  function ValueToExpr(v: Value, g: Engine): Expr {
    match v
    case Int(i) => Lit(Number(ToText(i)))
    case Float(f) => Lit(Number(g.shows(f)))
    case Bool(b) => Lit(Boolean(b))
    case Str(s) => Lit(Quoted(s))
    case Null => Lit(NullLit)
  }

  const NO_ROW := Row([], [])

  /** The expression with folded children. */
  function FoldInside(e: Expr, g: Engine): Expr
    decreases e, 0
  {
    match e
    case Binary(l, op, r) => Binary(Fold(l, g), op, Fold(r, g))
    case Unary(op, x) => Unary(op, Fold(x, g))
    case Nested(x) => Nested(Fold(x, g))
    case IsNull(x) => IsNull(Fold(x, g))
    case IsNotNull(x) => IsNotNull(Fold(x, g))
    case Between(x, negated, low, high) => Between(Fold(x, g), negated, Fold(low, g), Fold(high, g))
    case InList(x, list, negated) => InList(Fold(x, g), FoldAll(list, g), negated)
    case _ => e
  }

  /** `fold_constants`. */
  function Fold(e: Expr, g: Engine): Expr
    decreases e, 1
  {
    var folded := FoldInside(e, g);
    if folded.Lit? || !IsConstant(folded) then folded else ValueToExpr(Eval(folded, NO_ROW, g), g)
  }

  function FoldAll(list: seq<Expr>, g: Engine): (r: seq<Expr>)
    ensures |r| == |list|
    decreases list, 0
  {
    if |list| == 0 then [] else [Fold(list[0], g)] + FoldAll(list[1..], g)
  }

  // What folding preserves

  /** The literal that stands for the value evaluates to it again: a float that prints
      as an integer would come back as one. */
  predicate Stable(v: Value, g: Engine) {
    v.Float? ==> ParseI64(g.shows(v.f)).None?
  }

  /** No constant below `e` that folding replaces evaluates to a float that prints as an integer. */
  predicate Safe(e: Expr, g: Engine)
    decreases e, 1
  {
    (IsConstant(e) && !e.Lit? ==> Stable(Eval(e, NO_ROW, g), g)) && SafeInside(e, g)
  }

  predicate SafeInside(e: Expr, g: Engine)
    decreases e, 0
  {
    match e
    case Binary(l, _, r) => Safe(l, g) && Safe(r, g)
    case Unary(_, x) => Safe(x, g)
    case Nested(x) => Safe(x, g)
    case IsNull(x) => Safe(x, g)
    case IsNotNull(x) => Safe(x, g)
    case Between(x, _, low, high) => Safe(x, g) && Safe(low, g) && Safe(high, g)
    case InList(x, list, _) => Safe(x, g) && AllSafe(list, g)
    case _ => true
  }

  predicate AllSafe(list: seq<Expr>, g: Engine)
    decreases list, 0
  {
    |list| > 0 ==> Safe(list[0], g) && AllSafe(list[1..], g)
  }

  lemma LitHeld(l: Literal, g: Engine)
    requires Lawful(g)
    ensures Held(LitValue(l, g))
  {
    hide IsDouble, ClosedUnder;
    if l.Number? {
      assert Doubled(g.parses(l.text));
    }
  }

  lemma NumericHeld(v: Value, g: Engine)
    requires Lawful(g) && Held(v)
    ensures Held(Numeric(v, g)) && (AsF64(Numeric(v, g), g).Some? ==> IsDouble(AsF64(Numeric(v, g), g).value))
  {
    hide IsDouble, ClosedUnder;
    if v.Str? {
      assert Doubled(g.parses(g.trim(v.s)));
    }
  }

  lemma ArithHeld(a: Value, b: Value, onInt: (int, int) -> int, onFloat: (F64, F64) -> F64, g: Engine)
    requires Lawful(g) && Held(a) && Held(b) && ClosedUnder(onFloat)
    ensures Held(Arith(a, b, onInt, onFloat, g))
  {
    hide IsDouble, Wrap, Numeric, AsF64, Lawful;
    NumericHeld(a, g);
    NumericHeld(b, g);
  }

  lemma DividedHeld(a: Value, b: Value, g: Engine)
    requires Lawful(g) && Held(a) && Held(b)
    ensures Held(Divided(a, b, g))
  {
    hide IsDouble, Wrap, Quotient, Numeric, AsF64;
    NumericHeld(a, g);
    NumericHeld(b, g);
  }

  lemma ApplyHeld(op: BinOp, a: Value, b: Value, g: Engine)
    requires Lawful(g) && Held(a) && Held(b)
    ensures Held(Apply(op, a, b, g))
  {
    hide CmpVal, SqlEq, Arith, Divided, IsDouble, ClosedUnder;
    match op
    case Plus => ArithHeld(a, b, (x, y) => x + y, g.add, g);
    case Minus => ArithHeld(a, b, (x, y) => x - y, g.sub, g);
    case Multiply => ArithHeld(a, b, (x, y) => x * y, g.mul, g);
    case Divide => DividedHeld(a, b, g);
    case _ =>
  }

  lemma UnaryHeld(op: UnOp, v: Value, g: Engine)
    requires Lawful(g) && Held(v)
    ensures Held(ApplyUnary(op, v, g))
  {
    hide IsDouble, ClosedUnder;
  }

  /** What the program can hold in a row and what its other expressions give. */
  ghost predicate RowHeld(row: Row, g: Engine) {
    (forall v | v in row.values :: Held(v)) && forall id :: Held(g.other(id, row))
  }

  lemma GetHeld(row: Row, name: Text)
    requires forall v | v in row.values :: Held(v)
    ensures Held(OrNull(Get(row, name)))
  {
    hide IsDouble, FullPosition, ShortPosition;
  }

  /** Every expression evaluates to something the program can hold. */
  lemma {:induction false} EvalHeld(e: Expr, row: Row, g: Engine)
    requires Lawful(g) && RowHeld(row, g)
    ensures Held(Eval(e, row, g))
    decreases e
  {
    hide Lawful, Apply, ApplyUnary, CmpVal, LitValue, Get, IsDouble;
    match e
    case Lit(l) => LitHeld(l, g);
    case Ident(name) => GetHeld(row, name);
    case Compound(parts) =>
      GetHeld(row, Join(parts));
      GetHeld(row, if parts == [] then [] else parts[|parts| - 1]);
    case Unary(op, x) =>
      EvalHeld(x, row, g);
      UnaryHeld(op, Eval(x, row, g), g);
    case Binary(l, op, r) =>
      EvalHeld(l, row, g);
      EvalHeld(r, row, g);
      ApplyHeld(op, Eval(l, row, g), Eval(r, row, g), g);
    case Nested(x) => EvalHeld(x, row, g);
    case Cast(x) => EvalHeld(x, row, g);
    case _ =>
  }

  /** A constant's value can be held, and no row changes it. */
  lemma {:induction false} ConstantValue(e: Expr, row: Row, g: Engine)
    requires Lawful(g) && IsConstant(e)
    ensures Eval(e, row, g) == Eval(e, NO_ROW, g) && Held(Eval(e, row, g))
    decreases e
  {
    hide Lawful, Apply, ApplyUnary, CmpVal, LitValue, IsDouble;
    match e
    case Lit(l) => LitHeld(l, g);
    case Unary(op, x) =>
      ConstantValue(x, row, g);
      UnaryHeld(op, Eval(x, row, g), g);
    case IsNull(x) => ConstantValue(x, row, g);
    case IsNotNull(x) => ConstantValue(x, row, g);
    case Nested(x) => ConstantValue(x, row, g);
    case Cast(x) => ConstantValue(x, row, g);
    case Binary(l, op, r) =>
      ConstantValue(l, row, g);
      ConstantValue(r, row, g);
      ApplyHeld(op, Eval(l, row, g), Eval(r, row, g), g);
    case Between(x, _, low, high) =>
      ConstantValue(x, row, g);
      ConstantValue(low, row, g);
      ConstantValue(high, row, g);
    case InList(x, list, _) =>
      ConstantValue(x, row, g);
      ConstantList(list, Eval(x, row, g), row, g);
  }

  lemma {:induction false} ConstantList(list: seq<Expr>, v: Value, row: Row, g: Engine)
    requires Lawful(g) && AllConstant(list)
    ensures AnyEq(list, v, row, g) == AnyEq(list, v, NO_ROW, g)
    decreases list
  {
    hide Lawful, Held;
    if |list| > 0 {
      ConstantValue(list[0], row, g);
      ConstantList(list[1..], v, row, g);
    }
  }

  /** A value written as a literal and read again is the same value iff it is stable. */
  lemma {:induction false} RereadIff(v: Value, row: Row, g: Engine)
    requires Lawful(g) && Held(v)
    ensures Eval(ValueToExpr(v, g), row, g) == v <==> Stable(v, g)
    ensures IsConstant(ValueToExpr(v, g)) && ValueToExpr(v, g).Lit?
  {
    hide ParseI64, ToText, IsDouble, ClosedUnder;
    if v.Int? {
      TextParses(v.i);
    }
  }

  lemma {:induction false} FoldConstant(e: Expr, g: Engine)
    ensures IsConstant(Fold(e, g)) <==> IsConstant(e)
    decreases e, 1
  {
    hide Eval, FoldInside, IsConstant;
    FoldInsideConstant(e, g);
    var folded := FoldInside(e, g);
    if !folded.Lit? && IsConstant(folded) {
      LiteralIsConstant(Eval(folded, NO_ROW, g), g);
    }
  }

  lemma LiteralIsConstant(v: Value, g: Engine)
    ensures IsConstant(ValueToExpr(v, g))
  {
  }

  lemma {:induction false} FoldInsideConstant(e: Expr, g: Engine)
    ensures IsConstant(FoldInside(e, g)) <==> IsConstant(e)
    ensures FoldInside(e, g).Lit? <==> e.Lit?
    decreases e, 0
  {
    hide Fold;
    match e
    case Binary(l, _, r) => FoldConstant(l, g); FoldConstant(r, g);
    case Unary(_, x) => FoldConstant(x, g);
    case Nested(x) => FoldConstant(x, g);
    case IsNull(x) => FoldConstant(x, g);
    case IsNotNull(x) => FoldConstant(x, g);
    case Between(x, _, low, high) => FoldConstant(x, g); FoldConstant(low, g); FoldConstant(high, g);
    case InList(x, list, _) => FoldConstant(x, g); FoldConstants(list, g);
    case _ =>
  }

  lemma {:induction false} FoldConstants(list: seq<Expr>, g: Engine)
    ensures AllConstant(FoldAll(list, g)) <==> AllConstant(list)
    decreases list, 0
  {
    hide Fold;
    if |list| > 0 {
      FoldConstant(list[0], g);
      FoldConstants(list[1..], g);
      assert FoldAll(list, g)[1..] == FoldAll(list[1..], g);
    }
  }

  /** Folding does not change what an expression evaluates to on any row, as long as no
      constant it replaces evaluates to a float that prints as an integer. */
  lemma {:induction false} FoldKeepsMeaning(e: Expr, row: Row, g: Engine)
    requires Lawful(g) && Safe(e, g)
    ensures Eval(Fold(e, g), row, g) == Eval(e, row, g)
    decreases e, 1
  {
    hide Lawful, Eval, FoldInside, Held;
    FoldInsideKeeps(e, row, g);
    FoldInsideConstant(e, g);
    if !e.Lit? && IsConstant(e) {
      FoldInsideKeeps(e, NO_ROW, g);
      ConstantValue(e, row, g);
      ConstantValue(e, NO_ROW, g);
      RereadIff(Eval(e, NO_ROW, g), row, g);
    }
  }

  lemma {:induction false} FoldInsideKeeps(e: Expr, row: Row, g: Engine)
    requires Lawful(g) && SafeInside(e, g)
    ensures Eval(FoldInside(e, g), row, g) == Eval(e, row, g)
    decreases e, 0
  {
    hide Lawful, Apply, ApplyUnary, CmpVal, Fold, Safe, Get;
    match e
    case Binary(l, _, r) => FoldKeepsMeaning(l, row, g); FoldKeepsMeaning(r, row, g);
    case Unary(_, x) => FoldKeepsMeaning(x, row, g);
    case Nested(x) => FoldKeepsMeaning(x, row, g);
    case IsNull(x) => FoldKeepsMeaning(x, row, g);
    case IsNotNull(x) => FoldKeepsMeaning(x, row, g);
    case Between(x, _, low, high) =>
      FoldKeepsMeaning(x, row, g);
      FoldKeepsMeaning(low, row, g);
      FoldKeepsMeaning(high, row, g);
    case InList(x, list, _) =>
      FoldKeepsMeaning(x, row, g);
      FoldListKeeps(list, Eval(x, row, g), row, g);
    case _ =>
  }

  lemma {:induction false} FoldListKeeps(list: seq<Expr>, v: Value, row: Row, g: Engine)
    requires Lawful(g) && AllSafe(list, g)
    ensures AnyEq(FoldAll(list, g), v, row, g) == AnyEq(list, v, row, g)
    decreases list, 0
  {
    hide Lawful, Fold, Safe, Eval;
    if |list| > 0 {
      FoldKeepsMeaning(list[0], row, g);
      FoldListKeeps(list[1..], v, row, g);
      assert FoldAll(list, g)[1..] == FoldAll(list[1..], g);
    }
  }

  /** For a constant whose parts are safe, folding keeps the value exactly when the
      value is not a float that prints as an integer. */
  lemma {:induction false} FoldKeepsConstantIff(e: Expr, row: Row, g: Engine)
    requires Lawful(g) && IsConstant(e) && !e.Lit? && SafeInside(e, g)
    ensures Eval(Fold(e, g), row, g) == Eval(e, row, g) <==> Stable(Eval(e, NO_ROW, g), g)
  {
    hide Lawful, Eval, FoldInside, Held;
    FoldInsideConstant(e, g);
    FoldInsideKeeps(e, NO_ROW, g);
    ConstantValue(e, row, g);
    ConstantValue(e, NO_ROW, g);
    RereadIff(Eval(e, NO_ROW, g), row, g);
  }

  // "1.5" and "3"
  const ONE_AND_A_HALF: Text := [49, 46, 53]
  const THREE: Text := [51]

  /** A predicate that folding turns from false to true: `1.5 + 1.5 = '3'`. */
  lemma {:induction false} FoldChangesPredicate(row: Row, g: Engine)
    requires g.parses(ONE_AND_A_HALF) == Some(Finite(1.5)) && g.add(Finite(1.5), Finite(1.5)) == Finite(3.0)
    requires g.shows(Finite(3.0)) == THREE
    ensures var half := Lit(Number(ONE_AND_A_HALF));
      var e := Binary(Binary(half, Plus, half), Eq, Lit(Quoted(THREE)));
      Eval(e, row, g) == Bool(false) && Eval(Fold(e, g), row, g) == Bool(true)
  {
    var half := Lit(Number(ONE_AND_A_HALF));
    var sum := Binary(half, Plus, half);
    assert FromDigits([49, 46]) == None;
    assert FromDigits(ONE_AND_A_HALF) == None by { assert ONE_AND_A_HALF[..2] == [49, 46]; }
    assert Eval(half, NO_ROW, g) == Float(Finite(1.5)) == Eval(half, row, g);
    assert Eval(sum, NO_ROW, g) == Float(Finite(3.0)) == Eval(sum, row, g);
    assert Fold(sum, g) == Lit(Number(THREE));
    assert ParseI64(THREE) == Some(3) && ToText(3) == THREE;
    var e := Binary(sum, Eq, Lit(Quoted(THREE)));
    assert FoldInside(e, g) == Binary(Lit(Number(THREE)), Eq, Lit(Quoted(THREE)));
    assert Eval(FoldInside(e, g), NO_ROW, g) == Bool(true);
    assert Fold(e, g) == Lit(Boolean(true));
  }
}
