/** Scalar values: equality, hash keys, the sort order, and rows. */
module SqlValue {
  import opened Bytes

  type Text = seq<Byte>

  /** A double: the finite ones are reals, apart from the negative zero. */
  datatype F64 = NaN | NegInf | PosInf | NegZero | Finite(r: real)

  datatype Value = Str(s: Text) | Int(i: int) | Float(f: F64) | Bool(b: bool) | Null

  datatype Ordering = Less | Equal | Greater

  function Reverse(o: Ordering): Ordering {
    match o case Less => Greater case Equal => Equal case Greater => Less
  }

  const MIN64: int := -0x8000_0000_0000_0000
  const MAX64: int := 0x7FFF_FFFF_FFFF_FFFF

  predicate ValueOk(v: Value) { v.Int? ==> IsI64(v.i) }

  // Integers as text

  function Digits(n: nat): (s: Text)
    ensures |s| > 0 && forall i :: 0 <= i < |s| ==> 48 <= s[i] <= 57
  {
    if n < 10 then [48 + n] else Digits(n / 10) + [48 + n % 10]
  }

  /** `i64::to_string`. */
  function ToText(i: int): (s: Text)
    ensures |s| > 0
  {
    if i < 0 then [45] + Digits(-i) else Digits(i)
  }

  /** The number a string of decimal digits spells. */
  function FromDigits(s: Text): Option<nat> {
    if |s| == 0 then None
    else
      var d := s[|s| - 1];
      if !(48 <= d <= 57) then None
      else if |s| == 1 then Some(d - 48)
      else match FromDigits(s[..|s| - 1]) case None => None case Some(n) => Some(10 * n + (d - 48))
  }

  /** `parse::<i64>`: an optional sign, digits, and the value in range. */
  function ParseI64(s: Text): (r: Option<int>)
    ensures r.Some? ==> IsI64(r.value)
  {
    if |s| == 0 then None
    else
      var signed := s[0] == 43 || s[0] == 45;
      match FromDigits(if signed then s[1..] else s)
      case None => None
      case Some(n) =>
        var m: int := n;
        var i := if s[0] == 45 then -m else m;
        if IsI64(i) then Some(i) else None
  }

  lemma {:induction false} DigitsParse(n: nat)
    ensures FromDigits(Digits(n)) == Some(n)
  {
    if n >= 10 {
      DigitsParse(n / 10);
      assert Digits(n)[..|Digits(n)| - 1] == Digits(n / 10);
    }
  }

  /** Printing an integer and parsing it gives it back. */
  lemma TextParses(i: int)
    requires IsI64(i)
    ensures ParseI64(ToText(i)) == Some(i)
  {
    hide FromDigits, Digits;
    DigitsParse(if i < 0 then -i else i);
    if i < 0 {
      assert ToText(i)[1..] == Digits(-i);
    }
  }

  lemma DigitsMore(n: nat, d: nat)
    requires d < 10
    ensures Digits(d) == [48 + d] && (n > 0 ==> Digits(10 * n + d) == Digits(n) + [48 + d])
  {
  }

  /** Integers print in decimal, the last digit last, after a minus sign if negative. */
  lemma PrintsDecimal(n: nat, d: nat)
    requires d < 10
    ensures ToText(d) == [48 + d] && (n > 0 ==> ToText(10 * n + d) == ToText(n) + [48 + d] && ToText(0 - n) == [45] + ToText(n))
  {
    hide Digits;
    DigitsMore(n, d);
  }

  function ZeroDigits(k: nat): (s: Text)
    ensures |s| == k
  {
    seq(k, _ => 48)
  }

  lemma {:induction false} FromDigitsIff(s: Text, n: nat)
    ensures FromDigits(s) == Some(n) <==> exists k: nat :: s == ZeroDigits(k) + Digits(n)
    decreases |s|
  {
    if k: nat :| s == ZeroDigits(k) + Digits(n) {
      PaddedParses(k, n);
    }
    if FromDigits(s) == Some(n) {
      var k := DigitsPadded(s);
    }
  }

  lemma {:induction false} PaddedParses(k: nat, n: nat)
    ensures FromDigits(ZeroDigits(k) + Digits(n)) == Some(n)
    decreases k, n
  {
    hide FromDigits, Digits;
    DigitsMore(n / 10, n % 10);
    DigitsMore(0, 0);
    if n >= 10 {
      PaddedParses(k, n / 10);
      DigitAdded(ZeroDigits(k) + Digits(n / 10), n % 10);
      Regroup(ZeroDigits(k), Digits(n / 10), [48 + n % 10]);
    } else {
      if k > 0 {
        PaddedParses(k - 1, 0);
        assert ZeroDigits(k) == ZeroDigits(k - 1) + Digits(0);
      }
      DigitAdded(ZeroDigits(k), n);
    }
  }

  lemma DigitAdded(s: Text, d: nat)
    requires d < 10 && (s == [] || FromDigits(s).Some?)
    ensures FromDigits(s + [48 + d]) == Some((if s == [] then 0 else 10 * FromDigits(s).value) + d)
  {
    hide FromDigits;
    var t := s + [48 + d];
    assert t[..|t| - 1] == s && t[|t| - 1] == 48 + d;
    DigitsFrom(t);
  }

  lemma DigitsFrom(t: Text)
    requires |t| > 0 && 48 <= t[|t| - 1] <= 57
    ensures var (front, d) := (FromDigits(t[..|t| - 1]), t[|t| - 1] - 48);
      (|t| == 1 ==> FromDigits(t) == Some(d)) && (|t| > 1 && front.Some? ==> FromDigits(t) == Some(10 * front.value + d))
  {
  }

  lemma LastDigit(s: Text)
    requires |s| > 1 && FromDigits(s).Some?
    ensures FromDigits(s[..|s| - 1]).Some? && 48 <= s[|s| - 1] <= 57
    ensures FromDigits(s).value == 10 * FromDigits(s[..|s| - 1]).value + (s[|s| - 1] - 48)
  {
  }

  lemma OnlyDigit(s: Text)
    requires |s| == 1 && FromDigits(s).Some?
    ensures 48 <= s[0] <= 57 && FromDigits(s).value == s[0] - 48
  {
  }

  lemma {:induction false} DigitsPadded(s: Text) returns (k: nat)
    requires FromDigits(s).Some?
    ensures s == ZeroDigits(k) + Digits(FromDigits(s).value)
    decreases |s|
  {
    hide FromDigits, Digits, ZeroDigits;
    NoDigits(s);
    if |s| == 1 {
      OnlyDigit(s);
      DigitsMore(0, s[0] - 48);
      k := 0;
      assert s == [s[0]] && s == ZeroDigits(0) + s;
    } else {
      LastDigit(s);
      var j := DigitsPadded(s[..|s| - 1]);
      k := OneMoreDigit(s, j);
    }
  }

  lemma NoDigits(s: Text)
    ensures FromDigits(s).Some? ==> |s| > 0
  {
  }

  lemma OneMoreDigit(s: Text, j: nat) returns (k: nat)
    requires |s| > 1 && FromDigits(s).Some? && FromDigits(s[..|s| - 1]).Some?
    requires s[..|s| - 1] == ZeroDigits(j) + Digits(FromDigits(s[..|s| - 1]).value)
    ensures s == ZeroDigits(k) + Digits(FromDigits(s).value)
  {
    hide FromDigits, Digits;
    var front, d := s[..|s| - 1], s[|s| - 1];
    LastDigit(s);
    var m := FromDigits(front).value;
    DigitsMore(m, d - 48);
    DigitsMore(0, 0);
    assert s == front + [d];
    if m == 0 {
      k := j + 1;
      assert front == ZeroDigits(k);
    } else {
      k := j;
      Regroup(ZeroDigits(j), Digits(m), [d]);
    }
  }

  /** A sign that fits, any zeros, and the integer in decimal. */
  predicate IsIntegerText(s: Text, i: int, sign: Text, k: nat) {
    s == sign + (ZeroDigits(k) + Digits(if i < 0 then -i else i)) &&
    ((sign == [45] && i <= 0) || ((sign == [] || sign == [43]) && i >= 0))
  }

  /** A string is read as an integer iff it is a sign, or none, and the integer in decimal,
      with any zeros before it. */
  lemma ParseI64Iff(s: Text, i: int)
    ensures ParseI64(s) == Some(i) <==> IsI64(i) && exists k: nat, sign: Text :: IsIntegerText(s, i, sign, k)
  {
    hide FromDigits, Digits, ZeroDigits;
    var n := if i < 0 then -i else i;
    if k: nat, sign: Text :| IsI64(i) && IsIntegerText(s, i, sign, k) {
      PaddedParses(k, n);
      PaddedDigit(k, n);
      assert sign != [] ==> s[0] == sign[0] && s[1..] == ZeroDigits(k) + Digits(n);
      assert sign == [] ==> s == ZeroDigits(k) + Digits(n);
    }
    if ParseI64(s) == Some(i) {
      var signed := s[0] == 43 || s[0] == 45;
      var sign: Text, rest := if signed then [s[0]] else [], if signed then s[1..] else s;
      var k := DigitsPadded(rest);
      assert s == sign + rest;
      assert IsIntegerText(s, i, sign, k);
    }
  }

  lemma PaddedDigit(k: nat, n: nat)
    ensures var s := ZeroDigits(k) + Digits(n); |s| > 0 && 48 <= s[0] <= 57
  {
    hide Digits;
  }

  /** `canonical_int`. */
  function CanonicalInt(s: Text): (r: Option<int>)
    ensures r.Some? ==> IsI64(r.value) && s == ToText(r.value)
  {
    match ParseI64(s) case None => None case Some(i) => if ToText(i) == s then Some(i) else None
  }

  lemma CanonicalIff(s: Text, i: int)
    requires IsI64(i)
    ensures CanonicalInt(s) == Some(i) <==> s == ToText(i)
  {
    TextParses(i);
  }

  // Equality and join keys

  predicate FloatEq(a: F64, b: F64) {
    a != NaN && b != NaN && Normalized(a) == Normalized(b)
  }

  function Normalized(f: F64): F64 { if f == NegZero then Finite(0.0) else f }

  /** The derived `==` of values. */
  predicate ValueEq(a: Value, b: Value) {
    if a.Float? && b.Float? then FloatEq(a.f, b.f) else a == b
  }

  /** SQL `=`. */
  predicate SqlEq(a: Value, b: Value) {
    match (a, b)
    case (Int(i), Str(s)) => CanonicalInt(s) == Some(i)
    case (Str(s), Int(i)) => CanonicalInt(s) == Some(i)
    case _ => ValueEq(a, b)
  }

  datatype JoinKey = KeyStr(s: Text) | KeyInt(i: int) | KeyBool(b: bool) | KeyFloat(f: F64) | KeyNull

  /** `value_join_key`; equal floats have equal bits once zero is normalized. */
  function KeyOf(v: Value): Option<JoinKey> {
    match v
    case Str(s) => (match CanonicalInt(s) case Some(i) => Some(KeyInt(i)) case None => Some(KeyStr(s)))
    case Int(i) => Some(KeyInt(i))
    case Bool(b) => Some(KeyBool(b))
    case Null => Some(KeyNull)
    case Float(f) => if f == NaN then None else Some(KeyFloat(Normalized(f)))
  }

  /** Values are SQL-equal iff both have a join key and the keys are the same. */
  lemma KeysIffEq(a: Value, b: Value)
    ensures SqlEq(a, b) <==> KeyOf(a).Some? && KeyOf(a) == KeyOf(b)
  {
  }

  // Comparison

  function Compare(a: int, b: int): Ordering {
    if a < b then Less else if a > b then Greater else Equal
  }

  function CompareReal(a: real, b: real): Ordering {
    if a < b then Less else if a > b then Greater else Equal
  }

  function CompareBool(a: bool, b: bool): Ordering {
    if a == b then Equal else if b then Less else Greater
  }

  /** Byte-wise, as `str` compares. */
  function CompareText(a: Text, b: Text): Ordering {
    if |a| == 0 then (if |b| == 0 then Equal else Less)
    else if |b| == 0 then Greater
    else if a[0] != b[0] then Compare(a[0], b[0])
    else CompareText(a[1..], b[1..])
  }

  /** `partial_cmp` on floats. */
  function CompareFloat(a: F64, b: F64): Option<Ordering> {
    if a == NaN || b == NaN then None
    else if Normalized(a) == Normalized(b) then Some(Equal)
    else if a == NegInf || b == PosInf then Some(Less)
    else if a == PosInf || b == NegInf then Some(Greater)
    else Some(CompareReal(RealOf(a), RealOf(b)))
  }

  function RealOf(f: F64): real {
    if f.Finite? then f.r else 0.0
  }

  const TWO_POW_63: real := 9223372036854775808.0

  /** `trunc`: toward zero. */
  function Trunc(r: real): int {
    if r >= 0.0 then r.Floor else -((-r).Floor)
  }

  /** `cmp_i64_f64`. */
  function CompareIntFloat(i: int, f: F64): Ordering
  {
    if f == NaN || f == PosInf || (f.Finite? && f.r >= TWO_POW_63) then Less
    else if f == NegInf || (f.Finite? && f.r < -TWO_POW_63) then Greater
    else
      var r := RealOf(f);
      var t := Trunc(r);
      match Compare(i, t)
      case Equal => CompareReal(0.0, r - (t as real))
      case o => o
  }

  datatype SortNum = NumInt(i: int) | NumFloat(f: F64)

  function SortNumber(v: Value): Option<SortNum> {
    match v
    case Int(i) => Some(NumInt(i))
    case Float(f) => Some(NumFloat(f))
    case Str(s) => (match CanonicalInt(s) case Some(i) => Some(NumInt(i)) case None => None)
    case _ => None
  }

  /** `cmp_num`. */
  function CompareNum(a: SortNum, b: SortNum): Ordering {
    match (a, b)
    case (NumInt(i), NumInt(j)) => Compare(i, j)
    case (NumInt(i), NumFloat(f)) => CompareIntFloat(i, f)
    case (NumFloat(f), NumInt(i)) => Reverse(CompareIntFloat(i, f))
    case (NumFloat(f), NumFloat(g)) =>
      if f == NaN then (if g == NaN then Equal else Greater)
      else if g == NaN then Less
      else match CompareFloat(f, g) case Some(o) => o case None => Equal
  }

  function Rank(v: Value): nat {
    match v
    case Null => 0
    case Bool(_) => 1
    case _ => if SortNumber(v).Some? then 2 else 3
  }

  /** `sort_cmp`, the order of ORDER BY. */
  function SortCmp(a: Value, b: Value): Ordering {
    if a.Bool? && b.Bool? then CompareBool(a.b, b.b)
    else if a.Str? && b.Str? && Rank(a) == 3 && Rank(b) == 3 then CompareText(a.s, b.s)
    else if SortNumber(a).Some? && SortNumber(b).Some? then CompareNum(SortNumber(a).value, SortNumber(b).value)
    else Compare(Rank(a), Rank(b))
  }

  /** `cmp_val`, the order of `<`; `ofInt` rounds an integer to a double. */
  function CmpVal(a: Value, b: Value, ofInt: int -> F64): Option<Ordering> {
    match (a, b)
    case (Int(i), Str(s)) => (match CanonicalInt(s) case Some(j) => Some(Compare(i, j)) case None => None)
    case (Str(s), Int(j)) => (match CanonicalInt(s) case Some(i) => Some(Compare(i, j)) case None => None)
    case (Int(i), Int(j)) => Some(Compare(i, j))
    case (Float(f), Float(g)) => CompareFloat(f, g)
    case (Int(i), Float(g)) => CompareFloat(ofInt(i), g)
    case (Float(f), Int(j)) => CompareFloat(f, ofInt(j))
    case (Str(s), Str(t)) => Some(CompareText(s, t))
    case (Null, Null) => Some(Equal)
    case _ => None
  }

  // The sort order is a total preorder

  /** The place of a number: below all reals, a real, above all reals, or not a number. */
  datatype Place = Below | At(r: real) | Above | NotANumber

  function PlaceOf(n: SortNum): Place {
    match n
    case NumInt(i) => At(i as real)
    case NumFloat(f) =>
      match f
      case NaN => NotANumber
      case NegInf => Below
      case PosInf => Above
      case NegZero => At(0.0)
      case Finite(r) => At(r)
  }

  function PlaceRank(p: Place): nat {
    match p case Below => 0 case At(_) => 1 case Above => 2 case NotANumber => 3
  }

  function ComparePlace(a: Place, b: Place): Ordering {
    if a.At? && b.At? then CompareReal(a.r, b.r) else Compare(PlaceRank(a), PlaceRank(b))
  }

  lemma IntFloatExact(i: int, r: real)
    requires IsI64(i)
    ensures CompareIntFloat(i, Finite(r)) == CompareReal(i as real, r)
  {
    var t := Trunc(r);
    assert (t as real) <= r < (t as real) + 1.0 || (t as real) - 1.0 < r <= (t as real);
  }

  /** Numbers compare by exact value: NaN last, the infinities at the ends. */
  lemma CompareNumIs(a: SortNum, b: SortNum)
    requires (a.NumInt? ==> IsI64(a.i)) && (b.NumInt? ==> IsI64(b.i))
    ensures CompareNum(a, b) == ComparePlace(PlaceOf(a), PlaceOf(b))
  {
    if a.NumInt? && b.NumFloat? {
      IntFloatExact(a.i, RealOf(b.f));
    } else if a.NumFloat? && b.NumInt? {
      IntFloatExact(b.i, RealOf(a.f));
    }
  }

  lemma {:induction false} TextOrder(a: Text, b: Text, c: Text)
    ensures CompareText(a, a) == Equal && CompareText(b, a) == Reverse(CompareText(a, b))
    ensures CompareText(a, b) == Equal ==> a == b
    ensures CompareText(a, b) != Greater && CompareText(b, c) != Greater ==> CompareText(a, c) != Greater
    decreases |a| + |b| + |c|
  {
    if |a| > 0 {
      TextOrder(a[1..], if |b| > 0 then b[1..] else b, if |c| > 0 then c[1..] else c);
      assert a == [a[0]] + a[1..];
      assert |b| > 0 ==> b == [b[0]] + b[1..];
    }
  }

  lemma NumberOk(v: Value)
    requires ValueOk(v)
    ensures SortNumber(v).Some? && SortNumber(v).value.NumInt? ==> IsI64(SortNumber(v).value.i)
  {
  }

  /** `sort_cmp` compares every value with itself as equal, and opposite ways round oppositely. */
  lemma SortSymmetric(a: Value, b: Value)
    requires ValueOk(a) && ValueOk(b)
    ensures SortCmp(a, a) == Equal && SortCmp(b, a) == Reverse(SortCmp(a, b))
  {
    hide CompareNum, CompareText, CanonicalInt;
    NumberOk(a);
    NumberOk(b);
    if SortNumber(a).Some? {
      CompareNumIs(SortNumber(a).value, SortNumber(a).value);
      if SortNumber(b).Some? {
        CompareNumIs(SortNumber(a).value, SortNumber(b).value);
        CompareNumIs(SortNumber(b).value, SortNumber(a).value);
      }
    }
    if a.Str? && b.Str? {
      TextOrder(a.s, b.s, a.s);
    } else if a.Str? {
      TextOrder(a.s, a.s, a.s);
    }
  }

  /** And is transitive. */
  lemma SortTransitive(a: Value, b: Value, c: Value)
    requires ValueOk(a) && ValueOk(b) && ValueOk(c)
    requires SortCmp(a, b) != Greater && SortCmp(b, c) != Greater
    ensures SortCmp(a, c) != Greater
  {
    hide CompareNum, CompareText, CanonicalInt;
    NumberOk(a);
    NumberOk(b);
    NumberOk(c);
    if SortNumber(a).Some? && SortNumber(b).Some? && SortNumber(c).Some? {
      CompareNumIs(SortNumber(a).value, SortNumber(b).value);
      CompareNumIs(SortNumber(b).value, SortNumber(c).value);
      CompareNumIs(SortNumber(a).value, SortNumber(c).value);
    } else if a.Str? && b.Str? && c.Str? {
      TextOrder(a.s, b.s, c.s);
    }
  }

  // What the orders mean

  /** By the first byte that differs; a proper prefix comes first. */
  ghost predicate TextBelow(a: Text, b: Text) {
    (exists k: nat :: k < |a| && k < |b| && a[..k] == b[..k] && a[k] < b[k]) || (|a| < |b| && a == b[..|a|])
  }

  lemma {:induction false} CompareTextIs(a: Text, b: Text)
    ensures CompareText(a, b) == Less <==> TextBelow(a, b)
    ensures CompareText(a, b) == Equal <==> a == b
    ensures CompareText(a, b) == Greater <==> TextBelow(b, a)
  {
    TextOrder(a, b, a);
    TextLess(a, b);
    TextLess(b, a);
  }

  lemma {:induction false} TextLess(a: Text, b: Text)
    ensures CompareText(a, b) == Less <==> TextBelow(a, b)
  {
    if |a| > 0 && |b| > 0 {
      if a[0] == b[0] {
        TextLess(a[1..], b[1..]);
        TextBelowTail(a, b);
      } else if a[0] < b[0] {
        assert a[..0] == b[..0];
      } else {
        NotTextBelow(a, b);
      }
    }
  }

  lemma TextBelowTail(a: Text, b: Text)
    requires |a| > 0 && |b| > 0 && a[0] == b[0]
    ensures TextBelow(a, b) <==> TextBelow(a[1..], b[1..])
  {
    var (s, t) := (a[1..], b[1..]);
    if k: nat :| k < |a| && k < |b| && a[..k] == b[..k] && a[k] < b[k] {
      assert a[..k][1..] == s[..k - 1] && b[..k][1..] == t[..k - 1];
      assert s[k - 1] < t[k - 1];
    }
    if k: nat :| k < |s| && k < |t| && s[..k] == t[..k] && s[k] < t[k] {
      assert a[..k + 1] == [a[0]] + s[..k] && b[..k + 1] == [b[0]] + t[..k];
      assert a[k + 1] < b[k + 1];
    }
    if |a| < |b| {
      assert a == [a[0]] + s && b[..|a|] == [b[0]] + t[..|s|];
      assert a == b[..|a|] ==> s == b[..|a|][1..] == t[..|s|];
    }
  }

  lemma NotTextBelow(a: Text, b: Text)
    requires |a| > 0 && |b| > 0 && a[0] > b[0]
    ensures !TextBelow(a, b)
  {
    if |a| < |b| {
      assert b[..|a|][0] == b[0];
    }
    forall k: nat | 0 < k < |a| && k < |b| ensures a[..k] != b[..k] {
      assert a[..k][0] == a[0] && b[..k][0] == b[0];
    }
  }

  /** The number a value sorts as. */
  ghost predicate SortsAs(v: Value, p: Place) {
    match v
    case Int(i) => p == At(i as real)
    case Str(s) => exists i :: IsI64(i) && s == ToText(i) && p == At(i as real)
    case Float(NaN) => p == NotANumber
    case Float(NegInf) => p == Below
    case Float(PosInf) => p == Above
    case Float(NegZero) => p == At(0.0)
    case Float(Finite(r)) => p == At(r)
    case _ => false
  }

  ghost predicate SortsAsNumber(v: Value) { exists p :: SortsAs(v, p) }

  predicate PlaceBelow(p: Place, q: Place) {
    (p.At? && q.At? && p.r < q.r) || (p.Below? && !q.Below?) || (p.At? && (q.Above? || q.NotANumber?)) || (p.Above? && q.NotANumber?)
  }

  /** NULL, then false, then true, then numbers by value, then other strings by their bytes. */
  ghost predicate SortsBefore(a: Value, b: Value) {
    if a.Null? then !b.Null?
    else if a.Bool? then (b.Bool? && !a.b && b.b) || b.Int? || b.Float? || b.Str?
    else if SortsAsNumber(a) then
      (b.Str? && !SortsAsNumber(b)) || exists p, q :: SortsAs(a, p) && SortsAs(b, q) && PlaceBelow(p, q)
    else a.Str? && b.Str? && !SortsAsNumber(b) && TextBelow(a.s, b.s)
  }

  lemma NumberIs(v: Value)
    requires ValueOk(v)
    ensures SortNumber(v).Some? <==> SortsAsNumber(v)
    ensures forall p :: SortsAs(v, p) <==> SortNumber(v).Some? && p == PlaceOf(SortNumber(v).value)
  {
    if v.Str? {
      forall i | IsI64(i) ensures CanonicalInt(v.s) == Some(i) <==> v.s == ToText(i) {
        CanonicalIff(v.s, i);
      }
    }
    if SortNumber(v).Some? {
      assert SortsAs(v, PlaceOf(SortNumber(v).value));
    }
  }

  /** ORDER BY puts one value before another exactly if it sorts before it. */
  lemma SortCmpIs(a: Value, b: Value)
    requires ValueOk(a) && ValueOk(b)
    ensures SortCmp(a, b) == Less <==> SortsBefore(a, b)
    ensures SortCmp(a, b) == Greater <==> SortsBefore(b, a)
  {
    hide SortCmp, SortsBefore;
    SortSymmetric(a, b);
    SortLess(a, b);
    SortLess(b, a);
  }

  lemma SortLess(a: Value, b: Value)
    requires ValueOk(a) && ValueOk(b)
    ensures SortCmp(a, b) == Less <==> SortsBefore(a, b)
  {
    hide CompareNum, CompareText, TextBelow, CanonicalInt, SortsAs;
    NumberIs(a);
    NumberIs(b);
    NumberOk(a);
    NumberOk(b);
    if SortNumber(a).Some? && SortNumber(b).Some? {
      CompareNumIs(SortNumber(a).value, SortNumber(b).value);
      var (p, q) := (PlaceOf(SortNumber(a).value), PlaceOf(SortNumber(b).value));
      assert SortsAs(a, p) && SortsAs(b, q);
    } else if a.Str? && b.Str? {
      CompareTextIs(a.s, b.s);
    }
  }

  /** Integers and floats compare by exact value, however large. */
  lemma SortIsExact(i: int, r: real)
    requires IsI64(i)
    ensures SortCmp(Int(i), Float(Finite(r))) == CompareReal(i as real, r)
    ensures SortCmp(Int(i), Float(NaN)) == Less && SortCmp(Float(PosInf), Float(NaN)) == Less
  {
    IntFloatExact(i, r);
  }

  // Rows

  datatype Row = Row(columns: seq<Text>, values: seq<Value>)

  /** What follows the last dot. */
  function ShortName(name: Text): (s: Text)
    ensures |s| <= |name| && s == name[|name| - |s|..] && 46 !in s
  {
    if |name| == 0 then name
    else if name[|name| - 1] == 46 then []
    else
      var s := ShortName(name[..|name| - 1]);
      assert s + [name[|name| - 1]] == name[|name| - |s| - 1..];
      s + [name[|name| - 1]]
  }

  lemma ShortOneMore(a: Text, x: Byte)
    requires x != 46
    ensures ShortName(a + [x]) == ShortName(a) + [x]
  {
    assert (a + [x])[..|a|] == a;
  }

  lemma {:induction false} ShortOfPlain(c: Text)
    requires 46 !in c
    ensures ShortName(c) == c
  {
    if |c| > 0 {
      var n := |c| - 1;
      assert c == c[..n] + [c[n]] && c[n] in c;
      ShortOfPlain(c[..n]);
    }
  }

  lemma SameAppend(a: Text, b: Text, x: Byte, y: Byte)
    requires EqIgnoreCase(a, b) && LowerByte(x) == LowerByte(y)
    ensures EqIgnoreCase(a + [x], b + [y])
  {
  }

  lemma {:induction false} SameShort(a: Text, b: Text)
    requires EqIgnoreCase(a, b)
    ensures EqIgnoreCase(ShortName(a), ShortName(b))
  {
    if |a| > 0 {
      var n := |a| - 1;
      assert LowerByte(a[n]) == LowerByte(b[n]);
      assert EqIgnoreCase(a[..n], b[..n]);
      SameShort(a[..n], b[..n]);
      hide EqIgnoreCase, LowerByte;
      if a[n] != 46 {
        SameAppend(ShortName(a[..n]), ShortName(b[..n]), a[n], b[n]);
      }
      assert (a[n] == 46) == (b[n] == 46) by { DotStays(a[n], b[n]); }
      if a[n] == 46 {
        assert EqIgnoreCase([], []) by { NoneSame(); }
      }
    }
  }

  lemma DotStays(x: Byte, y: Byte)
    requires LowerByte(x) == LowerByte(y)
    ensures x == 46 <==> y == 46
  {
  }

  lemma NoneSame()
    ensures EqIgnoreCase([], [])
  {
  }

  lemma Trans(a: Text, b: Text, c: Text)
    ensures EqIgnoreCase(a, b) && EqIgnoreCase(b, c) ==> EqIgnoreCase(a, c)
    ensures EqIgnoreCase(a, a) && (EqIgnoreCase(a, c) <==> EqIgnoreCase(c, a))
  {
  }

  /** `position` of a column by its full name. */
  function FullPosition(columns: seq<Text>, name: Text): (r: Option<nat>)
    ensures r.Some? ==> r.value < |columns| && EqIgnoreCase(columns[r.value], name)
    ensures r.Some? ==> forall i | 0 <= i < r.value :: !EqIgnoreCase(columns[i], name)
    ensures r.None? ==> forall i | 0 <= i < |columns| :: !EqIgnoreCase(columns[i], name)
  {
    if |columns| == 0 then None
    else if EqIgnoreCase(columns[0], name) then Some(0)
    else match FullPosition(columns[1..], name) case None => None case Some(i) => Some(i + 1)
  }

  /** `position` of a column by its full name or by the short names. */
  function ShortPosition(columns: seq<Text>, name: Text): (r: Option<nat>)
    ensures r.Some? ==> r.value < |columns| && Meant(columns[r.value], name)
    ensures r.Some? ==> forall i | 0 <= i < r.value :: !Meant(columns[i], name)
    ensures r.None? ==> forall i | 0 <= i < |columns| :: !Meant(columns[i], name)
  {
    hide ShortName, EqIgnoreCase, Meant;
    if |columns| == 0 then None
    else if Meant(columns[0], name) then Some(0)
    else match ShortPosition(columns[1..], name) case None => None case Some(i) => Some(i + 1)
  }

  predicate Meant(column: Text, name: Text) {
    EqIgnoreCase(column, name) || EqIgnoreCase(ShortName(column), ShortName(name))
  }

  function ValueAt(values: seq<Value>, p: Option<nat>): Option<Value> {
    if p.Some? && p.value < |values| then Some(values[p.value]) else None
  }

  /** `Row::get`. */
  function Get(row: Row, name: Text): Option<Value> {
    if FullPosition(row.columns, name).Some? then ValueAt(row.values, FullPosition(row.columns, name))
    else ValueAt(row.values, ShortPosition(row.columns, name))
  }
}
