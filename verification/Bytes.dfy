/** Byte strings, little-endian integers and UTF-8 well-formedness: the
    vocabulary every on-disk encoding of the store is written in. */
module Bytes {

  type Byte = b: int | 0 <= b < 256

  /** `Err` stands for any `MqdbError`; the model does not tell error texts apart. */
  datatype Result<+T> = Ok(value: T) | Err

  datatype Option<+T> = None | Some(value: T)

  /** 256 to the power `k`: the number of values `k` bytes can hold. */
  function Pow256(k: nat): (p: nat)
    ensures p > 0
  {
    if k == 0 then 1 else 256 * Pow256(k - 1)
  }

  /** `to_le_bytes` of an unsigned integer held in `k` bytes. */
  function LE(n: nat, k: nat): (s: seq<Byte>)
    ensures |s| == k
  {
    if k == 0 then [] else [n % 256] + LE(n / 256, k - 1)
  }

  /** `from_le_bytes`. */
  function FromLE(s: seq<Byte>): (n: nat)
    ensures n < Pow256(|s|)
  {
    if |s| == 0 then 0 else s[0] + 256 * FromLE(s[1..])
  }

  lemma {:induction false} LERoundTrip(n: nat, k: nat)
    requires n < Pow256(k)
    ensures FromLE(LE(n, k)) == n
  {
    if k > 0 {
      LERoundTrip(n / 256, k - 1);
      assert LE(n, k)[1..] == LE(n / 256, k - 1);
    }
  }

  /** A byte further on counts 256 times as much. */
  lemma {:induction false} LeastFirst(s: seq<Byte>, b: Byte)
    ensures FromLE([]) == 0 && FromLE(s + [b]) == FromLE(s) + b * Pow256(|s|)
  {
    if |s| == 0 {
      assert (s + [b])[1..] == [] && s == [];
    } else {
      LeastFirst(s[1..], b);
      assert (s + [b])[1..] == s[1..] + [b];
      Scaled(b, Pow256(|s| - 1));
    }
  }

  lemma Scaled(b: nat, p: nat)
    ensures 256 * (b * p) == b * (256 * p)
  {
  }

  lemma {:induction false} FromLEInjective(s: seq<Byte>, t: seq<Byte>)
    requires |s| == |t| && FromLE(s) == FromLE(t)
    ensures s == t
  {
    if |s| > 0 {
      FromLEInjective(s[1..], t[1..]);
      assert s == [s[0]] + s[1..] && t == [t[0]] + t[1..];
    }
  }

  predicate IsI64(i: int) { -0x8000_0000_0000_0000 <= i < 0x8000_0000_0000_0000 }

  /** Division toward zero. */
  function Quotient(a: int, b: int): int
    requires b != 0
  {
    if a >= 0 then a / b else -((-a) / b)
  }

  function UpTo(n: nat): (s: set<int>)
    ensures |s| == n && forall i :: i in s <==> 0 <= i < n
  {
    if n == 0 then {} else UpTo(n - 1) + {n - 1}
  }

  function LowerByte(b: Byte): Byte { if 65 <= b <= 90 then b + 32 else b }

  /** `eq_ignore_ascii_case`. */
  predicate EqIgnoreCase(a: seq<Byte>, b: seq<Byte>) {
    |a| == |b| && forall i | 0 <= i < |a| :: LowerByte(a[i]) == LowerByte(b[i])
  }

  /** `A` to `Z`, and the same letter in lower case. */
  predicate UpperAndLower(a: Byte, b: Byte) { 'A' as int <= a <= 'Z' as int && b == a + 'a' as int - 'A' as int }

  /** Texts are equal ignoring case if they differ in the case of ASCII letters only. */
  lemma EqIgnoreCaseMeans(a: seq<Byte>, b: seq<Byte>)
    ensures EqIgnoreCase(a, b) <==>
      |a| == |b| && forall i | 0 <= i < |a| :: a[i] == b[i] || UpperAndLower(a[i], b[i]) || UpperAndLower(b[i], a[i])
  {
    forall x: Byte, y: Byte ensures LowerByte(x) == LowerByte(y) <==> x == y || UpperAndLower(x, y) || UpperAndLower(y, x) {
    }
  }

  /** Two's complement of a signed 64-bit integer, as an unsigned one. */
  function Unsigned64(i: int): (n: nat)
    requires -0x8000_0000_0000_0000 <= i < 0x8000_0000_0000_0000
    ensures n < 0x1_0000_0000_0000_0000
  {
    if i < 0 then i + 0x1_0000_0000_0000_0000 else i
  }

  function Signed64(n: nat): (i: int)
    requires n < 0x1_0000_0000_0000_0000
    ensures -0x8000_0000_0000_0000 <= i < 0x8000_0000_0000_0000
    ensures Unsigned64(i) == n
  {
    if n < 0x8000_0000_0000_0000 then n else n - 0x1_0000_0000_0000_0000
  }

  lemma Widths()
    ensures Pow256(1) == 0x100 && Pow256(2) == 0x1_0000 && Pow256(4) == 0x1_0000_0000
    ensures Pow256(8) == 0x1_0000_0000_0000_0000
  {
    assert Pow256(1) == 256 * Pow256(0);
    assert Pow256(2) == 256 * Pow256(1);
    assert Pow256(3) == 256 * Pow256(2);
    assert Pow256(4) == 256 * Pow256(3);
    assert Pow256(5) == 256 * Pow256(4);
    assert Pow256(6) == 256 * Pow256(5);
    assert Pow256(7) == 256 * Pow256(6);
    assert Pow256(8) == 256 * Pow256(7);
  }

  /** `n` zero bytes. */
  function Zeros(n: nat): (s: seq<Byte>)
    ensures |s| == n && forall i :: 0 <= i < n ==> s[i] == 0
  {
    seq(n, _ => 0)
  }

  function Code(c: char): (b: Byte)
    requires c as int < 0x80
  {
    c as int
  }

  /** ASCII text as bytes. */
  function Spelled(s: string): (r: seq<Byte>)
    requires forall c | c in s :: c as int < 0x80
    ensures |r| == |s|
  {
    seq(|s|, i requires 0 <= i < |s| => assert s[i] in s; Code(s[i]))
  }

  predicate Continuation(b: Byte) { 0x80 <= b <= 0xBF }

  /** The check `String::from_utf8` makes (well-formed UTF-8, section 4 of RFC 3629). */
  predicate ValidUtf8(s: seq<Byte>)
  {
    if |s| == 0 then true
    else if s[0] <= 0x7F then ValidUtf8(s[1..])
    else if 0xC2 <= s[0] <= 0xDF then
      |s| >= 2 && Continuation(s[1]) && ValidUtf8(s[2..])
    else if 0xE0 <= s[0] <= 0xEF then
      |s| >= 3 && Continuation(s[1]) && Continuation(s[2]) &&
      (s[0] == 0xE0 ==> s[1] >= 0xA0) && (s[0] == 0xED ==> s[1] <= 0x9F) && ValidUtf8(s[3..])
    else if 0xF0 <= s[0] <= 0xF4 then
      |s| >= 4 && Continuation(s[1]) && Continuation(s[2]) && Continuation(s[3]) &&
      (s[0] == 0xF0 ==> s[1] >= 0x90) && (s[0] == 0xF4 ==> s[1] <= 0x8F) && ValidUtf8(s[4..])
    else false
  }

  predicate Scalar(c: nat) { c < 0x11_0000 && !(0xD800 <= c < 0xE000) }

  /** A Unicode scalar value in UTF-8 (section 3 of RFC 3629). */
  function Utf8Char(c: nat): (s: seq<Byte>)
    requires Scalar(c)
    ensures |s| > 0
  {
    if c < 0x80 then [c]
    else if c < 0x800 then [0xC0 + c / 0x40, 0x80 + c % 0x40]
    else if c < 0x1_0000 then [0xE0 + c / 0x40 / 0x40, 0x80 + c / 0x40 % 0x40, 0x80 + c % 0x40]
    else [0xF0 + c / 0x40 / 0x40 / 0x40, 0x80 + c / 0x40 / 0x40 % 0x40, 0x80 + c / 0x40 % 0x40, 0x80 + c % 0x40]
  }

  predicate AllScalar(cs: seq<nat>) { forall c | c in cs :: Scalar(c) }

  function Utf8(cs: seq<nat>): seq<Byte>
    requires AllScalar(cs)
  {
    if |cs| == 0 then [] else Utf8Char(cs[0]) + Utf8(cs[1..])
  }

  /** The check accepts a character, whatever follows, exactly if it accepts that. */
  lemma OneMoreChar(c: nat, t: seq<Byte>)
    requires Scalar(c)
    ensures ValidUtf8(Utf8Char(c) + t) <==> ValidUtf8(t)
  {
    var (e, s) := (Utf8Char(c), Utf8Char(c) + t);
    assert s[|e|..] == t && forall i | 0 <= i < |e| :: s[i] == e[i];
    LeadByte(c);
  }

  /** The first byte tells how many follow, and no shorter form is possible. */
  lemma LeadByte(c: nat)
    requires Scalar(c)
    ensures var e := Utf8Char(c);
      (|e| == 1 ==> e[0] <= 0x7F) && (|e| == 2 ==> 0xC2 <= e[0] <= 0xDF) &&
      (|e| == 3 ==> 0xE0 <= e[0] <= 0xEF && (e[0] == 0xE0 ==> e[1] >= 0xA0) && (e[0] == 0xED ==> e[1] <= 0x9F)) &&
      (|e| == 4 ==> 0xF0 <= e[0] <= 0xF4 && (e[0] == 0xF0 ==> e[1] >= 0x90) && (e[0] == 0xF4 ==> e[1] <= 0x8F)) &&
      1 <= |e| <= 4 && forall i | 1 <= i < |e| :: Continuation(e[i])
  {
  }

  lemma LastSix(x: nat, y: nat)
    requires y < 0x40
    ensures (x * 0x40 + y) / 0x40 == x && (x * 0x40 + y) % 0x40 == y
  {
  }

  /** What the check accepts begins with a character. */
  lemma FirstChar(s: seq<Byte>) returns (c: nat)
    requires ValidUtf8(s) && s != []
    ensures Scalar(c) && Utf8Char(c) <= s
  {
    if s[0] <= 0x7F {
      c := s[0];
      assert Utf8Char(c) == s[..1];
    } else if s[0] <= 0xDF {
      c := TwoBytes(s[0], s[1]);
      assert Utf8Char(c) == s[..2];
    } else if s[0] <= 0xEF {
      c := ThreeBytes(s[0], s[1], s[2]);
      assert Utf8Char(c) == s[..3];
    } else {
      c := FourBytes(s[0], s[1], s[2], s[3]);
      assert Utf8Char(c) == s[..4];
    }
  }

  lemma TwoBytes(a: Byte, b: Byte) returns (c: nat)
    requires 0xC2 <= a <= 0xDF && Continuation(b)
    ensures Scalar(c) && Utf8Char(c) == [a, b]
  {
    var (x: int, y: int) := (a, b);
    c := (x - 0xC0) * 0x40 + (y - 0x80);
    LastSix(x - 0xC0, y - 0x80);
  }

  lemma ThreeBytes(a: Byte, b: Byte, d: Byte) returns (c: nat)
    requires 0xE0 <= a <= 0xEF && Continuation(b) && Continuation(d) && (a == 0xE0 ==> b >= 0xA0) && (a == 0xED ==> b <= 0x9F)
    ensures Scalar(c) && Utf8Char(c) == [a, b, d]
  {
    var (x: int, y: int, z: int) := (a, b, d);
    var high := (x - 0xE0) * 0x40 + (y - 0x80);
    LastSix(x - 0xE0, y - 0x80);
    LastSix(high, z - 0x80);
    c := high * 0x40 + (z - 0x80);
  }

  lemma FourBytes(a: Byte, b: Byte, d: Byte, e: Byte) returns (c: nat)
    requires 0xF0 <= a <= 0xF4 && Continuation(b) && Continuation(d) && Continuation(e)
    requires (a == 0xF0 ==> b >= 0x90) && (a == 0xF4 ==> b <= 0x8F)
    ensures Scalar(c) && Utf8Char(c) == [a, b, d, e]
  {
    var (x: int, y: int, z: int, w: int) := (a, b, d, e);
    var high := (x - 0xF0) * 0x40 + (y - 0x80);
    var mid := high * 0x40 + (z - 0x80);
    LastSix(x - 0xF0, y - 0x80);
    LastSix(high, z - 0x80);
    LastSix(mid, w - 0x80);
    c := mid * 0x40 + (w - 0x80);
  }

  /** The strings the check accepts are those that spell scalar values. */
  lemma {:induction false} ValidUtf8Iff(s: seq<Byte>)
    ensures ValidUtf8(s) <==> exists cs :: AllScalar(cs) && Utf8(cs) == s
    decreases |s|
  {
    if s == [] {
      assert Utf8([]) == s;
    } else if ValidUtf8(s) {
      var c := FirstChar(s);
      var t := s[|Utf8Char(c)|..];
      assert s == Utf8Char(c) + t;
      OneMoreChar(c, t);
      ValidUtf8Iff(t);
      var cs :| AllScalar(cs) && Utf8(cs) == t;
      assert ([c] + cs)[1..] == cs;
      assert Utf8([c] + cs) == s;
    } else if cs :| AllScalar(cs) && Utf8(cs) == s {
      SpelledIsValid(cs);
    }
  }

  lemma {:induction false} SpelledIsValid(cs: seq<nat>)
    requires AllScalar(cs)
    ensures ValidUtf8(Utf8(cs))
  {
    if |cs| > 0 {
      SpelledIsValid(cs[1..]);
      OneMoreChar(cs[0], Utf8(cs[1..]));
    }
  }

  lemma Regroup<T>(a: seq<T>, b: seq<T>, c: seq<T>)
    ensures (a + b) + c == a + (b + c)
  {
  }

  /** The keys of a hash map, each once, in whatever order it iterates. */
  method ListKeys<K(==), V>(m: map<K, V>) returns (keys: seq<K>)
    ensures |keys| == |m| && (forall k | k in keys :: k in m) && (forall k | k in m :: k in keys)
  {
    keys := [];
    var left := m.Keys;
    while left != {}
      invariant left <= m.Keys && |keys| + |left| == |m|
      invariant forall k :: k in m.Keys <==> k in keys || k in left
      decreases left
    {
      var k :| k in left;
      keys := keys + [k];
      left := left - {k};
    }
  }
}
