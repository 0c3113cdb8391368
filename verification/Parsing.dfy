/** Reading encodings back: parsers as functions from the unread bytes, and the
    cursor-carrying `Decoder` the two decoding files of the store share. */
module Parsing {
  import opened Bytes

  /** What a parser makes of the unread bytes: a value and what is left. */
  type Parsed<+T> = Result<(T, seq<Byte>)>

  function TakeBytes(n: nat, s: seq<Byte>): Parsed<seq<Byte>> {
    if n <= |s| then Ok((s[..n], s[n..])) else Err
  }

  function TakeInt(k: nat, s: seq<Byte>): (r: Parsed<nat>)
    ensures r.Ok? ==> r.value.0 < Pow256(k) && |r.value.1| + k == |s|
  {
    if k <= |s| then Ok((FromLE(s[..k]), s[k..])) else Err
  }

  /** A UTF-8 string behind a length of `k` bytes. */
  function TakeText(k: nat, s: seq<Byte>): Parsed<seq<Byte>> {
    match TakeInt(k, s)
    case Err => Err
    case Ok((n, rest)) =>
      match TakeBytes(n, rest)
      case Err => Err
      case Ok((t, tail)) => if ValidUtf8(t) then Ok((t, tail)) else Err
  }

  function EncText(k: nat, t: seq<Byte>): seq<Byte> {
    LE(|t|, k) + t
  }

  /** `n` values one after the other. */
  function Many<T>(n: nat, p: seq<Byte> -> Parsed<T>, s: seq<Byte>): (r: Parsed<seq<T>>)
    ensures r.Ok? ==> |r.value.0| == n
  {
    if n == 0 then Ok(([], s))
    else
      match p(s)
      case Err => Err
      case Ok((x, rest)) =>
        match Many(n - 1, p, rest)
        case Err => Err
        case Ok((xs, tail)) => Ok(([x] + xs, tail))
  }

  function EncMany<T>(enc: T -> seq<Byte>, xs: seq<T>): seq<Byte> {
    if |xs| == 0 then [] else enc(xs[0]) + EncMany(enc, xs[1..])
  }

  lemma TakeBytesOf(t: seq<Byte>, tail: seq<Byte>)
    ensures TakeBytes(|t|, t + tail) == Ok((t, tail))
  {
    assert (t + tail)[..|t|] == t && (t + tail)[|t|..] == tail;
  }

  lemma {:induction false} TakeIntOf(n: nat, k: nat, tail: seq<Byte>)
    requires n < Pow256(k)
    ensures TakeInt(k, LE(n, k) + tail) == Ok((n, tail))
  {
    hide LE, FromLE, Pow256;
    LERoundTrip(n, k);
    TakeBytesOf(LE(n, k), tail);
    assert (LE(n, k) + tail)[..k] == LE(n, k);
  }

  lemma {:induction false} TakeTextOf(k: nat, t: seq<Byte>, tail: seq<Byte>)
    requires |t| < Pow256(k) && ValidUtf8(t)
    ensures TakeText(k, EncText(k, t) + tail) == Ok((t, tail))
  {
    hide ValidUtf8, LE, FromLE, Pow256, TakeInt;
    assert EncText(k, t) + tail == LE(|t|, k) + (t + tail);
    TakeIntOf(|t|, k, t + tail);
    TakeBytesOf(t, tail);
  }

  /** A list parser reads back a list encoding if its element parser reads back elements. */
  lemma {:induction false} ManyOf<T>(enc: T -> seq<Byte>, p: seq<Byte> -> Parsed<T>, xs: seq<T>, tail: seq<Byte>)
    requires forall x, rest: seq<Byte> | x in xs :: p(enc(x) + rest) == Ok((x, rest))
    ensures Many(|xs|, p, EncMany(enc, xs) + tail) == Ok((xs, tail))
  {
    if |xs| > 0 {
      assert EncMany(enc, xs) + tail == enc(xs[0]) + (EncMany(enc, xs[1..]) + tail);
      ManyOf(enc, p, xs[1..], tail);
      assert [xs[0]] + xs[1..] == xs;
    } else {
      assert EncMany(enc, xs) + tail == tail;
    }
  }

  lemma {:induction false} EncManyAppend<T>(enc: T -> seq<Byte>, xs: seq<T>, x: T)
    ensures EncMany(enc, xs + [x]) == EncMany(enc, xs) + enc(x)
  {
    if |xs| > 0 {
      EncManyAppend(enc, xs[1..], x);
      assert (xs + [x])[1..] == xs[1..] + [x];
    } else {
      assert (xs + [x])[1..] == [] && enc(x) + [] == enc(x) == [] + enc(x);
    }
  }

  /** `xs` followed by whatever the parser still delivers: the invariant of a decoding loop. */
  function After<T>(xs: seq<T>, r: Parsed<seq<T>>): Parsed<seq<T>> {
    match r
    case Err => Err
    case Ok((ys, tail)) => Ok((xs + ys, tail))
  }

  /** `r` is what `parsed` says, and the cursor stands where `parsed` says. */
  ghost predicate Agrees<T>(parsed: Parsed<T>, r: Result<T>, rest: seq<Byte>) {
    match parsed
    case Err => r.Err?
    case Ok((v, tail)) => r == Ok(v) && rest == tail
  }

  /** Invariant of a decoding loop: `xs` and the `n` elements still to come are `want`. */
  ghost predicate Loop<T>(xs: seq<T>, n: nat, p: seq<Byte> -> Parsed<T>, s: seq<Byte>, want: Parsed<seq<T>>) {
    After(xs, Many(n, p, s)) == want
  }

  lemma {:induction false} LoopStart<T>(n: nat, p: seq<Byte> -> Parsed<T>, s: seq<Byte>)
    ensures Loop([], n, p, s, Many(n, p, s))
  {
    match Many(n, p, s)
    case Err =>
    case Ok((ys, _)) => assert [] + ys == ys;
  }

  lemma LoopStep<T>(
    xs: seq<T>, n: nat, p: seq<Byte> -> Parsed<T>, s: seq<Byte>, want: Parsed<seq<T>>,
    r: Result<T>, rest: seq<Byte>)
    requires n > 0 && Loop(xs, n, p, s, want) && Agrees(p(s), r, rest)
    ensures r.Err? ==> want.Err?
    ensures r.Ok? ==> Loop(xs + [r.value], n - 1, p, rest, want)
  {
    match p(s)
    case Err =>
    case Ok((x, tail)) =>
      match Many(n - 1, p, tail)
      case Err =>
      case Ok((ys, _)) => assert xs + ([x] + ys) == (xs + [x]) + ys;
  }

  lemma LoopEnd<T>(xs: seq<T>, p: seq<Byte> -> Parsed<T>, s: seq<Byte>, want: Parsed<seq<T>>)
    requires Loop(xs, 0, p, s, want)
    ensures want == Ok((xs, s))
  {
    assert xs + [] == xs;
  }

  class Decoder {
    const data: seq<Byte>
    var pos: nat

    ghost predicate Valid()
      reads this
    {
      pos <= |data|
    }

    function Rest(): seq<Byte>
      requires Valid()
      reads this
    {
      data[pos..]
    }

    constructor (data: seq<Byte>)
      ensures Valid() && this.data == data && Rest() == data
    {
      this.data := data;
      pos := 0;
    }

    method ReadExact(len: nat) returns (r: Result<seq<Byte>>)
      requires Valid()
      modifies this
      ensures Valid() && Agrees(TakeBytes(len, old(Rest())), r, Rest())
    {
      var end := pos + len;
      if end > |data| {
        return Err;
      }
      r := Ok(data[pos..end]);
      assert data[pos..][..len] == data[pos..end] && data[pos..][len..] == data[end..];
      pos := end;
    }

    /** `read_u8`, `read_u16`, `read_u32` and `read_u64`, by width. */
    method ReadInt(k: nat) returns (r: Result<nat>)
      requires Valid()
      modifies this
      ensures Valid() && Agrees(TakeInt(k, old(Rest())), r, Rest())
    {
      var bytes := ReadExact(k);
      r := if bytes.Err? then Err else Ok(FromLE(bytes.value));
    }

    /** `read_string_u16` and `read_string_u32`, by width of the length. */
    method ReadText(k: nat) returns (r: Result<seq<Byte>>)
      requires Valid()
      modifies this
      ensures Valid() && Agrees(TakeText(k, old(Rest())), r, Rest())
    {
      var n := ReadInt(k);
      if n.Err? {
        return Err;
      }
      r := ReadExact(n.value);
      if r.Ok? && !ValidUtf8(r.value) {
        r := Err;
      }
    }

    function Remaining(): nat
      requires Valid()
      reads this
    {
      |data| - pos
    }
  }
}
