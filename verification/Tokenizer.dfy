/** N-gram tokenizing of lower-cased text: which tokens a text has, and why a CJK
    query that occurs in a text matches it. */
module Tokenizer {
  import opened CatalogCodec

  /** Unicode code points. */
  type Chars = seq<nat>

  datatype Class = Other | Cjk | Skip

  predicate IsCjk(c: nat) {
    0x1100 <= c <= 0x11FF || 0x3040 <= c <= 0x30FF || 0x3130 <= c <= 0x318F || 0x31F0 <= c <= 0x31FF ||
    0xA960 <= c <= 0xA97F || 0xAC00 <= c <= 0xD7A3 || 0xD7B0 <= c <= 0xD7FF || 0xFF66 <= c <= 0xFF9D ||
    0x3400 <= c <= 0x4DBF || 0x4E00 <= c <= 0x9FFF || 0xF900 <= c <= 0xFAFF || 0x20000 <= c <= 0x2A6DF ||
    0x2A700 <= c <= 0x2EBEF || 0x2F800 <= c <= 0x2FA1F || 0x30000 <= c <= 0x3134F || 0x31350 <= c <= 0x323AF
  }

  /** `ngram_size`; whole-word tokenizing makes no n-grams. */
  function NgramSize(kind: TokenizerKind): nat {
    match kind case Word => 0 case Bigram => 2 case Trigram => 3
  }

  /** The class of a character; `alnum` is Unicode's alphanumeric property. To the
      word tokenizer, which splits at non-alphanumerics only, CJK is like the rest. */
  function ClassOf(kind: TokenizerKind, alnum: nat -> bool): nat -> Class {
    (c: nat) => if !alnum(c) then Skip else if kind != Word && IsCjk(c) then Cjk else Other
  }

  /** All characters of `text[i..j]` are of class `c`. */
  predicate AllOf(text: Chars, cls: nat -> Class, i: nat, j: nat, c: Class)
    requires i <= j <= |text|
  {
    forall k | i <= k < j :: cls(text[k]) == c
  }

  function RunEnd(text: Chars, cls: nat -> Class, i: nat, c: Class): (j: nat)
    requires i <= |text|
    ensures i <= j <= |text| && AllOf(text, cls, i, j, c) && (j < |text| ==> cls(text[j]) != c)
    decreases |text| - i
  {
    if i < |text| && cls(text[i]) == c then RunEnd(text, cls, i + 1, c) else i
  }

  /** `run.windows(w)`. */
  function Windows(run: Chars, w: nat): (r: seq<Chars>)
    requires 1 <= w <= |run|
  {
    seq(|run| - w + 1, i requires 0 <= i < |run| - w + 1 => run[i..i + w])
  }

  function WindowsUpTo(run: Chars, m: nat): seq<Chars>
    requires m <= |run|
  {
    if m == 0 then [] else WindowsUpTo(run, m - 1) + Windows(run, m)
  }

  function Min(a: nat, b: nat): nat { if a <= b then a else b }

  /** The tokens of one run. */
  function RunTokens(run: Chars, c: Class, n: nat): seq<Chars> {
    match c
    case Skip => []
    case Other => [run]
    case Cjk => WindowsUpTo(run, Min(n, |run|))
  }

  function TokensFrom(text: Chars, cls: nat -> Class, n: nat, i: nat): seq<Chars>
    requires i <= |text|
    decreases |text| - i
  {
    if i == |text| then []
    else
      var c := cls(text[i]);
      var j := RunEnd(text, cls, i + 1, c);
      RunTokens(text[i..j], c, n) + TokensFrom(text, cls, n, j)
  }

  /** `tokenize`, on lower-cased text. */
  function Tokens(text: Chars, kind: TokenizerKind, alnum: nat -> bool): seq<Chars> {
    TokensFrom(text, ClassOf(kind, alnum), NgramSize(kind), 0)
  }

  lemma {:induction false} TokensStep(text: Chars, cls: nat -> Class, n: nat, done: seq<Chars>, i: nat, j: nat)
    requires i < |text| && j == RunEnd(text, cls, i + 1, cls(text[i]))
    ensures done + TokensFrom(text, cls, n, i) ==
      done + RunTokens(text[i..j], cls(text[i]), n) + TokensFrom(text, cls, n, j)
  {
  }

  method Tokenize(text: Chars, kind: TokenizerKind, alnum: nat -> bool) returns (tokens: seq<Chars>)
    ensures tokens == Tokens(text, kind, alnum)
  {
    hide TokensFrom;
    var cls, n := ClassOf(kind, alnum), NgramSize(kind);
    tokens := [];
    var i := 0;
    while i < |text|
      invariant i <= |text| && tokens + TokensFrom(text, cls, n, i) == Tokens(text, kind, alnum)
    {
      var c := cls(text[i]);
      var start := i;
      while i < |text| && cls(text[i]) == c
        invariant start <= i <= |text|
        invariant RunEnd(text, cls, i, c) == RunEnd(text, cls, start, c)
        decreases |text| - i
      {
        i := i + 1;
      }
      TokensStep(text, cls, n, tokens, start, i);
      var run := text[start..i];
      if c == Cjk {
        var grams := PushGrams(run, n);
        tokens := tokens + grams;
      } else if c == Other {
        tokens := tokens + [run];
      }
    }
    assert TokensFrom(text, cls, n, |text|) == [] by { NoTokens(text, cls, n); }
  }

  lemma {:induction false} NoTokens(text: Chars, cls: nat -> Class, n: nat)
    ensures TokensFrom(text, cls, n, |text|) == []
  {
  }

  /** All window sizes up to `n`. */
  method PushGrams(run: Chars, n: nat) returns (grams: seq<Chars>)
    ensures grams == WindowsUpTo(run, Min(n, |run|))
  {
    grams := [];
    for w := 1 to Min(n, |run|) + 1
      invariant grams == WindowsUpTo(run, w - 1)
    {
      ghost var shorter := grams;
      for i := 0 to |run| - w + 1
        invariant grams == shorter + Windows(run, w)[..i]
      {
        grams := grams + [run[i..i + w]];
      }
    }
  }

  // What the tokens are

  /** A stretch of CJK of at most `n` characters, or a maximal stretch of other alphanumerics. */
  predicate TokenAt(text: Chars, cls: nat -> Class, n: nat, a: nat, b: nat) {
    a < b <= |text| &&
    ((b - a <= n && AllOf(text, cls, a, b, Cjk)) ||
     (AllOf(text, cls, a, b, Other) && (a == 0 || cls(text[a - 1]) != Other) && (b == |text| || cls(text[b]) != Other)))
  }

  predicate Boundary(text: Chars, cls: nat -> Class, i: nat) {
    i <= |text| && (i == 0 || i == |text| || cls(text[i - 1]) != cls(text[i]))
  }

  lemma {:induction false} WindowIn(run: Chars, m: nat, t: Chars)
    requires m <= |run|
    ensures t in WindowsUpTo(run, m) <==> exists i: nat, j: nat :: i < j <= |run| && j - i <= m && t == run[i..j]
  {
    if m > 0 {
      WindowIn(run, m - 1, t);
      var last := Windows(run, m);
      if t in last {
        var i: nat :| i < |last| && last[i] == t;
        assert t == run[i..i + m];
      }
      if i: nat, j: nat :| i < j <= |run| && j - i <= m && t == run[i..j] {
        if j - i == m {
          assert last[i] == t;
        } else {
          assert j - i <= m - 1;
        }
      }
    }
  }

  /** From a run boundary on, the tokens are exactly the texts at token places. */
  lemma {:induction false} TokensFromIff(text: Chars, cls: nat -> Class, n: nat, i: nat, t: Chars)
    requires Boundary(text, cls, i)
    ensures t in TokensFrom(text, cls, n, i) <==> exists a: nat, b: nat :: i <= a && TokenAt(text, cls, n, a, b) && t == text[a..b]
    decreases |text| - i
  {
    if i < |text| {
      var c := cls(text[i]);
      var j := RunEnd(text, cls, i + 1, c);
      TokensFromIff(text, cls, n, j, t);
      RunIff(text, cls, n, i, j, t);
      if t in TokensFrom(text, cls, n, i) {
        if t in RunTokens(text[i..j], c, n) {
          var a: nat, b: nat :| i <= a && b <= j && TokenAt(text, cls, n, a, b) && t == text[a..b];
        } else {
          var a: nat, b: nat :| j <= a && TokenAt(text, cls, n, a, b) && t == text[a..b];
        }
      }
      if a: nat, b: nat :| i <= a && TokenAt(text, cls, n, a, b) && t == text[a..b] {
        if a < j {
          StaysInRun(text, cls, n, i, j, a, b);
        }
      }
    }
  }

  lemma ClassAt(text: Chars, cls: nat -> Class, i: nat, j: nat, k: nat, c: Class)
    requires i <= k < j <= |text| && AllOf(text, cls, i, j, c)
    ensures cls(text[k]) == c
  {
  }

  lemma OneClass(text: Chars, cls: nat -> Class, n: nat, a: nat, b: nat, k: nat)
    requires TokenAt(text, cls, n, a, b) && a <= k < b
    ensures cls(text[k]) == cls(text[a])
  {
  }

  /** The only token inside a run of ordinary characters is the whole run. */
  lemma WholeRun(text: Chars, cls: nat -> Class, n: nat, i: nat, j: nat, a: nat, b: nat)
    requires i <= a < b <= j <= |text| && AllOf(text, cls, i, j, Other) && TokenAt(text, cls, n, a, b)
    ensures a == i && b == j
  {
    hide AllOf;
    ClassAt(text, cls, i, j, a, Other);
    if AllOf(text, cls, a, b, Cjk) {
      ClassAt(text, cls, a, b, a, Cjk);
    } else {
      if a > i {
        ClassAt(text, cls, i, j, a - 1, Other);
      }
      if b < j {
        ClassAt(text, cls, i, j, b, Other);
      }
    }
  }

  lemma StaysInRun(text: Chars, cls: nat -> Class, n: nat, i: nat, j: nat, a: nat, b: nat)
    requires i <= a < j <= |text| && AllOf(text, cls, i, j, cls(text[i])) && (j < |text| ==> cls(text[j]) != cls(text[i]))
    requires TokenAt(text, cls, n, a, b)
    ensures b <= j
  {
    hide AllOf;
    ClassAt(text, cls, i, j, a, cls(text[i]));
    if b > j {
      OneClass(text, cls, n, a, b, j);
    }
  }

  lemma RunIff(text: Chars, cls: nat -> Class, n: nat, i: nat, j: nat, t: Chars)
    requires i < j <= |text| && Boundary(text, cls, i)
    requires AllOf(text, cls, i, j, cls(text[i])) && (j < |text| ==> cls(text[j]) != cls(text[i]))
    ensures t in RunTokens(text[i..j], cls(text[i]), n) <==>
      exists a: nat, b: nat :: i <= a && b <= j && TokenAt(text, cls, n, a, b) && t == text[a..b]
  {
    var run, c := text[i..j], cls(text[i]);
    match c {
      case Skip =>
        forall a: nat, b: nat | i <= a && b <= j ensures !TokenAt(text, cls, n, a, b) {
          assert a < b ==> cls(text[a]) == Skip;
        }
      case Other =>
        if t == run {
          assert TokenAt(text, cls, n, i, j);
        }
        forall a: nat, b: nat | i <= a && b <= j && TokenAt(text, cls, n, a, b) ensures a == i && b == j {
          WholeRun(text, cls, n, i, j, a, b);
        }
      case Cjk =>
        GramIff(text, cls, n, i, j, t);
    }
  }

  lemma SliceOfSlice(s: Chars, i: nat, j: nat, x: nat, y: nat)
    requires i <= j <= |s| && x <= y <= j - i
    ensures s[i..j][x..y] == s[i + x..i + y]
  {
    var a, b := s[i..j][x..y], s[i + x..i + y];
    assert |a| == |b| && forall k | 0 <= k < |a| :: a[k] == b[k];
  }

  lemma AllOfPart(text: Chars, cls: nat -> Class, i: nat, j: nat, a: nat, b: nat, c: Class)
    requires i <= a <= b <= j <= |text| && AllOf(text, cls, i, j, c)
    ensures AllOf(text, cls, a, b, c)
  {
  }

  lemma AllOfSlice(text: Chars, cls: nat -> Class, a: nat, b: nat, t: Chars, c: Class)
    requires a <= b <= |text| && text[a..b] == t && AllOf(t, cls, 0, |t|, c)
    ensures AllOf(text, cls, a, b, c)
  {
    forall k | a <= k < b ensures cls(text[k]) == c {
      assert text[k] == t[k - a];
    }
  }

  lemma GramAt(text: Chars, cls: nat -> Class, n: nat, a: nat, b: nat)
    requires a < b <= |text| && AllOf(text, cls, a, b, Cjk)
    ensures TokenAt(text, cls, n, a, b) <==> b - a <= n
  {
    assert cls(text[a]) == Cjk;
    assert !AllOf(text, cls, a, b, Other);
  }

  lemma GramIsToken(text: Chars, cls: nat -> Class, n: nat, i: nat, j: nat, t: Chars) returns (a: nat, b: nat)
    requires i < j <= |text| && AllOf(text, cls, i, j, Cjk)
    requires t in RunTokens(text[i..j], Cjk, n)
    ensures i <= a && b <= j && TokenAt(text, cls, n, a, b) && t == text[a..b]
  {
    hide AllOf, WindowsUpTo;
    var run := text[i..j];
    var m := Min(n, |run|);
    WindowIn(run, m, t);
    var x: nat, y: nat :| x < y <= |run| && y - x <= m && t == run[x..y];
    SliceOfSlice(text, i, j, x, y);
    AllOfPart(text, cls, i, j, i + x, i + y, Cjk);
    GramAt(text, cls, n, i + x, i + y);
    a, b := i + x, i + y;
  }

  lemma TokenIsGram(text: Chars, cls: nat -> Class, n: nat, i: nat, j: nat, a: nat, b: nat)
    requires i < j <= |text| && AllOf(text, cls, i, j, Cjk)
    requires i <= a < b <= j && b - a <= n
    ensures text[a..b] in RunTokens(text[i..j], Cjk, n)
  {
    hide AllOf, WindowsUpTo;
    var run := text[i..j];
    WindowIn(run, Min(n, |run|), text[a..b]);
    SliceOfSlice(text, i, j, a - i, b - i);
    assert run[a - i..b - i] == text[a..b];
  }

  lemma GramIff(text: Chars, cls: nat -> Class, n: nat, i: nat, j: nat, t: Chars)
    requires i < j <= |text| && AllOf(text, cls, i, j, Cjk)
    ensures t in RunTokens(text[i..j], Cjk, n) <==>
      exists a: nat, b: nat :: i <= a && b <= j && TokenAt(text, cls, n, a, b) && t == text[a..b]
  {
    hide AllOf, RunTokens;
    if t in RunTokens(text[i..j], Cjk, n) {
      var a, b := GramIsToken(text, cls, n, i, j, t);
    }
    if a: nat, b: nat :| i <= a && b <= j && TokenAt(text, cls, n, a, b) && t == text[a..b] {
      AllOfPart(text, cls, i, j, a, b, Cjk);
      GramAt(text, cls, n, a, b);
      TokenIsGram(text, cls, n, i, j, a, b);
    }
  }

  /** The tokens of a text: its CJK stretches of up to `n` characters, and its maximal
      stretches of other alphanumerics. */
  lemma TokensIff(text: Chars, kind: TokenizerKind, alnum: nat -> bool, t: Chars)
    ensures t in Tokens(text, kind, alnum) <==>
      exists a: nat, b: nat :: TokenAt(text, ClassOf(kind, alnum), NgramSize(kind), a, b) && t == text[a..b]
  {
    hide TokenAt;
    TokensFromIff(text, ClassOf(kind, alnum), NgramSize(kind), 0, t);
  }

  /** Every occurrence of a term in the content, term by term: `match()`. */
  predicate Matches(content: seq<Chars>, query: seq<Chars>) {
    query != [] && forall t | t in query :: t in content
  }

  /** A non-empty all-CJK query that occurs in a text matches it, however the text
      goes on around it. */
  lemma CjkSubstringMatches(text: Chars, query: Chars, at: nat, kind: TokenizerKind, alnum: nat -> bool)
    requires kind != Word && |query| > 0 && at + |query| <= |text| && text[at..at + |query|] == query
    requires AllOf(query, ClassOf(kind, alnum), 0, |query|, Cjk)
    ensures Matches(Tokens(text, kind, alnum), Tokens(query, kind, alnum))
  {
    hide Tokens;
    var cls, n := ClassOf(kind, alnum), NgramSize(kind);
    forall t | t in Tokens(query, kind, alnum) ensures t in Tokens(text, kind, alnum) {
      TokensIff(query, kind, alnum, t);
      var a: nat, b: nat :| TokenAt(query, cls, n, a, b) && t == query[a..b];
      assert cls(query[a]) == Cjk;
      SliceOfSlice(text, at, at + |query|, a, b);
      AllOfPart(query, cls, 0, |query|, a, b, Cjk);
      AllOfSlice(text, cls, at + a, at + b, t, Cjk);
      GramAt(query, cls, n, a, b);
      GramAt(text, cls, n, at + a, at + b);
      TokensIff(text, kind, alnum, t);
    }
    assert TokenAt(query, cls, n, 0, 1);
    TokensIff(query, kind, alnum, query[0..1]);
  }

  // By script and tokenizer

  /** Hiragana, Katakana, Hangul syllables, and the unified ideographs. */
  predicate InScripts(c: nat) {
    0x3041 <= c <= 0x3096 || 0x30A1 <= c <= 0x30FA || 0xAC00 <= c <= 0xD7A3 || 0x4E00 <= c <= 0x9FFF || 0x20000 <= c <= 0x2A6DF
  }

  /** A query written in these scripts is found in any text that contains it. */
  lemma ScriptsMatch(text: Chars, query: Chars, at: nat, kind: TokenizerKind, alnum: nat -> bool)
    requires kind != Word && |query| > 0 && at + |query| <= |text| && text[at..at + |query|] == query
    requires forall k | 0 <= k < |query| :: InScripts(query[k]) && alnum(query[k])
    ensures Matches(Tokens(text, kind, alnum), Tokens(query, kind, alnum))
  {
    hide Tokens;
    CjkSubstringMatches(text, query, at, kind, alnum);
  }

  /** `t` stands in `text` at `a..b`. */
  predicate StandsAt(text: Chars, t: Chars, a: nat, b: nat) {
    a < b <= |text| && t == text[a..b]
  }

  lemma GramsAre(text: Chars, kind: TokenizerKind, alnum: nat -> bool, t: Chars)
    requires kind != Word
    requires forall k | 0 <= k < |text| :: InScripts(text[k]) && alnum(text[k])
    ensures t in Tokens(text, kind, alnum) <==> |t| <= NgramSize(kind) && exists a: nat, b: nat :: StandsAt(text, t, a, b)
  {
    hide Tokens;
    var cls, n := ClassOf(kind, alnum), NgramSize(kind);
    assert AllOf(text, cls, 0, |text|, Cjk);
    TokensIff(text, kind, alnum, t);
    forall a: nat, b: nat | a < b <= |text| ensures TokenAt(text, cls, n, a, b) <==> b - a <= n {
      AllOfPart(text, cls, 0, |text|, a, b, Cjk);
      GramAt(text, cls, n, a, b);
    }
    if a: nat, b: nat :| StandsAt(text, t, a, b) {
      assert |t| <= n ==> TokenAt(text, cls, n, a, b);
    }
    if a: nat, b: nat :| TokenAt(text, cls, n, a, b) && t == text[a..b] {
      assert StandsAt(text, t, a, b);
    }
  }

  /** A text of such characters alone has its single characters and pairs as tokens, with
      `trigram` its triples too, and nothing else. */
  lemma GramSizes(text: Chars, alnum: nat -> bool, t: Chars)
    requires forall k | 0 <= k < |text| :: InScripts(text[k]) && alnum(text[k])
    ensures t in Tokens(text, Bigram, alnum) <==> |t| <= 2 && exists a: nat, b: nat :: StandsAt(text, t, a, b)
    ensures t in Tokens(text, Trigram, alnum) <==> |t| <= 3 && exists a: nat, b: nat :: StandsAt(text, t, a, b)
  {
    hide Tokens, StandsAt;
    GramsAre(text, Bigram, alnum, t);
    GramsAre(text, Trigram, alnum, t);
  }

  /** Below the Hangul letters, and everywhere for whole words, the tokens are the longest
      stretches of alphanumerics. */
  lemma WordsStayWhole(text: Chars, kind: TokenizerKind, alnum: nat -> bool, t: Chars)
    requires kind == Word || forall k | 0 <= k < |text| :: text[k] < 0x1100
    ensures t in Tokens(text, kind, alnum) <==> exists a: nat, b: nat ::
      a < b <= |text| && t == text[a..b] && (forall k | a <= k < b :: alnum(text[k])) &&
      (a == 0 || !alnum(text[a - 1])) && (b == |text| || !alnum(text[b]))
  {
    hide Tokens;
    var (cls, n) := (ClassOf(kind, alnum), NgramSize(kind));
    forall k | 0 <= k < |text| ensures cls(text[k]) == if alnum(text[k]) then Other else Skip {
    }
    TokensIff(text, kind, alnum, t);
    forall a: nat, b: nat ensures TokenAt(text, cls, n, a, b) <==>
      a < b <= |text| && (forall k | a <= k < b :: alnum(text[k])) && (a == 0 || !alnum(text[a - 1])) && (b == |text| || !alnum(text[b]))
    {
      if a < b <= |text| {
        assert cls(text[a]) != Cjk;
        assert AllOf(text, cls, a, b, Other) <==> forall k | a <= k < b :: alnum(text[k]);
      }
    }
  }
}
