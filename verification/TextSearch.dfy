/** Full-text search from text to block: what the tokenizer guarantees about the term index. */
module TextSearch {
  import opened Bytes
  import opened CatalogCodec
  import opened Tokenizer
  import SI = SecondaryIndexes
  import BC = BlockCodec

  function Mapped(utf8: Chars -> seq<Byte>, tokens: seq<Chars>): (r: seq<seq<Byte>>)
    ensures |r| == |tokens|
  {
    seq(|tokens|, i requires 0 <= i < |tokens| => utf8(tokens[i]))
  }

  lemma MappedAll(utf8: Chars -> seq<Byte>, a: seq<Chars>, b: seq<Chars>)
    requires forall t | t in a :: t in b
    ensures forall t | t in Mapped(utf8, a) :: t in Mapped(utf8, b)
  {
    forall k | 0 <= k < |a| ensures Mapped(utf8, a)[k] in Mapped(utf8, b) {
      assert a[k] in b;
      var m :| 0 <= m < |b| && b[m] == a[k];
      assert Mapped(utf8, b)[m] == Mapped(utf8, a)[k];
    }
  }

  /** The index's tokenizer lower-cases a text, tokenizes its characters and stores the tokens as bytes. */
  ghost predicate TokenizesWith(tools: SI.Tools, chars: BC.Text -> Chars, utf8: Chars -> seq<Byte>, kind: TokenizerKind,
                                alnum: nat -> bool)
  {
    forall t: BC.Text :: tools.tok(t) == Mapped(utf8, Tokens(chars(t), kind, alnum))
  }

  /** A block whose lower-cased content contains a non-empty, all-CJK query is among the
      blocks the term index finds for the query, under bigrams and trigrams. */
  lemma {:induction false} CjkQueryFindsBlock(
    tools: SI.Tools, chars: BC.Text -> Chars, utf8: Chars -> seq<Byte>, kind: TokenizerKind, alnum: nat -> bool,
    blocks: seq<BC.Block>, i: nat, query: BC.Text, at: nat)
    requires TokenizesWith(tools, chars, utf8, kind, alnum) && kind != Word && i < |blocks|
    requires var (text, q) := (chars(blocks[i].content), chars(query));
      |q| > 0 && at + |q| <= |text| && text[at..at + |q|] == q && AllOf(q, ClassOf(kind, alnum), 0, |q|, Cjk)
    ensures i in SI.Positions(blocks, SI.Holding(SI.TermMatch(tools.tok(query)), tools))
  {
    hide Tokens, AllOf, ClassOf, Mapped, SI.Positions;
    var (text, q) := (chars(blocks[i].content), chars(query));
    CjkSubstringMatches(text, q, at, kind, alnum);
    var terms := tools.tok(query);
    assert terms == Mapped(utf8, Tokens(q, kind, alnum));
    assert tools.tok(blocks[i].content) == Mapped(utf8, Tokens(text, kind, alnum));
    MappedAll(utf8, Tokens(q, kind, alnum), Tokens(text, kind, alnum));
    SI.PositionsIff(blocks, SI.Holding(SI.TermMatch(terms), tools));
  }
}
