/** The secondary indexes of a document: how they are built from its blocks, and
    what every lookup answers. `lower` and `tok` stand for lower-casing and for the
    tokenizer of the store. */
module SecondaryIndexes {
  import opened Bytes
  import opened BlockCodec

  /** A token of the tokenizer. */
  type Term = Text

  datatype Tools = Tools(lower: Text -> Text, tok: Text -> seq<Term>)

  function CodeLang(b: Block): Option<Text> {
    if LANG in b.properties && b.properties[LANG].String? then Some(b.properties[LANG].s) else None
  }

  /** `as u8` keeps the low byte. */
  function HeadingDepth(b: Block): Option<nat> {
    if DEPTH in b.properties && b.properties[DEPTH].Int? then Some(b.properties[DEPTH].i % 256) else None
  }

  /** The depth is the property's low byte. */
  lemma DepthIs(b: Block, d: nat)
    ensures HeadingDepth(b) == Some(d) <==>
      d < 256 && DEPTH in b.properties && b.properties[DEPTH].Int? && exists k :: b.properties[DEPTH].i == d + 256 * k
  {
    if DEPTH in b.properties && b.properties[DEPTH].Int? {
      var i := b.properties[DEPTH].i;
      assert i == i % 256 + 256 * (i / 256);
    }
  }

  // "lang" and "depth"
  const LANG: Text := [108, 97, 110, 103]
  const DEPTH: Text := [100, 101, 112, 116, 104]

  // Positions

  /** The indices of the blocks that satisfy `p`, ascending. */
  function Positions(blocks: seq<Block>, p: Block -> bool): (r: seq<nat>) {
    if |blocks| == 0 then []
    else
      var n := |blocks| - 1;
      Positions(blocks[..n], p) + (if p(blocks[n]) then [n] else [])
  }

  predicate Ascending(s: seq<nat>) {
    forall i, j | 0 <= i < j < |s| :: s[i] < s[j]
  }

  lemma {:induction false} PositionsIff(blocks: seq<Block>, p: Block -> bool)
    ensures Ascending(Positions(blocks, p))
    ensures forall i: nat :: i in Positions(blocks, p) <==> i < |blocks| && p(blocks[i])
  {
    if |blocks| > 0 {
      var n := |blocks| - 1;
      PositionsIff(blocks[..n], p);
      var before := Positions(blocks[..n], p);
      forall i | 0 <= i < |before| ensures before[i] < n {
        assert before[i] in before;
      }
    }
  }

  lemma PositionsStep(blocks: seq<Block>, p: Block -> bool, i: nat)
    requires i < |blocks|
    ensures Positions(blocks[..i + 1], p) == Positions(blocks[..i], p) + (if p(blocks[i]) then [i] else [])
  {
    assert blocks[..i + 1][..i] == blocks[..i];
  }

  lemma {:induction false} SamePositions(blocks: seq<Block>, p: Block -> bool, q: Block -> bool)
    requires forall b | b in blocks :: p(b) == q(b)
    ensures Positions(blocks, p) == Positions(blocks, q)
  {
    if |blocks| > 0 {
      SamePositions(blocks[..|blocks| - 1], p, q);
    }
  }

  lemma LastSplit(s: seq<nat>)
    requires Ascending(s) && |s| > 0
    ensures forall x: nat :: x in s[..|s| - 1] <==> x in s && x < s[|s| - 1]
    ensures forall x | x in s :: x <= s[|s| - 1]
  {
    var n := |s| - 1;
    assert s == s[..n] + [s[n]];
    forall x | x in s[..n] ensures x < s[n] {
      var k :| 0 <= k < n && s[k] == x;
    }
  }

  lemma HasAnElement(s: seq<nat>)
    requires s != []
    ensures exists i: nat :: i in s
  {
    assert s[0] in s;
  }

  /** Ascending lists with the same elements are the same list. */
  lemma {:induction false} AscendingSame(a: seq<nat>, b: seq<nat>)
    requires Ascending(a) && Ascending(b) && forall i: nat :: i in a <==> i in b
    ensures a == b
  {
    if |a| == 0 {
      if b != [] {
        HasAnElement(b);
      }
    } else {
      assert a[|a| - 1] in b;
      var n, m := |a| - 1, |b| - 1;
      assert b[m] in a;
      LastSplit(a);
      LastSplit(b);
      assert a[n] == b[m];
      forall i: nat ensures i in a[..n] <==> i in b[..m] {
        assert i in a[..n] <==> i in a && i < a[n];
        assert i in b[..m] <==> i in b && i < b[m];
      }
      AscendingSame(a[..n], b[..m]);
      assert a == a[..n] + [a[n]] && b == b[..m] + [b[m]];
    }
  }

  // Building

  function Get<K>(m: map<K, seq<nat>>, k: K): seq<nat> {
    if k in m then m[k] else []
  }

  function HasKey<K(==)>(key: Block -> Option<K>, k: K): Block -> bool {
    (b: Block) => key(b) == Some(k)
  }

  /** Every key has exactly the positions of the blocks with that key. */
  ghost predicate Grouped<K(!new)>(m: map<K, seq<nat>>, blocks: seq<Block>, key: Block -> Option<K>) {
    forall k :: Get(m, k) == Positions(blocks, HasKey(key, k))
  }

  /** `map.entry(key).or_default().push(i)`. */
  function Push<K(==)>(m: map<K, seq<nat>>, k: K, i: nat): map<K, seq<nat>> {
    m[k := Get(m, k) + [i]]
  }

  lemma GroupedStep<K(!new)>(m: map<K, seq<nat>>, blocks: seq<Block>, key: Block -> Option<K>, i: nat)
    requires i < |blocks| && Grouped(m, blocks[..i], key)
    ensures Grouped(if key(blocks[i]).Some? then Push(m, key(blocks[i]).value, i) else m, blocks[..i + 1], key)
  {
    forall k ensures Positions(blocks[..i + 1], HasKey(key, k)) ==
      Positions(blocks[..i], HasKey(key, k)) + (if key(blocks[i]) == Some(k) then [i] else [])
    {
      PositionsStep(blocks, HasKey(key, k), i);
    }
  }

  function TypeOf(): Block -> Option<BlockType> { (b: Block) => Some(b.blockType) }
  function ContentOf(lower: Text -> Text): Block -> Option<Text> { (b: Block) => Some(lower(b.content)) }
  function LangOf(): Block -> Option<Text> { (b: Block) => CodeLang(b) }
  function DepthOf(): Block -> Option<nat> { (b: Block) => HeadingDepth(b) }

  /** `BitmapIndex::build`. */
  method BuildBitmap(blocks: seq<Block>) returns (m: map<BlockType, seq<nat>>)
    ensures Grouped(m, blocks, TypeOf())
  {
    hide Grouped, Positions;
    m := map[];
    GroupedNone(blocks, TypeOf());
    for i := 0 to |blocks|
      invariant Grouped(m, blocks[..i], TypeOf())
    {
      GroupedStep(m, blocks, TypeOf(), i);
      m := Push(m, blocks[i].blockType, i);
    }
    assert blocks[..|blocks|] == blocks;
  }

  lemma GroupedNone<K(!new)>(blocks: seq<Block>, key: Block -> Option<K>)
    ensures Grouped(map[], blocks[..0], key)
  {
  }

  datatype HashIndex = HashIndex(
    byContent: map<Text, seq<nat>>, byLang: map<Text, seq<nat>>, byDepth: map<nat, seq<nat>>)

  ghost predicate IsHash(h: HashIndex, blocks: seq<Block>, lower: Text -> Text) {
    Grouped(h.byContent, blocks, ContentOf(lower)) && Grouped(h.byLang, blocks, LangOf()) &&
    Grouped(h.byDepth, blocks, DepthOf())
  }

  /** `HashIndex::build`. */
  method BuildHash(blocks: seq<Block>, lower: Text -> Text) returns (h: HashIndex)
    ensures IsHash(h, blocks, lower)
  {
    hide Grouped, Positions;
    h := HashIndex(map[], map[], map[]);
    GroupedNone(blocks, ContentOf(lower));
    GroupedNone(blocks, LangOf());
    GroupedNone(blocks, DepthOf());
    for i := 0 to |blocks|
      invariant IsHash(h, blocks[..i], lower)
    {
      GroupedStep(h.byContent, blocks, ContentOf(lower), i);
      GroupedStep(h.byLang, blocks, LangOf(), i);
      GroupedStep(h.byDepth, blocks, DepthOf(), i);
      var b := blocks[i];
      h := h.(byContent := Push(h.byContent, lower(b.content), i));
      if CodeLang(b).Some? {
        h := h.(byLang := Push(h.byLang, CodeLang(b).value, i));
      }
      if HeadingDepth(b).Some? {
        h := h.(byDepth := Push(h.byDepth, HeadingDepth(b).value, i));
      }
    }
    assert blocks[..|blocks|] == blocks;
  }

  datatype BTreeIndex = BTreeIndex(byPre: map<nat, nat>, byPost: map<nat, nat>)

  /** The last block with a number wins. */
  ghost predicate Numbered(m: map<nat, nat>, blocks: seq<Block>, num: Block -> nat) {
    (forall i | 0 <= i < |blocks| :: num(blocks[i]) in m && i <= m[num(blocks[i])]) &&
    forall p | p in m :: m[p] < |blocks| && num(blocks[m[p]]) == p
  }

  function PreOf(): Block -> nat { (b: Block) => b.pre }
  function PostOf(): Block -> nat { (b: Block) => b.post }

  lemma NumberedStep(m: map<nat, nat>, blocks: seq<Block>, num: Block -> nat, i: nat)
    requires i < |blocks| && Numbered(m, blocks[..i], num)
    ensures Numbered(m[num(blocks[i]) := i], blocks[..i + 1], num)
  {
    var all := blocks[..i + 1];
    assert all == blocks[..i] + [blocks[i]];
    forall k | 0 <= k < |all| ensures num(all[k]) in m[num(blocks[i]) := i] && k <= m[num(blocks[i]) := i][num(all[k])] {
      if k < i {
        assert all[k] == blocks[..i][k];
      }
    }
  }

  /** `BTreeIndex::build`. */
  method BuildBTree(blocks: seq<Block>) returns (t: BTreeIndex)
    ensures Numbered(t.byPre, blocks, PreOf()) && Numbered(t.byPost, blocks, PostOf())
  {
    hide Numbered;
    NumberedNone(blocks[..0]);
    t := BTreeIndex(map[], map[]);
    for i := 0 to |blocks|
      invariant Numbered(t.byPre, blocks[..i], PreOf()) && Numbered(t.byPost, blocks[..i], PostOf())
    {
      NumberedStep(t.byPre, blocks, PreOf(), i);
      NumberedStep(t.byPost, blocks, PostOf(), i);
      t := BTreeIndex(t.byPre[blocks[i].pre := i], t.byPost[blocks[i].post := i]);
    }
    assert blocks[..|blocks|] == blocks;
  }

  lemma NumberedNone(blocks: seq<Block>)
    requires blocks == []
    ensures Numbered(map[], blocks, PreOf()) && Numbered(map[], blocks, PostOf())
  {
  }

  function HasTerm(tok: Text -> seq<Term>, t: Term): Block -> bool {
    (b: Block) => t in tok(b.content)
  }

  ghost predicate Posted(m: map<Term, seq<nat>>, blocks: seq<Block>, tok: Text -> seq<Term>) {
    forall t: Term :: Get(m, t) == Positions(blocks, HasTerm(tok, t))
  }

  /** Between two blocks: the terms in `done` are posted for block `i`. */
  ghost predicate PostedFor(m: map<Term, seq<nat>>, before: map<Term, seq<nat>>, done: set<Term>, i: nat) {
    forall t: Term :: Get(m, t) == Get(before, t) + (if t in done then [i] else [])
  }

  method Distinct(terms: seq<Term>) returns (s: set<Term>)
    ensures forall t: Term :: t in s <==> t in terms
  {
    s := {};
    for i := 0 to |terms|
      invariant forall t: Term :: t in s <==> t in terms[..i]
    {
      assert terms[..i + 1] == terms[..i] + [terms[i]];
      s := s + {terms[i]};
    }
    assert terms[..|terms|] == terms;
  }

  /** The tokens of all blocks, repeated ones too. */
  function TokenCount(blocks: seq<Block>, tok: Text -> seq<Term>): nat {
    if |blocks| == 0 then 0
    else TokenCount(blocks[..|blocks| - 1], tok) + |tok(blocks[|blocks| - 1].content)|
  }

  ghost predicate IsTerms(term: TermIndex, blocks: seq<Block>, tok: Text -> seq<Term>) {
    Posted(term.postings, blocks, tok) && term.blockCount == |blocks| && term.totalTokens == TokenCount(blocks, tok)
  }

  /** `TermIndex::build`: each distinct term of a block is posted once, and every token counted. */
  method BuildTerms(blocks: seq<Block>, tok: Text -> seq<Term>) returns (term: TermIndex)
    ensures IsTerms(term, blocks, tok)
  {
    hide Positions, Posted;
    var m: map<Term, seq<nat>> := map[];
    var total: nat := 0;
    PostedNone(blocks, tok);
    for i := 0 to |blocks|
      invariant Posted(m, blocks[..i], tok) && total == TokenCount(blocks[..i], tok)
    {
      assert blocks[..i + 1][..i] == blocks[..i];
      total := total + |tok(blocks[i].content)|;
      var terms := Distinct(tok(blocks[i].content));
      var left := terms;
      ghost var before := m;
      while left != {}
        invariant left <= terms && PostedFor(m, before, terms - left, i)
        decreases left
      {
        var t: Term :| t in left;
        m := Push(m, t, i);
        left := left - {t};
      }
      PostedStep(m, before, blocks, tok, terms, i);
    }
    assert blocks[..|blocks|] == blocks;
    term := TermIndex(m, |blocks|, total);
  }

  lemma PostedNone(blocks: seq<Block>, tok: Text -> seq<Term>)
    ensures Posted(map[], blocks[..0], tok)
  {
  }

  lemma PostedStep(m: map<Term, seq<nat>>, before: map<Term, seq<nat>>, blocks: seq<Block>, tok: Text -> seq<Term>,
                   terms: set<Term>, i: nat)
    requires i < |blocks| && Posted(before, blocks[..i], tok) && PostedFor(m, before, terms, i)
    requires forall t: Term :: t in terms <==> t in tok(blocks[i].content)
    ensures Posted(m, blocks[..i + 1], tok)
  {
    forall t: Term ensures Get(m, t) == Positions(blocks[..i + 1], HasTerm(tok, t)) {
      PositionsStep(blocks, HasTerm(tok, t), i);
    }
  }

  datatype TermIndex = TermIndex(postings: map<Term, seq<nat>>, blockCount: nat, totalTokens: nat)

  datatype DocumentIndex = DocumentIndex(
    bitmap: map<BlockType, seq<nat>>, btree: BTreeIndex, hash: HashIndex, term: TermIndex)

  ghost predicate Indexes(idx: DocumentIndex, blocks: seq<Block>, tools: Tools) {
    Grouped(idx.bitmap, blocks, TypeOf()) && Numbered(idx.btree.byPre, blocks, PreOf()) &&
    Numbered(idx.btree.byPost, blocks, PostOf()) && IsHash(idx.hash, blocks, tools.lower) &&
    IsTerms(idx.term, blocks, tools.tok)
  }

  /** `DocumentIndex::build`. */
  method BuildIndex(blocks: seq<Block>, tools: Tools) returns (idx: DocumentIndex)
    ensures Indexes(idx, blocks, tools)
  {
    var bitmap := BuildBitmap(blocks);
    var btree := BuildBTree(blocks);
    var hash := BuildHash(blocks, tools.lower);
    var term := BuildTerms(blocks, tools.tok);
    idx := DocumentIndex(bitmap, btree, hash, term);
  }

  // Lookups

  datatype Hint =
    | OfTypes(types: seq<BlockType>)
    | PreExact(pre: nat)
    | PreRange(lo: nat, hi: nat)
    | ContentExact(content: Text)
    | LangExact(lang: Text)
    | DepthExact(depth: nat)
    | TermMatch(terms: seq<Term>)
    | FullScan

  /** The blocks a hint is about. */
  predicate HintHolds(h: Hint, tools: Tools, b: Block) {
    match h
    case OfTypes(types) => b.blockType in types
    case PreExact(p) => b.pre == p
    case PreRange(lo, hi) => lo <= b.pre <= hi
    case ContentExact(c) => tools.lower(b.content) == tools.lower(c)
    case LangExact(l) => CodeLang(b) == Some(l)
    case DepthExact(d) => HeadingDepth(b) == Some(d)
    case TermMatch(terms) => terms != [] && forall t | t in terms :: t in tools.tok(b.content)
    case FullScan => true
  }

  function Holding(h: Hint, tools: Tools): Block -> bool {
    (b: Block) => HintHolds(h, tools, b)
  }

  lemma HeadLeast(s: seq<nat>)
    requires Ascending(s) && |s| > 0
    ensures Ascending(s[1..]) && (forall y: nat :: y in s <==> y == s[0] || y in s[1..])
    ensures forall y | y in s[1..] :: s[0] < y
  {
    assert s == [s[0]] + s[1..];
  }

  lemma HeadBefore(h: nat, t: seq<nat>)
    requires Ascending(t) && forall y | y in t :: h < y
    ensures Ascending([h] + t) && forall y: nat :: y in [h] + t <==> y == h || y in t
  {
    assert forall k | 0 <= k < |t| :: t[k] in t;
  }

  /** `sort_unstable` and `dedup`, one element at a time. */
  function Inserted(x: nat, s: seq<nat>): (r: seq<nat>)
    requires Ascending(s)
    ensures Ascending(r) && forall y: nat :: y in r <==> y == x || y in s
  {
    if |s| == 0 then [x]
    else
      HeadLeast(s);
      if x < s[0] then
        HeadBefore(x, s);
        [x] + s
      else if x == s[0] then s
      else
        var rest := Inserted(x, s[1..]);
        HeadBefore(s[0], rest);
        [s[0]] + rest
  }

  function SortedDeduped(xs: seq<nat>): (r: seq<nat>)
    ensures Ascending(r) && forall y: nat :: y in r <==> y in xs
  {
    if |xs| == 0 then []
    else
      assert xs == [xs[0]] + xs[1..];
      Inserted(xs[0], SortedDeduped(xs[1..]))
  }

  /** `get_any`: the union over the types. */
  method GetAny(bitmap: map<BlockType, seq<nat>>, types: seq<BlockType>, ghost blocks: seq<Block>, tools: Tools)
      returns (r: seq<nat>)
    requires Grouped(bitmap, blocks, TypeOf())
    ensures r == Positions(blocks, Holding(OfTypes(types), tools))
  {
    hide Grouped, Positions;
    var all: seq<nat> := [];
    for k := 0 to |types|
      invariant forall i: nat :: i in all <==> i < |blocks| && blocks[i].blockType in types[..k]
    {
      OfType(bitmap, blocks, types[k]);
      assert types[..k + 1] == types[..k] + [types[k]];
      all := all + Get(bitmap, types[k]);
    }
    assert types[..|types|] == types;
    r := SortedDeduped(all);
    PositionsIff(blocks, Holding(OfTypes(types), tools));
    AscendingSame(r, Positions(blocks, Holding(OfTypes(types), tools)));
  }

  lemma OfType(bitmap: map<BlockType, seq<nat>>, blocks: seq<Block>, t: BlockType)
    requires Grouped(bitmap, blocks, TypeOf())
    ensures forall i: nat :: i in Get(bitmap, t) <==> i < |blocks| && blocks[i].blockType == t
  {
    PositionsIff(blocks, HasKey(TypeOf(), t));
  }

  /** `build_blocks` numbers blocks in increasing order. */
  predicate PreAscends(blocks: seq<Block>) {
    forall i, j | 0 <= i < j < |blocks| :: blocks[i].pre < blocks[j].pre
  }

  lemma KeyIs(m: map<nat, nat>, blocks: seq<Block>, key: nat)
    requires Numbered(m, blocks, PreOf()) && PreAscends(blocks)
    ensures forall i | 0 <= i < |blocks| :: blocks[i].pre == key <==> key in m && m[key] == i
    ensures key in m ==> m[key] < |blocks|
  {
    forall i | 0 <= i < |blocks| ensures blocks[i].pre == key <==> key in m && m[key] == i {
      assert PreOf()(blocks[i]) in m;
    }
  }

  /** `get_by_pre`. */
  method GetByPre(m: map<nat, nat>, pre: nat, ghost blocks: seq<Block>, tools: Tools) returns (r: seq<nat>)
    requires Numbered(m, blocks, PreOf()) && PreAscends(blocks)
    ensures r == Positions(blocks, Holding(PreExact(pre), tools))
  {
    hide Numbered, Positions;
    KeyIs(m, blocks, pre);
    r := if pre in m then [m[pre]] else [];
    PositionsIff(blocks, Holding(PreExact(pre), tools));
    AscendingSame(r, Positions(blocks, Holding(PreExact(pre), tools)));
  }

  /** The block of a smaller key comes first. */
  lemma SmallerKeyFirst(blocks: seq<Block>, x: nat, y: nat)
    requires PreAscends(blocks) && x < |blocks| && y < |blocks| && blocks[x].pre < blocks[y].pre
    ensures x < y
  {
  }

  /** `by_pre.range(lo..=hi)`: the entries in key order. It panics on an inverted range. */
  method RangeByPre(m: map<nat, nat>, lo: nat, hi: nat, ghost blocks: seq<Block>, tools: Tools) returns (r: seq<nat>)
    requires lo <= hi && Numbered(m, blocks, PreOf()) && PreAscends(blocks)
    ensures r == Positions(blocks, Holding(PreRange(lo, hi), tools))
  {
    hide Numbered, Positions;
    r := [];
    var key := lo;
    while key <= hi
      invariant lo <= key <= hi + 1 && Ascending(r)
      invariant forall i: nat :: i in r <==> i < |blocks| && lo <= blocks[i].pre < key
    {
      KeyIs(m, blocks, key);
      if key in m {
        forall k | 0 <= k < |r| ensures r[k] < m[key] {
          assert r[k] in r;
          SmallerKeyFirst(blocks, r[k], m[key]);
        }
        r := r + [m[key]];
      }
      key := key + 1;
    }
    PositionsIff(blocks, Holding(PreRange(lo, hi), tools));
    AscendingSame(r, Positions(blocks, Holding(PreRange(lo, hi), tools)));
  }

  // Intersection

  function Merged(a: seq<nat>, b: seq<nat>): (out: seq<nat>)
    decreases |a| + |b|
  {
    if |a| == 0 || |b| == 0 then []
    else if a[0] < b[0] then Merged(a[1..], b)
    else if a[0] > b[0] then Merged(a, b[1..])
    else [a[0]] + Merged(a[1..], b[1..])
  }

  lemma HeadSplit(s: seq<nat>)
    requires Ascending(s) && |s| > 0
    ensures Ascending(s[1..]) && forall x: nat :: x in s[1..] <==> x in s && x > s[0]
    ensures forall x | x in s :: x >= s[0]
  {
    assert s == [s[0]] + s[1..];
    forall x | x in s[1..] ensures x > s[0] {
      var k :| 0 <= k < |s| - 1 && s[1..][k] == x;
    }
  }

  lemma ConsAscends(x: nat, s: seq<nat>)
    requires Ascending(s) && forall y | y in s :: y > x
    ensures Ascending([x] + s)
  {
    assert forall k | 0 <= k < |s| :: s[k] in s;
  }

  lemma {:induction false} MergedIff(a: seq<nat>, b: seq<nat>)
    requires Ascending(a) && Ascending(b)
    ensures Ascending(Merged(a, b)) && forall x: nat :: x in Merged(a, b) <==> x in a && x in b
    decreases |a| + |b|
  {
    hide Ascending;
    assert Ascending([]) by { NilAscends(); }
    if |a| > 0 && |b| > 0 {
      HeadSplit(a);
      HeadSplit(b);
      if a[0] < b[0] {
        MergedIff(a[1..], b);
        forall x: nat ensures x in Merged(a[1..], b) <==> x in a && x in b {
        }
      } else if a[0] > b[0] {
        MergedIff(a, b[1..]);
        forall x: nat ensures x in Merged(a, b[1..]) <==> x in a && x in b {
        }
      } else {
        MergedIff(a[1..], b[1..]);
        ConsAscends(a[0], Merged(a[1..], b[1..]));
        forall x: nat ensures x in [a[0]] + Merged(a[1..], b[1..]) <==> x in a && x in b {
        }
      }
    }
  }

  lemma NilAscends()
    ensures Ascending([])
  {
  }

  /** The two-pointer intersection of ascending lists. */
  method MergeIntersect(a: seq<nat>, b: seq<nat>) returns (out: seq<nat>)
    requires Ascending(a) && Ascending(b)
    ensures Ascending(out) && forall x: nat :: x in out <==> x in a && x in b
  {
    hide Ascending;
    out := [];
    var i, j := 0, 0;
    while i < |a| && j < |b|
      invariant i <= |a| && j <= |b| && out + Merged(a[i..], b[j..]) == Merged(a, b)
      decreases |a| - i + |b| - j
    {
      assert a[i..][1..] == a[i + 1..] && b[j..][1..] == b[j + 1..];
      if a[i] < b[j] {
        i := i + 1;
      } else if a[i] > b[j] {
        j := j + 1;
      } else {
        out := out + [a[i]];
        i := i + 1;
        j := j + 1;
      }
    }
    assert Merged(a[i..], b[j..]) == [] && out + [] == out;
    MergedIff(a, b);
  }

  predicate InEvery(lists: seq<seq<nat>>, x: nat) { forall l | l in lists :: x in l }

  /** The rest of `intersect`, on the postings of all terms in whatever order they were sorted. */
  method IntersectAll(lists: seq<seq<nat>>) returns (acc: seq<nat>)
    requires |lists| > 0 && forall l | l in lists :: Ascending(l)
    ensures Ascending(acc) && forall x: nat :: x in acc <==> InEvery(lists, x)
  {
    acc := lists[0];
    assert lists[..1] == [lists[0]];
    for k := 1 to |lists|
      invariant Ascending(acc) && forall x: nat :: x in acc <==> InEvery(lists[..k], x)
    {
      assert lists[..k + 1] == lists[..k] + [lists[k]];
      if |acc| == 0 {
        assert forall x: nat :: x in acc <==> InEvery(lists, x) by {
          forall x: nat ensures !InEvery(lists, x) {
            assert x !in acc;
            var l :| l in lists[..k] && x !in l;
            assert l in lists;
          }
        }
        return;
      }
      acc := MergeIntersect(acc, lists[k]);
    }
    assert lists[..|lists|] == lists;
  }

  /** `TermIndex::intersect`: exactly the blocks that hold every term; none for no terms. */
  method Intersect(postings: map<Term, seq<nat>>, terms: seq<Term>, ghost blocks: seq<Block>, tools: Tools)
      returns (r: seq<nat>)
    requires Posted(postings, blocks, tools.tok)
    ensures r == Positions(blocks, Holding(TermMatch(terms), tools))
  {
    hide Positions, Posted, Ascending;
    PositionsIff(blocks, Holding(TermMatch(terms), tools));
    r := [];
    if terms == [] {
      NoneHold(blocks, terms, tools);
      return;
    }
    var lists: seq<seq<nat>> := [];
    for k := 0 to |terms|
      invariant |lists| == k && forall i | 0 <= i < k :: lists[i] == Get(postings, terms[i])
    {
      PostingsOf(postings, blocks, tools.tok, terms[k]);
      if Get(postings, terms[k]) == [] {
        assert terms[k] in terms;
        NoneHold(blocks, terms, tools);
        return;
      }
      lists := lists + [postings[terms[k]]];
    }
    var sorted :| multiset(sorted) == multiset(lists);
    SameElements(sorted, lists);
    forall l | l in lists ensures Ascending(l) {
      var i :| 0 <= i < |lists| && lists[i] == l;
      PostingsOf(postings, blocks, tools.tok, terms[i]);
    }
    assert |multiset(sorted)| == |sorted|;
    r := IntersectAll(sorted);
    assert forall x: nat :: InEvery(sorted, x) <==> InEvery(lists, x);
    InAll(postings, blocks, tools, terms, lists);
    AscendingSame(r, Positions(blocks, Holding(TermMatch(terms), tools)));
  }

  lemma SameElements<T>(a: seq<T>, b: seq<T>)
    requires multiset(a) == multiset(b)
    ensures |a| == |b| && forall x: T :: x in a <==> x in b
  {
    assert |multiset(a)| == |a| && |multiset(b)| == |b|;
    forall x: T ensures x in a <==> x in b {
      assert x in multiset(a) <==> x in multiset(b);
    }
  }

  lemma PostingsOf(postings: map<Term, seq<nat>>, blocks: seq<Block>, tok: Text -> seq<Term>, t: Term)
    requires Posted(postings, blocks, tok)
    ensures Ascending(Get(postings, t))
    ensures forall i: nat :: i in Get(postings, t) <==> i < |blocks| && t in tok(blocks[i].content)
  {
    PositionsIff(blocks, HasTerm(tok, t));
  }

  lemma {:induction false} NoneHold(blocks: seq<Block>, terms: seq<Term>, tools: Tools)
    requires terms == [] || exists t :: t in terms && forall i | 0 <= i < |blocks| :: t !in tools.tok(blocks[i].content)
    ensures Positions(blocks, Holding(TermMatch(terms), tools)) == []
  {
    hide Positions, Ascending;
    forall i | 0 <= i < |blocks| ensures !HintHolds(TermMatch(terms), tools, blocks[i]) {
      if terms != [] {
        var t :| t in terms && forall i | 0 <= i < |blocks| :: t !in tools.tok(blocks[i].content);
      }
    }
    PositionsIff(blocks, Holding(TermMatch(terms), tools));
    if Positions(blocks, Holding(TermMatch(terms), tools)) != [] {
      HasAnElement(Positions(blocks, Holding(TermMatch(terms), tools)));
    }
  }

  lemma InAll(postings: map<Term, seq<nat>>, blocks: seq<Block>, tools: Tools, terms: seq<Term>, lists: seq<seq<nat>>)
    requires Posted(postings, blocks, tools.tok) && |lists| == |terms| > 0
    requires forall i | 0 <= i < |lists| :: lists[i] == Get(postings, terms[i])
    ensures forall x: nat :: InEvery(lists, x) <==>
      0 <= x < |blocks| && HintHolds(TermMatch(terms), tools, blocks[x])
  {
    hide Posted;
    forall x: nat ensures InEvery(lists, x) <==>
      0 <= x < |blocks| && HintHolds(TermMatch(terms), tools, blocks[x])
    {
      if InEvery(lists, x) {
        forall t | t in terms ensures 0 <= x < |blocks| && t in tools.tok(blocks[x].content) {
          var i :| 0 <= i < |terms| && terms[i] == t;
          assert lists[i] in lists;
          PostingsOf(postings, blocks, tools.tok, t);
        }
        assert terms[0] in terms;
      } else {
        var l :| l in lists && x !in l;
        var i :| 0 <= i < |lists| && lists[i] == l;
        PostingsOf(postings, blocks, tools.tok, terms[i]);
        assert x !in Get(postings, terms[i]) && terms[i] in terms;
      }
    }
  }

  /** `IndexHint::resolve`: exactly the blocks the hint is about, in block order;
      nothing for a full scan. */
  method Resolve(h: Hint, idx: DocumentIndex, ghost blocks: seq<Block>, tools: Tools) returns (r: Option<seq<nat>>)
    requires Indexes(idx, blocks, tools) && PreAscends(blocks) && (h.PreRange? ==> h.lo <= h.hi)
    ensures r.None? <==> h.FullScan?
    ensures r.Some? ==> r.value == Positions(blocks, Holding(h, tools))
  {
    hide Positions, Posted, Numbered, PreAscends;
    var hits: seq<nat>;
    match h {
      case OfTypes(types) =>
        hits := GetAny(idx.bitmap, types, blocks, tools);
      case PreExact(p) =>
        hits := GetByPre(idx.btree.byPre, p, blocks, tools);
      case PreRange(lo, hi) =>
        hits := RangeByPre(idx.btree.byPre, lo, hi, blocks, tools);
      case ContentExact(c) =>
        hits := Get(idx.hash.byContent, tools.lower(c));
        SamePositions(blocks, HasKey(ContentOf(tools.lower), tools.lower(c)), Holding(h, tools));
      case LangExact(l) =>
        hits := Get(idx.hash.byLang, l);
        SamePositions(blocks, HasKey(LangOf(), l), Holding(h, tools));
      case DepthExact(d) =>
        hits := Get(idx.hash.byDepth, d);
        SamePositions(blocks, HasKey(DepthOf(), d), Holding(h, tools));
      case TermMatch(terms) =>
        hits := Intersect(idx.term.postings, terms, blocks, tools);
      case FullScan =>
        return None;
    }
    r := Some(hits);
  }
}
