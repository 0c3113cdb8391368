/** Scanning `blocks`: choosing a hint, skipping documents, reading the hinted blocks,
    and the WHERE loop. */
module BlocksScan {
  import opened Bytes
  import opened SqlValue
  import opened SqlExpr
  import opened BlockRows
  import opened HashJoin
  import opened ScanPlan
  import opened ZoneMaps
  import SI = SecondaryIndexes
  import SM = SqlMeaning
  import SX = SectionIndex
  import BC = BlockCodec

  datatype Document = Document(id: nat, blocks: seq<BC.Block>, zones: Zones, others: seq<Others>)

  /** A document as indexing leaves it: blocks numbered upwards, zone maps and indexes built from them. */
  ghost predicate DocOk(doc: Document, idx: SI.DocumentIndex, tools: SI.Tools) {
    |doc.others| == |doc.blocks| && SI.Indexes(idx, doc.blocks, tools) && SI.PreAscends(doc.blocks) &&
    ZonesOf(doc.zones, doc.blocks) && forall b | b in doc.blocks :: b.pre < 0x1_0000_0000
  }

  ghost predicate DocsOk(docs: seq<Document>, idxs: seq<SI.DocumentIndex>, tools: SI.Tools) {
    |idxs| == |docs| && forall d | 0 <= d < |docs| :: DocOk(docs[d], idxs[d], tools)
  }

  /** Documents that the zone maps rule out are covered by them: they look at the depth of
      headings and the language of code only, and no other block there carries one they miss. */
  ghost predicate SkippedAreCovered(docs: seq<Document>, w: Expr) {
    forall d | 0 <= d < |docs| && Skips(docs[d].zones, RequiredBy(Conjuncts(w))) :: Covers(docs[d].zones, docs[d].blocks)
  }

  /** Blocks numbered by `build_blocks` are numbered upwards, and below 2^32. */
  lemma {:induction false} NumberingAscends(nodes: seq<SX.Node>, blocks: seq<BC.Block>)
    requires 2 * (|nodes| + 1) <= 0x1_0000_0000
    requires |blocks| == |SX.Blocks(nodes, |nodes|)|
    requires forall i | 0 <= i < |blocks| :: blocks[i].pre == SX.Blocks(nodes, |nodes|)[i].pre
    ensures SI.PreAscends(blocks) && forall b | b in blocks :: b.pre < 0x1_0000_0000
  {
    hide SX.Pre, SX.Post, SX.Blocks;
    SX.BlocksInOrder(nodes, |nodes|);
    forall b | b in blocks ensures b.pre < 0x1_0000_0000 {
      var i :| 0 <= i < |blocks| && blocks[i] == b;
      SX.Bounds(nodes, SX.Blocks(nodes, |nodes|)[i].slot);
    }
  }

  // The full scan

  function SpotOf(prefix: Text, doc: Document, i: nat, start: nat): Spot
    requires i < |doc.others|
  {
    Spot(prefix, doc.id, start + i, doc.others[i])
  }

  function RowAt(prefix: Text, doc: Document, i: nat, start: nat): Row
    requires i < |doc.blocks| == |doc.others|
  {
    RowOf(SpotOf(prefix, doc, i, start), doc.blocks[i])
  }

  predicate InDoc(doc: Document, at: seq<nat>) { forall j | 0 <= j < |at| :: at[j] < |doc.blocks| }

  /** The rows of the blocks at the given places of a document. */
  function RowsAt(prefix: Text, doc: Document, start: nat, at: seq<nat>): (rows: seq<Row>)
    requires |doc.blocks| == |doc.others| && InDoc(doc, at)
  {
    if |at| == 0 then []
    else
      RowsAt(prefix, doc, start, at[..|at| - 1]) + [RowAt(prefix, doc, at[|at| - 1], start)]
  }

  /** The rows of the first `k` blocks. */
  function FirstRows(prefix: Text, doc: Document, start: nat, k: nat): seq<Row>
    requires k <= |doc.blocks| == |doc.others|
  {
    if k == 0 then [] else FirstRows(prefix, doc, start, k - 1) + [RowAt(prefix, doc, k - 1, start)]
  }

  predicate Shaped(docs: seq<Document>) {
    forall d | 0 <= d < |docs| :: |docs[d].others| == |docs[d].blocks|
  }

  /** The id of the first block of document `n`. */
  function Start(docs: seq<Document>, n: nat): nat
    requires n <= |docs|
  {
    if n == 0 then 0 else Start(docs, n - 1) + |docs[n - 1].blocks|
  }

  /** All rows of the first `n` documents. */
  function AllRows(prefix: Text, docs: seq<Document>, n: nat): seq<Row>
    requires n <= |docs| && Shaped(docs)
  {
    if n == 0 then []
    else AllRows(prefix, docs, n - 1) + FirstRows(prefix, docs[n - 1], Start(docs, n - 1), |docs[n - 1].blocks|)
  }

  /** `retain`. */
  /** The rows of a full scan are the blocks of all documents, in order and counted from 0. */
  lemma {:induction false} RowsAreCounted(prefix: Text, docs: seq<Document>, n: nat, d: nat, i: nat, g: Engine)
    requires d < n <= |docs| && Shaped(docs) && i < |docs[d].blocks|
    ensures |AllRows(prefix, docs, n)| == Start(docs, n)
    ensures var k := Start(docs, d) + i;
      k < Start(docs, n) &&
      var row := AllRows(prefix, docs, n)[k];
      Eval(Ident(ID), row, g) == Int(k) && Eval(Ident(DOCUMENT_ID), row, g) == Int(docs[d].id) &&
      Eval(Ident(CONTENT), row, g) == Str(docs[d].blocks[i].content) && Eval(Ident(PRE), row, g) == Int(docs[d].blocks[i].pre)
  {
    hide RowAt, Eval;
    RowsAreMany(prefix, docs, n);
    RowStands(prefix, docs, n, d, i);
    RowHolds(prefix, docs[d], i, Start(docs, d), g);
  }

  lemma RowHolds(prefix: Text, doc: Document, i: nat, start: nat, g: Engine)
    requires i < |doc.blocks| == |doc.others|
    ensures var row := RowAt(prefix, doc, i, start);
      Eval(Ident(ID), row, g) == Int(start + i) && Eval(Ident(DOCUMENT_ID), row, g) == Int(doc.id) &&
      Eval(Ident(CONTENT), row, g) == Str(doc.blocks[i].content) && Eval(Ident(PRE), row, g) == Int(doc.blocks[i].pre)
  {
    hide Eval, BlockRow;
    CellsAre(prefix, doc.id, doc.blocks[i], start + i, doc.others[i], g);
  }

  lemma {:induction false} RowsAreMany(prefix: Text, docs: seq<Document>, n: nat)
    requires n <= |docs| && Shaped(docs)
    ensures |AllRows(prefix, docs, n)| == Start(docs, n)
  {
    if n > 0 {
      RowsAreMany(prefix, docs, n - 1);
      FirstRowsAre(prefix, docs[n - 1], Start(docs, n - 1), |docs[n - 1].blocks|);
    }
  }

  lemma {:induction false} FirstRowsAre(prefix: Text, doc: Document, start: nat, k: nat)
    requires k <= |doc.blocks| == |doc.others|
    ensures |FirstRows(prefix, doc, start, k)| == k
    ensures forall i | 0 <= i < k :: FirstRows(prefix, doc, start, k)[i] == RowAt(prefix, doc, i, start)
  {
    hide RowAt;
    if k > 0 {
      FirstRowsAre(prefix, doc, start, k - 1);
    }
  }

  lemma {:induction false} RowStands(prefix: Text, docs: seq<Document>, n: nat, d: nat, i: nat)
    requires d < n <= |docs| && Shaped(docs) && i < |docs[d].blocks|
    ensures Start(docs, d) + i < Start(docs, n) == |AllRows(prefix, docs, n)|
    ensures AllRows(prefix, docs, n)[Start(docs, d) + i] == RowAt(prefix, docs[d], i, Start(docs, d))
  {
    hide RowAt, FirstRows;
    RowsAreMany(prefix, docs, n);
    RowsAreMany(prefix, docs, n - 1);
    if d < n - 1 {
      RowStands(prefix, docs, n - 1, d, i);
    } else {
      FirstRowsAre(prefix, docs[d], Start(docs, d), |docs[d].blocks|);
    }
  }

  function Filtered(rows: seq<Row>, w: Expr, g: Engine): seq<Row> {
    if |rows| == 0 then []
    else Filtered(rows[..|rows| - 1], w, g) + (if Keeps(w, rows[|rows| - 1], g) then [rows[|rows| - 1]] else [])
  }

  lemma {:induction false} FilteredConcat(a: seq<Row>, b: seq<Row>, w: Expr, g: Engine)
    ensures Filtered(a + b, w, g) == Filtered(a, w, g) + Filtered(b, w, g)
  {
    hide Keeps;
    if |b| == 0 {
      assert a + b == a;
    } else {
      assert (a + b)[..|a + b| - 1] == a + b[..|b| - 1];
      FilteredConcat(a, b[..|b| - 1], w, g);
    }
  }

  lemma {:induction false} FilteredOne(row: Row, w: Expr, g: Engine)
    ensures Filtered([row], w, g) == if Keeps(w, row, g) then [row] else []
  {
    hide Keeps;
    assert [row][..0] == [];
  }

  /** The row loop after the scan. */
  method Where(rows: seq<Row>, w: Expr, g: Engine) returns (kept: seq<Row>)
    ensures kept == Filtered(rows, w, g)
  {
    hide Keeps;
    kept := [];
    for i := 0 to |rows|
      invariant kept == Filtered(rows[..i], w, g)
    {
      assert rows[..i + 1][..i] == rows[..i];
      if Keeps(w, rows[i], g) {
        kept := kept + [rows[i]];
      }
    }
    assert rows[..|rows|] == rows;
  }

  // One document

  /** Every block of the first `k` whose row is kept satisfies `p`. */
  ghost predicate Finds(prefix: Text, doc: Document, start: nat, k: nat, p: BC.Block -> bool, w: Expr, g: Engine)
    requires k <= |doc.blocks| == |doc.others|
  {
    forall i | 0 <= i < k :: Keeps(w, RowAt(prefix, doc, i, start), g) ==> p(doc.blocks[i])
  }

  /** And the other way round. */
  ghost predicate FindsOnly(prefix: Text, doc: Document, start: nat, k: nat, p: BC.Block -> bool, w: Expr, g: Engine)
    requires k <= |doc.blocks| == |doc.others|
  {
    forall i | 0 <= i < k :: p(doc.blocks[i]) ==> Keeps(w, RowAt(prefix, doc, i, start), g)
  }

  function Hits(doc: Document, p: BC.Block -> bool, k: nat): (at: seq<nat>)
    requires k <= |doc.blocks|
    ensures InDoc(doc, at)
  {
    SI.PositionsIff(doc.blocks[..k], p);
    var at := SI.Positions(doc.blocks[..k], p);
    assert forall j | 0 <= j < |at| :: at[j] in at;
    at
  }

  lemma HitsStep(doc: Document, p: BC.Block -> bool, k: nat)
    requires 0 < k <= |doc.blocks|
    ensures Hits(doc, p, k) == Hits(doc, p, k - 1) + (if p(doc.blocks[k - 1]) then [k - 1] else [])
  {
    hide SI.Positions;
    SI.PositionsStep(doc.blocks, p, k - 1);
  }

  lemma FirstRowsStep(prefix: Text, doc: Document, start: nat, k: nat, w: Expr, g: Engine)
    requires 0 < k <= |doc.blocks| == |doc.others|
    ensures var row := RowAt(prefix, doc, k - 1, start);
      Filtered(FirstRows(prefix, doc, start, k), w, g) ==
        Filtered(FirstRows(prefix, doc, start, k - 1), w, g) + (if Keeps(w, row, g) then [row] else [])
  {
    hide Keeps, RowAt;
    var row := RowAt(prefix, doc, k - 1, start);
    FilteredOne(row, w, g);
    FilteredConcat(FirstRows(prefix, doc, start, k - 1), [row], w, g);
  }

  lemma {:induction false} HitRowsStep(prefix: Text, doc: Document, start: nat, k: nat, p: BC.Block -> bool, w: Expr, g: Engine)
    requires 0 < k <= |doc.blocks| == |doc.others|
    ensures var row := RowAt(prefix, doc, k - 1, start);
      var before, now := RowsAt(prefix, doc, start, Hits(doc, p, k - 1)), RowsAt(prefix, doc, start, Hits(doc, p, k));
      if p(doc.blocks[k - 1])
      then now == before + [row] && Filtered(now, w, g) == Filtered(before, w, g) + (if Keeps(w, row, g) then [row] else [])
      else now == before
  {
    hide Keeps, RowAt, Hits, Filtered;
    HitsStep(doc, p, k);
    if p(doc.blocks[k - 1]) {
      var row := RowAt(prefix, doc, k - 1, start);
      RowsAtAppend(prefix, doc, start, Hits(doc, p, k - 1), k - 1);
      FilteredOne(row, w, g);
      FilteredConcat(RowsAt(prefix, doc, start, Hits(doc, p, k - 1)), [row], w, g);
      assert Hits(doc, p, k) == Hits(doc, p, k - 1) + [k - 1];
      assert RowsAt(prefix, doc, start, Hits(doc, p, k)) == RowsAt(prefix, doc, start, Hits(doc, p, k - 1)) + [row];
    } else {
      assert Hits(doc, p, k) == Hits(doc, p, k - 1);
    }
  }

  /** Filtering the rows of the hits is filtering all rows; if every hit is kept, it is not needed. */
  lemma {:induction false} PickedRows(prefix: Text, doc: Document, start: nat, k: nat, p: BC.Block -> bool, w: Expr, g: Engine)
    requires k <= |doc.blocks| == |doc.others| && Finds(prefix, doc, start, k, p, w, g)
    ensures Filtered(RowsAt(prefix, doc, start, Hits(doc, p, k)), w, g) == Filtered(FirstRows(prefix, doc, start, k), w, g)
    ensures FindsOnly(prefix, doc, start, k, p, w, g) ==>
      RowsAt(prefix, doc, start, Hits(doc, p, k)) == Filtered(FirstRows(prefix, doc, start, k), w, g)
  {
    hide Keeps, RowAt, Hits, RowsAt, FirstRows, Filtered;
    if k == 0 {
      NoRows(prefix, doc, start, p, w, g);
    } else {
      PickedRows(prefix, doc, start, k - 1, p, w, g);
      FirstRowsStep(prefix, doc, start, k, w, g);
      HitRowsStep(prefix, doc, start, k, p, w, g);
    }
  }

  lemma {:induction false} NoRows(prefix: Text, doc: Document, start: nat, p: BC.Block -> bool, w: Expr, g: Engine)
    requires |doc.blocks| == |doc.others|
    ensures RowsAt(prefix, doc, start, Hits(doc, p, 0)) == [] == FirstRows(prefix, doc, start, 0)
    ensures Filtered(FirstRows(prefix, doc, start, 0), w, g) == []
  {
    NoPositions(doc.blocks[..0], p);
  }

  lemma {:induction false} NoPositions(blocks: seq<BC.Block>, p: BC.Block -> bool)
    requires blocks == []
    ensures SI.Positions(blocks, p) == []
  {
  }

  lemma {:induction false} RowsAtAppend(prefix: Text, doc: Document, start: nat, at: seq<nat>, i: nat)
    requires |doc.blocks| == |doc.others| && InDoc(doc, at) && i < |doc.blocks|
    ensures InDoc(doc, at + [i])
    ensures RowsAt(prefix, doc, start, at + [i]) == RowsAt(prefix, doc, start, at) + [RowAt(prefix, doc, i, start)]
  {
    hide RowAt;
    assert (at + [i])[..|at|] == at;
  }

  /** The rows of the hinted blocks of one document. */
  method HintedRows(prefix: Text, doc: Document, start: nat, at: seq<nat>) returns (rows: seq<Row>)
    requires |doc.blocks| == |doc.others| && InDoc(doc, at)
    ensures rows == RowsAt(prefix, doc, start, at)
  {
    hide RowAt;
    rows := [];
    for k := 0 to |at|
      invariant rows == RowsAt(prefix, doc, start, at[..k])
    {
      assert at[..k + 1][..k] == at[..k];
      rows := rows + [RowAt(prefix, doc, at[k], start)];
    }
    assert at[..|at|] == at;
  }

  method FullRows(prefix: Text, doc: Document, start: nat) returns (rows: seq<Row>)
    requires |doc.blocks| == |doc.others|
    ensures rows == FirstRows(prefix, doc, start, |doc.blocks|)
  {
    hide RowAt;
    rows := [];
    for i := 0 to |doc.blocks|
      invariant rows == FirstRows(prefix, doc, start, i)
    {
      rows := rows + [RowAt(prefix, doc, i, start)];
    }
  }

  /** The hint is one the planner may have read off the WHERE clause, or none. */
  ghost predicate HintFrom(h: Hint, w: Expr, g: Engine) {
    h == SI.FullScan || Gives(Conjuncts(w), h, g)
  }

  /** The WHERE clause is a bare `match()`, parentheses aside, and the hint is its terms. */
  predicate FullyIndexed(h: Hint, w: Expr) {
    h.TermMatch? && |Conjuncts(w)| == 1 && Conjuncts(w)[0].Match?
  }

  lemma HintFinds(h: Hint, w: Expr, prefix: Text, doc: Document, idx: SI.DocumentIndex, start: nat, g: Engine, tools: SI.Tools)
    requires HintFrom(h, w, g) && WhereOk(w) && DocOk(doc, idx, tools) && g.tok == tools.tok
    ensures Finds(prefix, doc, start, |doc.blocks|, SI.Holding(h, tools), w, g)
  {
    hide Keeps, Conjuncts, HintFor, ConjunctOk, BlockRow, SI.Indexes, SI.PreAscends, ZonesOf, Covers;
    if h != SI.FullScan {
      var c :| c in Conjuncts(w) && HintFor(c, g) == h;
      forall i | 0 <= i < |doc.blocks| && Keeps(w, RowAt(prefix, doc, i, start), g)
        ensures SI.Holding(h, tools)(doc.blocks[i])
      {
        assert doc.blocks[i] in doc.blocks;
        WhereImpliesHint(w, c, SpotOf(prefix, doc, i, start), doc.blocks[i], g, tools);
      }
    }
  }

  lemma HintFindsOnly(h: Hint, w: Expr, prefix: Text, doc: Document, idx: SI.DocumentIndex, start: nat, g: Engine, tools: SI.Tools)
    requires HintFrom(h, w, g) && FullyIndexed(h, w) && DocOk(doc, idx, tools) && g.tok == tools.tok
    ensures FindsOnly(prefix, doc, start, |doc.blocks|, SI.Holding(h, tools), w, g)
  {
    hide Keeps, Conjuncts, HintFor, BlockRow, SI.Indexes, SI.PreAscends, ZonesOf, Covers;
    var m := Conjuncts(w)[0];
    assert HintFor(m, g) == h;
    forall i | 0 <= i < |doc.blocks| && SI.Holding(h, tools)(doc.blocks[i])
      ensures Keeps(w, RowAt(prefix, doc, i, start), g)
    {
      MatchHintExact(m, SpotOf(prefix, doc, i, start), doc.blocks[i], g, tools);
      BareKeeps(w, RowAt(prefix, doc, i, start), g);
    }
  }

  /** Parentheses around a single conjunct do not matter, nor does folding. */
  lemma {:induction false} BareKeeps(w: Expr, row: Row, g: Engine)
    requires |Conjuncts(w)| == 1 && Conjuncts(w)[0].Match?
    ensures Keeps(w, row, g) <==> Truthy(Eval(Conjuncts(w)[0], row, g))
    decreases w
  {
    match w
    case Nested(x) =>
      BareKeeps(x, row, g);
      ConjunctNotConstant(w, Conjuncts(w)[0]);
      FoldInsideConstant(w, g);
    case Match(_, _) => assert Fold(w, g) == w;
    case _ =>
  }

  predicate NotInverted(h: Hint) { h.PreRange? ==> h.lo <= h.hi }

  /** No BETWEEN on `pre` gives an inverted range, on which the index lookup panics. */
  ghost predicate NoneInverted(w: Expr, g: Engine) { forall c | c in Conjuncts(w) :: NotInverted(HintFor(c, g)) }

  lemma OkIsNotInverted(w: Expr, g: Engine)
    requires WhereOk(w)
    ensures NoneInverted(w, g)
  {
    hide Conjuncts;
    forall c | c in Conjuncts(w) ensures NotInverted(HintFor(c, g)) {
      ConjunctNotNested(w, c);
      assert ConjunctOk(c);
    }
  }

  lemma FullIsNotInverted()
    ensures NotInverted(SI.FullScan)
  {
  }

  // What the scan reads

  /** The rows read of one document, skipped, hinted or scanned. */
  ghost function Scanned(prefix: Text, doc: Document, start: nat, h: Hint, w: Expr, tools: SI.Tools): seq<Row>
    requires |doc.blocks| == |doc.others|
  {
    if Skips(doc.zones, RequiredBy(Conjuncts(w))) then []
    else if h.FullScan? then FirstRows(prefix, doc, start, |doc.blocks|)
    else RowsAt(prefix, doc, start, Hits(doc, SI.Holding(h, tools), |doc.blocks|))
  }

  ghost function AllScanned(prefix: Text, docs: seq<Document>, n: nat, h: Hint, w: Expr, tools: SI.Tools): seq<Row>
    requires n <= |docs| && Shaped(docs)
  {
    if n == 0 then []
    else AllScanned(prefix, docs, n - 1, h, w, tools) + Scanned(prefix, docs[n - 1], Start(docs, n - 1), h, w, tools)
  }

  lemma {:induction false} FilteredNone(w: Expr, g: Engine)
    ensures Filtered([], w, g) == []
  {
  }

  lemma NotFullyIndexed(h: Hint, w: Expr)
    requires h.FullScan?
    ensures !FullyIndexed(h, w)
  {
  }

  lemma {:induction false} NothingToFind(prefix: Text, doc: Document, start: nat, k: nat, w: Expr, g: Engine, tools: SI.Tools)
    requires k <= |doc.blocks| == |doc.others| && ZonesOf(doc.zones, doc.blocks) && Covers(doc.zones, doc.blocks)
    requires (forall b | b in doc.blocks :: b.pre < 0x1_0000_0000) && g.tok == tools.tok
    requires Skips(doc.zones, RequiredBy(Conjuncts(w)))
    ensures Filtered(FirstRows(prefix, doc, start, k), w, g) == []
  {
    hide Keeps, ZonesOf, Covers, Skips, RequiredBy, Conjuncts, BlockRow;
    if k > 0 {
      NothingToFind(prefix, doc, start, k - 1, w, g, tools);
      assert doc.blocks[k - 1] in doc.blocks;
      SkipSound(doc.zones, doc.blocks, w, SpotOf(prefix, doc, k - 1, start), doc.blocks[k - 1], g, tools);
      FilteredConcat(FirstRows(prefix, doc, start, k - 1), [RowAt(prefix, doc, k - 1, start)], w, g);
      FilteredOne(RowAt(prefix, doc, k - 1, start), w, g);
    }
  }

  /** No row of the document that WHERE keeps is missed. */
  lemma ScannedFinds(prefix: Text, doc: Document, idx: SI.DocumentIndex, start: nat, h: Hint, w: Expr, g: Engine, tools: SI.Tools)
    requires HintFrom(h, w, g) && WhereOk(w) && DocOk(doc, idx, tools) && g.tok == tools.tok
    requires Skips(doc.zones, RequiredBy(Conjuncts(w))) ==> Covers(doc.zones, doc.blocks)
    ensures var rows := Scanned(prefix, doc, start, h, w, tools);
      var all := Filtered(FirstRows(prefix, doc, start, |doc.blocks|), w, g);
      Filtered(rows, w, g) == all && (FullyIndexed(h, w) ==> rows == all)
  {
    hide Keeps, Conjuncts, RequiredBy, Skips, HintFrom, FullyIndexed, WhereOk, SI.Positions, SI.Indexes, ZonesOf, Covers, SI.PreAscends,
      FindsOnly, Finds, Filtered, FirstRows, RowsAt;
    if Skips(doc.zones, RequiredBy(Conjuncts(w))) {
      NothingToFind(prefix, doc, start, |doc.blocks|, w, g, tools);
      FilteredNone(w, g);
    } else if h.FullScan? {
      NotFullyIndexed(h, w);
    } else {
      HintFinds(h, w, prefix, doc, idx, start, g, tools);
      PickedRows(prefix, doc, start, |doc.blocks|, SI.Holding(h, tools), w, g);
      if FullyIndexed(h, w) {
        HintFindsOnly(h, w, prefix, doc, idx, start, g, tools);
      }
    }
  }

  lemma {:induction false} AllScannedFind(prefix: Text, docs: seq<Document>, idxs: seq<SI.DocumentIndex>, n: nat, h: Hint, w: Expr,
                                          g: Engine, tools: SI.Tools)
    requires n <= |docs| && Shaped(docs) && HintFrom(h, w, g) && WhereOk(w) && DocsOk(docs, idxs, tools) && SkippedAreCovered(docs, w)
    requires g.tok == tools.tok
    ensures var rows := AllScanned(prefix, docs, n, h, w, tools);
      var all := Filtered(AllRows(prefix, docs, n), w, g);
      Filtered(rows, w, g) == all && (FullyIndexed(h, w) ==> rows == all)
  {
    hide Keeps, HintFrom, FullyIndexed, WhereOk, DocOk, Filtered, FirstRows, Covers, Skips, RequiredBy, Conjuncts, Scanned;
    if n == 0 {
      FilteredNone(w, g);
    } else {
      AllScannedFind(prefix, docs, idxs, n - 1, h, w, g, tools);
      var (doc, start) := (docs[n - 1], Start(docs, n - 1));
      ScannedFinds(prefix, doc, idxs[n - 1], start, h, w, g, tools);
      FilteredConcat(AllScanned(prefix, docs, n - 1, h, w, tools), Scanned(prefix, doc, start, h, w, tools), w, g);
      FilteredConcat(AllRows(prefix, docs, n - 1), FirstRows(prefix, doc, start, |doc.blocks|), w, g);
    }
  }

  lemma {:induction false} RowsAtAre(prefix: Text, doc: Document, start: nat, at: seq<nat>)
    requires |doc.blocks| == |doc.others| && InDoc(doc, at)
    ensures forall r | r in RowsAt(prefix, doc, start, at) :: exists j :: 0 <= j < |at| && r == RowAt(prefix, doc, at[j], start)
  {
    hide RowAt;
    if |at| > 0 {
      RowsAtAre(prefix, doc, start, at[..|at| - 1]);
    }
  }

  lemma {:induction false} FirstRowsHave(prefix: Text, doc: Document, start: nat, k: nat, i: nat)
    requires i < k <= |doc.blocks| == |doc.others|
    ensures RowAt(prefix, doc, i, start) in FirstRows(prefix, doc, start, k)
  {
    hide RowAt;
    if i < k - 1 {
      FirstRowsHave(prefix, doc, start, k - 1, i);
    }
  }

  /** Whatever is skipped or hinted, only rows of the document are read, and rows that are
      not checked again satisfy WHERE. */
  lemma ScannedOnly(prefix: Text, doc: Document, idx: SI.DocumentIndex, start: nat, h: Hint, w: Expr, g: Engine, tools: SI.Tools)
    requires HintFrom(h, w, g) && DocOk(doc, idx, tools) && g.tok == tools.tok
    ensures forall r | r in Scanned(prefix, doc, start, h, w, tools) ::
      r in FirstRows(prefix, doc, start, |doc.blocks|) && (FullyIndexed(h, w) ==> Keeps(w, r, g))
  {
    hide Keeps, Conjuncts, RequiredBy, Skips, HintFrom, FullyIndexed, SI.Positions, SI.Indexes, ZonesOf, SI.PreAscends,
      Filtered, FirstRows, RowsAt, RowAt;
    if h.FullScan? {
      NotFullyIndexed(h, w);
    } else {
      var at := Hits(doc, SI.Holding(h, tools), |doc.blocks|);
      RowsAtAre(prefix, doc, start, at);
      HitsHold(doc, SI.Holding(h, tools));
      if FullyIndexed(h, w) {
        HintFindsOnly(h, w, prefix, doc, idx, start, g, tools);
      }
      forall r | r in RowsAt(prefix, doc, start, at)
        ensures r in FirstRows(prefix, doc, start, |doc.blocks|) && (FullyIndexed(h, w) ==> Keeps(w, r, g))
      {
        var j :| 0 <= j < |at| && r == RowAt(prefix, doc, at[j], start);
        FirstRowsHave(prefix, doc, start, |doc.blocks|, at[j]);
      }
    }
  }

  lemma HitsHold(doc: Document, p: BC.Block -> bool)
    ensures var at := Hits(doc, p, |doc.blocks|); forall j | 0 <= j < |at| :: p(doc.blocks[at[j]])
  {
    hide SI.Positions;
    assert doc.blocks[..|doc.blocks|] == doc.blocks;
    SI.PositionsIff(doc.blocks, p);
    var at := Hits(doc, p, |doc.blocks|);
    assert forall j | 0 <= j < |at| :: at[j] in at;
  }

  lemma {:induction false} AllScannedOnly(prefix: Text, docs: seq<Document>, idxs: seq<SI.DocumentIndex>, n: nat, h: Hint, w: Expr,
                                          g: Engine, tools: SI.Tools)
    requires n <= |docs| && Shaped(docs) && HintFrom(h, w, g) && DocsOk(docs, idxs, tools) && g.tok == tools.tok
    ensures forall r | r in AllScanned(prefix, docs, n, h, w, tools) ::
      r in AllRows(prefix, docs, n) && (FullyIndexed(h, w) ==> Keeps(w, r, g))
  {
    hide Keeps, HintFrom, FullyIndexed, DocOk, Scanned, FirstRows;
    if n > 0 {
      AllScannedOnly(prefix, docs, idxs, n - 1, h, w, g, tools);
      ScannedOnly(prefix, docs[n - 1], idxs[n - 1], Start(docs, n - 1), h, w, g, tools);
    }
  }

  lemma {:induction false} FilteredOnly(rows: seq<Row>, w: Expr, g: Engine)
    ensures forall r :: r in Filtered(rows, w, g) <==> r in rows && Keeps(w, r, g)
  {
    hide Keeps;
    if |rows| > 0 {
      FilteredOnly(rows[..|rows| - 1], w, g);
      assert rows == rows[..|rows| - 1] + [rows[|rows| - 1]];
    }
  }

  /** What one document contributes. */
  method ScanDocument(prefix: Text, doc: Document, idx: SI.DocumentIndex, start: nat, h: Hint, w: Expr, tools: SI.Tools)
      returns (rows: seq<Row>)
    requires DocOk(doc, idx, tools) && NotInverted(h)
    ensures rows == Scanned(prefix, doc, start, h, w, tools)
  {
    hide Conjuncts, RequiredBy, Skips, SI.Positions, SI.Indexes, ZonesOf, SI.PreAscends, FirstRows, RowsAt;
    var skip := ZoneMapSkip(doc.zones, w);
    if skip {
      return [];
    }
    var hits := SI.Resolve(h, idx, doc.blocks, tools);
    if hits.None? {
      rows := FullRows(prefix, doc, start);
      return;
    }
    assert Hits(doc, SI.Holding(h, tools), |doc.blocks|) == hits.value by {
      assert doc.blocks[..|doc.blocks|] == doc.blocks;
    }
    rows := HintedRows(prefix, doc, start, hits.value);
  }

  /** The `blocks` arm of `table_rows_unqualified`, for a filtered scan. Ids count all blocks,
      skipped documents included, below 2^32. */
  method TableRows(prefix: Text, docs: seq<Document>, idxs: seq<SI.DocumentIndex>, h: Hint, w: Expr, ghost g: Engine, tools: SI.Tools)
      returns (rows: seq<Row>)
    requires HintFrom(h, w, g) && NotInverted(h) && DocsOk(docs, idxs, tools) && g.tok == tools.tok && Shaped(docs)
    ensures forall r | r in rows :: r in AllRows(prefix, docs, |docs|) && (FullyIndexed(h, w) ==> Keeps(w, r, g))
    ensures WhereOk(w) && SkippedAreCovered(docs, w) ==>
      var all := Filtered(AllRows(prefix, docs, |docs|), w, g);
      Filtered(rows, w, g) == all && (FullyIndexed(h, w) ==> rows == all)
  {
    hide Keeps, HintFrom, FullyIndexed, WhereOk, SkippedAreCovered, DocOk, Filtered, FirstRows, Scanned, NotInverted;
    rows := [];
    var globalIdx := 0;
    for d := 0 to |docs|
      invariant globalIdx == Start(docs, d)
      invariant rows == AllScanned(prefix, docs, d, h, w, tools)
    {
      var more := ScanDocument(prefix, docs[d], idxs[d], globalIdx, h, w, tools);
      rows := rows + more;
      globalIdx := globalIdx + |docs[d].blocks|;
    }
    AllScannedOnly(prefix, docs, idxs, |docs|, h, w, g, tools);
    if WhereOk(w) && SkippedAreCovered(docs, w) {
      AllScannedFind(prefix, docs, idxs, |docs|, h, w, g, tools);
    }
  }

  method FullTable(prefix: Text, docs: seq<Document>) returns (rows: seq<Row>)
    requires Shaped(docs)
    ensures rows == AllRows(prefix, docs, |docs|)
  {
    rows := [];
    var globalIdx := 0;
    for d := 0 to |docs|
      invariant globalIdx == Start(docs, d) && rows == AllRows(prefix, docs, d)
    {
      var more := FullRows(prefix, docs[d], globalIdx);
      rows := rows + more;
      globalIdx := globalIdx + |docs[d].blocks|;
    }
  }

  // Choosing the hint

  /** How many blocks the hint reads. */
  ghost function Cost(h: Hint, docs: seq<Document>, tools: SI.Tools): nat {
    if |docs| == 0 then 0
    else
      var last := docs[|docs| - 1];
      Cost(h, docs[..|docs| - 1], tools) +
      (if h.FullScan? then |last.blocks| else |SI.Positions(last.blocks, SI.Holding(h, tools))|)
  }

  /** `estimate_hint_cost`. */
  method EstimateHintCost(h: Hint, docs: seq<Document>, idxs: seq<SI.DocumentIndex>, tools: SI.Tools) returns (cost: nat)
    requires DocsOk(docs, idxs, tools) && NotInverted(h)
    ensures cost == Cost(h, docs, tools)
  {
    hide SI.Positions, SI.Indexes, ZonesOf, Covers, SI.PreAscends;
    cost := 0;
    for d := 0 to |docs|
      invariant cost == Cost(h, docs[..d], tools)
    {
      var hits := SI.Resolve(h, idxs[d], docs[d].blocks, tools);
      assert docs[..d + 1][..d] == docs[..d];
      cost := cost + (if hits.Some? then |hits.value| else |docs[d].blocks|);
    }
    assert docs[..|docs|] == docs;
  }

  /** `choose_best_hint`: the first of the cheapest candidates. */
  method ChooseBestHint(candidates: seq<Hint>, docs: seq<Document>, idxs: seq<SI.DocumentIndex>, tools: SI.Tools)
      returns (best: Hint)
    requires DocsOk(docs, idxs, tools) && forall h | h in candidates :: NotInverted(h)
    ensures candidates == [] ==> best == SI.FullScan
    ensures candidates != [] ==> exists i ::
      (0 <= i < |candidates| && candidates[i] == best &&
       (forall j | 0 <= j < i :: Cost(best, docs, tools) < Cost(candidates[j], docs, tools)) &&
       forall j | i <= j < |candidates| :: Cost(best, docs, tools) <= Cost(candidates[j], docs, tools))
  {
    hide Cost, DocsOk;
    if candidates == [] {
      return SI.FullScan;
    }
    assert candidates[0] in candidates;
    best := candidates[0];
    var cost := EstimateHintCost(best, docs, idxs, tools);
    ghost var at := 0;
    for k := 1 to |candidates|
      invariant 0 <= at < k && candidates[at] == best && cost == Cost(best, docs, tools)
      invariant forall j | 0 <= j < at :: cost < Cost(candidates[j], docs, tools)
      invariant forall j | at <= j < k :: cost <= Cost(candidates[j], docs, tools)
    {
      assert candidates[k] in candidates;
      var other := EstimateHintCost(candidates[k], docs, idxs, tools);
      if other < cost {
        best, cost, at := candidates[k], other, k;
      }
    }
  }

  ghost predicate Gives(cs: seq<Expr>, h: Hint, g: Engine) { exists c :: c in cs && HintFor(c, g) == h }

  lemma {:induction false} GivesMore(cs: seq<Expr>, i: nat, h: Hint, g: Engine)
    requires i < |cs|
    ensures Gives(cs[..i + 1], h, g) <==> Gives(cs[..i], h, g) || h == HintFor(cs[i], g)
  {
    hide HintFor;
    assert cs[..i + 1] == cs[..i] + [cs[i]];
    assert cs[i] in cs[..i + 1];
    assert forall c | c in cs[..i] :: c in cs[..i + 1];
  }

  lemma GivesNone(h: Hint, g: Engine)
    ensures !Gives([], h, g)
  {
  }

  /** `candidate_hints_for_where`. */
  method CandidateHints(w: Expr, g: Engine) returns (hints: seq<Hint>)
    ensures forall h :: h in hints <==> h != SI.FullScan && Gives(Conjuncts(w), h, g)
  {
    hide HintFor, Conjuncts, Gives;
    var cs := Conjuncts(w);
    hints := [];
    forall h: Hint ensures !Gives(cs[..0], h, g) {
      GivesNone(h, g);
    }
    for i := 0 to |cs|
      invariant forall h :: h in hints <==> h != SI.FullScan && Gives(cs[..i], h, g)
    {
      ghost var before := hints;
      var hint := HintFor(cs[i], g);
      if hint != SI.FullScan {
        hints := hints + [hint];
      }
      forall h: Hint ensures h in hints <==> h != SI.FullScan && Gives(cs[..i + 1], h, g) {
        GivesMore(cs, i, h, g);
        assert h in hints <==> h in before || (h == hint && h != SI.FullScan);
      }
    }
    assert cs[..|cs|] == cs;
  }

  /** The scan and WHERE part of `exec_select` over a single unjoined `blocks`. Every row is
      one a full scan followed by WHERE gives, although a bare `match()` is not checked
      again. And if the conjuncts keep what they name and the zone maps cover the blocks,
      then whatever hint is cheapest and whatever documents are skipped, the rows are all
      of those, in the same order and with the same ids. */
  method SelectBlocks(prefix: Text, docs: seq<Document>, idxs: seq<SI.DocumentIndex>, filter: Option<Expr>, g: Engine, tools: SI.Tools)
      returns (rows: seq<Row>)
    requires DocsOk(docs, idxs, tools) && Shaped(docs) && g.tok == tools.tok
    requires filter.Some? ==> NoneInverted(filter.value, g)
    ensures filter.None? ==> rows == AllRows(prefix, docs, |docs|)
    ensures filter.Some? ==> forall r | r in rows :: r in AllRows(prefix, docs, |docs|) && Keeps(filter.value, r, g)
    ensures filter.Some? && WhereOk(filter.value) && SkippedAreCovered(docs, filter.value) ==>
      rows == Filtered(AllRows(prefix, docs, |docs|), filter.value, g)
  {
    hide DocsOk, Shaped, WhereOk, HintFor, Conjuncts, Filtered, AllRows, Cost, SkippedAreCovered, Keeps, FullyIndexed, NotInverted;
    if filter.None? {
      rows := FullTable(prefix, docs);
      return;
    }
    var w := filter.value;
    var candidates := CandidateHints(w, g);
    var h := ChooseBestHint(candidates, docs, idxs, tools);
    assert candidates != [] ==> h in candidates;
    assert HintFrom(h, w, g);
    assert NotInverted(h) by { FullIsNotInverted(); }
    rows := TableRows(prefix, docs, idxs, h, w, g, tools);
    if !FullyIndexed(h, w) {
      FilteredOnly(rows, w, g);
      rows := Where(rows, w, g);
    }
  }

  // A comparison with `pre`

  predicate IsComparison(op: BinOp) { op == Eq || op == NotEq || op == Lt || op == LtEq || op == Gt || op == GtEq }

  predicate Holds(op: BinOp, i: int, n: int)
    requires IsComparison(op)
  {
    match op
    case Eq => i == n case NotEq => i != n case Lt => i < n case LtEq => i <= n case Gt => i > n case GtEq => i >= n
    case _ => assert false; true
  }

  /** `pre < n`, or with another comparison. */
  function PreTest(op: BinOp, n: int): Expr { Binary(Ident(PRE), op, Lit(Number(ToText(n)))) }

  function PreHolds(op: BinOp, n: int): BC.Block -> bool
    requires IsComparison(op)
  {
    (b: BC.Block) => Holds(op, b.pre, n)
  }

  /** The rows of exactly the blocks that satisfy `p`, in order, with the ids of all rows. */
  function AllPicked(prefix: Text, docs: seq<Document>, n: nat, p: BC.Block -> bool): seq<Row>
    requires n <= |docs| && Shaped(docs)
  {
    if n == 0 then []
    else
      var (doc, start) := (docs[n - 1], Start(docs, n - 1));
      AllPicked(prefix, docs, n - 1, p) + RowsAt(prefix, doc, start, Hits(doc, p, |doc.blocks|))
  }

  lemma {:induction false} PreTestFolded(op: BinOp, n: int, g: Engine)
    ensures Fold(PreTest(op, n), g) == PreTest(op, n)
  {
    hide ParseI64, ToText, Eval;
    LeafFolded(Ident(PRE), g);
    LeafFolded(Lit(Number(ToText(n))), g);
  }

  /** WHERE keeps a block's row exactly if its number compares so. */
  lemma PreTestKeeps(op: BinOp, n: int, prefix: Text, doc: Document, i: nat, start: nat, g: Engine)
    requires IsComparison(op) && IsI64(n) && i < |doc.blocks| == |doc.others|
    ensures Keeps(PreTest(op, n), RowAt(prefix, doc, i, start), g) <==> Holds(op, doc.blocks[i].pre, n)
  {
    hide Fold, Eval, ToText, ParseI64;
    PreTestFolded(op, n, g);
    var row := RowAt(prefix, doc, i, start);
    CellsAre(prefix, doc.id, doc.blocks[i], start + i, doc.others[i], g);
    SM.LiteralsMean(n, [], true, row, g);
    SM.IntegersCompare(Ident(PRE), Lit(Number(ToText(n))), doc.blocks[i].pre, n, row, g);
  }

  /** No zone map rules a document out by it, and no hint of it loses a block. */
  lemma PreTestIsOk(op: BinOp, n: int, docs: seq<Document>)
    requires op != And
    ensures WhereOk(PreTest(op, n)) && SkippedAreCovered(docs, PreTest(op, n))
  {
    hide ToText, ParseI64, Covers;
    var w := PreTest(op, n);
    assert Conjuncts(w) == [w];
    assert [w][..0] == [] && RequiredBy([]) == Required(None, None, None, None);
    ColumnNames();
    assert LowerText(PRE) == PRE;
    NamesDiffer();
    assert RequiredBy([w]) == WithConjunct(RequiredBy([]), w);
  }

  lemma NamesDiffer()
    ensures PRE != BLOCK_TYPE && PRE != CONTENT && PRE != SI.LANG && PRE != SI.DEPTH
  {
    assert |PRE| == 3 && |BLOCK_TYPE| == 10 && |CONTENT| == 7 && |SI.LANG| == 4 && |SI.DEPTH| == 5;
  }

  /** So full scan and WHERE, and with them `SelectBlocks`, give exactly the rows of the
      blocks whose number compares so. */
  lemma {:induction false} PreTestSelects(op: BinOp, k: int, prefix: Text, docs: seq<Document>, n: nat, g: Engine)
    requires IsComparison(op) && IsI64(k) && n <= |docs| && Shaped(docs)
    ensures Filtered(AllRows(prefix, docs, n), PreTest(op, k), g) == AllPicked(prefix, docs, n, PreHolds(op, k))
  {
    hide Keeps, PreTest, Filtered, FirstRows, RowAt, RowsAt, Hits, Holds;
    var w := PreTest(op, k);
    if n == 0 {
      FilteredNone(w, g);
    } else {
      var (doc, start) := (docs[n - 1], Start(docs, n - 1));
      PreTestSelects(op, k, prefix, docs, n - 1, g);
      forall i: nat | i < |doc.blocks| ensures Keeps(w, RowAt(prefix, doc, i, start), g) <==> PreHolds(op, k)(doc.blocks[i]) {
        PreTestKeeps(op, k, prefix, doc, i, start, g);
      }
      PickedRows(prefix, doc, start, |doc.blocks|, PreHolds(op, k), w, g);
      FilteredConcat(AllRows(prefix, docs, n - 1), FirstRows(prefix, doc, start, |doc.blocks|), w, g);
    }
  }
}
