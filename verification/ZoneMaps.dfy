/** Zone maps: per-document statistics, and skipping whole documents by them. */
module ZoneMaps {
  import opened Bytes
  import opened SqlValue
  import opened SqlExpr
  import opened BlockRows
  import opened HashJoin
  import opened ScanPlan
  import SI = SecondaryIndexes
  import BC = BlockCodec

  datatype Zones = Zones(maxHeadingDepth: nat, headingContents: set<Text>, codeLanguages: set<Text>)

  /** The part of `ZoneMaps::build` that skipping looks at. */
  ghost predicate ZonesOf(z: Zones, blocks: seq<BC.Block>) {
    (forall b | b in blocks && b.blockType.Heading? :: b.content in z.headingContents) &&
    (forall b | b in blocks && b.blockType.Heading? && SI.HeadingDepth(b).Some? :: SI.HeadingDepth(b).value <= z.maxHeadingDepth) &&
    (forall b | b in blocks && b.blockType.Code? && SI.CodeLang(b).Some? :: SI.CodeLang(b).value in z.codeLanguages) &&
    (forall t | t in z.headingContents :: exists b :: b in blocks && b.blockType.Heading? && b.content == t) &&
    (forall t | t in z.codeLanguages :: exists b :: b in blocks && b.blockType.Code? && SI.CodeLang(b) == Some(t)) &&
    (z.maxHeadingDepth > 0 ==> exists b :: b in blocks && b.blockType.Heading? && SI.HeadingDepth(b) == Some(z.maxHeadingDepth))
  }

  function WithBlock(z: Zones, b: BC.Block): Zones {
    match b.blockType
    case Heading =>
      var d := match SI.HeadingDepth(b) case Some(d) => d case None => 0;
      Zones(if d > z.maxHeadingDepth then d else z.maxHeadingDepth, z.headingContents + {b.content}, z.codeLanguages)
    case Code =>
      (match SI.CodeLang(b) case Some(l) => z.(codeLanguages := z.codeLanguages + {l}) case None => z)
    case _ => z
  }

  lemma ZonesStep(z: Zones, blocks: seq<BC.Block>, b: BC.Block)
    requires ZonesOf(z, blocks)
    ensures ZonesOf(WithBlock(z, b), blocks + [b])
  {
    hide SI.HeadingDepth, SI.CodeLang;
    var y, more := WithBlock(z, b), blocks + [b];
    assert b in more && forall x | x in blocks :: x in more;
    assert forall t | t in y.headingContents :: t in z.headingContents || (t == b.content && b.blockType.Heading?);
    assert forall t | t in y.codeLanguages :: t in z.codeLanguages || (SI.CodeLang(b) == Some(t) && b.blockType.Code?);
  }

  /** `ZoneMaps::build`. */
  method BuildZones(blocks: seq<BC.Block>) returns (z: Zones)
    ensures ZonesOf(z, blocks)
  {
    hide ZonesOf;
    z := Zones(0, {}, {});
    assert ZonesOf(z, blocks[..0]) by { NoZones(blocks[..0]); }
    for i := 0 to |blocks|
      invariant ZonesOf(z, blocks[..i])
    {
      ZonesStep(z, blocks[..i], blocks[i]);
      assert blocks[..i + 1] == blocks[..i] + [blocks[i]];
      z := WithBlock(z, blocks[i]);
    }
    assert blocks[..|blocks|] == blocks;
  }

  lemma NoZones(blocks: seq<BC.Block>)
    requires blocks == []
    ensures ZonesOf(Zones(0, {}, {}), blocks)
  {
  }

  /** The equalities a WHERE clause requires, the last of each kind. */
  datatype Required = Required(blockType: Option<BC.BlockType>, content: Option<Text>, lang: Option<Text>, depth: Option<nat>)

  function WithConjunct(q: Required, c: Expr): Required {
    if !(c.Binary? && c.op == Eq) then q
    else if Subject(c) == Some(BLOCK_TYPE) then
      (if EqStr(c).Some? && TypeFromName(EqStr(c).value).Some? then q.(blockType := TypeFromName(EqStr(c).value)) else q)
    else if Subject(c) == Some(CONTENT) then q.(content := EqStr(c))
    else if Subject(c) == Some(SI.LANG) then
      (if EqStr(c).Some? && EqStr(c).value != [] then q.(lang := EqStr(c)) else q)
    else if Subject(c) == Some(SI.DEPTH) then
      (if EqInt(c).Some? && 0 < EqInt(c).value < 256 then q.(depth := Some(EqInt(c).value)) else q)
    else q
  }

  function RequiredBy(cs: seq<Expr>): Required {
    if |cs| == 0 then Required(None, None, None, None)
    else WithConjunct(RequiredBy(cs[..|cs| - 1]), cs[|cs| - 1])
  }

  predicate Skips(z: Zones, q: Required) {
    (q.lang.Some? && q.lang.value !in z.codeLanguages) ||
    (q.depth.Some? && q.depth.value > z.maxHeadingDepth) ||
    (q.content.Some? && q.blockType == Some(BC.Heading) && forall h | h in z.headingContents :: !EqIgnoreCase(h, q.content.value))
  }

  /** `zone_map_skip`. */
  method ZoneMapSkip(z: Zones, w: Expr) returns (skip: bool)
    ensures skip <==> Skips(z, RequiredBy(Conjuncts(w)))
  {
    hide TypeFromName;
    var cs := Conjuncts(w);
    var eqBlockType: Option<BC.BlockType>, eqContent: Option<Text>, eqLang: Option<Text>, eqDepth: Option<nat> :=
      None, None, None, None;
    for i := 0 to |cs|
      invariant Required(eqBlockType, eqContent, eqLang, eqDepth) == RequiredBy(cs[..i])
    {
      assert cs[..i + 1][..i] == cs[..i];
      var c := cs[i];
      if !(c.Binary? && c.op == Eq) {
        continue;
      }
      var col, val, num := Subject(c), EqStr(c), EqInt(c);
      if col == Some(BLOCK_TYPE) {
        if val.Some? && TypeFromName(val.value).Some? {
          eqBlockType := TypeFromName(val.value);
        }
      } else if col == Some(CONTENT) {
        eqContent := val;
      } else if col == Some(SI.LANG) {
        if val.Some? && val.value != [] {
          eqLang := val;
        }
      } else if col == Some(SI.DEPTH) {
        if num.Some? && 0 <= num.value < 256 && num.value > 0 {
          eqDepth := Some(num.value);
        }
      }
    }
    assert cs[..|cs|] == cs;
    if eqLang.Some? && eqLang.value !in z.codeLanguages {
      return true;
    }
    if eqDepth.Some? && eqDepth.value > z.maxHeadingDepth {
      return true;
    }
    if eqContent.Some? && eqBlockType == Some(BC.Heading) && forall h | h in z.headingContents :: !EqIgnoreCase(h, eqContent.value) {
      return true;
    }
    skip := false;
  }

  // Soundness

  /** The depth and language of a block are among those the zone maps know. */
  predicate KnownTo(z: Zones, b: BC.Block) {
    (SI.HeadingDepth(b).Some? ==> SI.HeadingDepth(b).value <= z.maxHeadingDepth) &&
    (SI.CodeLang(b).Some? && SI.CodeLang(b).value != [] ==> SI.CodeLang(b).value in z.codeLanguages)
  }

  /** No block is deeper than all headings or has a language no code block has. */
  predicate Covers(z: Zones, blocks: seq<BC.Block>) {
    forall b | b in blocks :: KnownTo(z, b)
  }

  /** Only front matter may break this: if just headings carry a depth and just code
      blocks a language, the zone maps cover them all. */
  lemma OrdinaryIsCovered(z: Zones, blocks: seq<BC.Block>)
    requires ZonesOf(z, blocks)
    requires forall b | b in blocks :: SI.HeadingDepth(b).Some? ==> b.blockType.Heading?
    requires forall b | b in blocks :: SI.CodeLang(b).Some? ==> b.blockType.Code?
    ensures Covers(z, blocks)
  {
    hide SI.HeadingDepth, SI.CodeLang;
  }

  /** A conjunct that demands something the zone maps know about. */
  predicate Demands(c: Expr, name: Text) {
    c.Binary? && c.op == Eq && Subject(c) == Some(name)
  }

  lemma {:induction false} RequiredFrom(cs: seq<Expr>)
    ensures RequiredBy(cs).lang.Some? ==>
      exists c :: c in cs && Demands(c, SI.LANG) && EqStr(c) == RequiredBy(cs).lang && RequiredBy(cs).lang.value != []
    ensures RequiredBy(cs).depth.Some? ==>
      exists c :: c in cs && Demands(c, SI.DEPTH) && EqInt(c).Some? && EqInt(c).value == RequiredBy(cs).depth.value && 0 < EqInt(c).value < 256
    ensures RequiredBy(cs).content.Some? ==>
      exists c :: c in cs && Demands(c, CONTENT) && EqStr(c) == RequiredBy(cs).content
    ensures RequiredBy(cs).blockType.Some? ==>
      exists c :: c in cs && Demands(c, BLOCK_TYPE) && EqStr(c).Some? && TypeFromName(EqStr(c).value) == RequiredBy(cs).blockType
  {
    hide TypeFromName, Subject, EqStr, EqInt;
    if |cs| > 0 {
      var n := |cs| - 1;
      RequiredFrom(cs[..n]);
      assert cs == cs[..n] + [cs[n]] && cs[n] in cs;
      assert forall c | c in cs[..n] :: c in cs;
    }
  }

  lemma NamesDiffer()
    ensures BLOCK_TYPE != PRE && BLOCK_TYPE != CONTENT && BLOCK_TYPE != SI.LANG && BLOCK_TYPE != SI.DEPTH && PRE != CONTENT
    ensures PRE != SI.LANG && PRE != SI.DEPTH && CONTENT != SI.LANG && CONTENT != SI.DEPTH && SI.LANG != SI.DEPTH
  {
  }

  lemma {:induction false} HintOfDemand(c: Expr, name: Text, g: Engine)
    requires Demands(c, name)
    ensures name == SI.LANG && EqStr(c).Some? && EqStr(c).value != [] ==> HintFor(c, g) == SI.LangExact(EqStr(c).value)
    ensures name == SI.DEPTH && EqInt(c).Some? && 0 < EqInt(c).value < 256 ==> HintFor(c, g) == SI.DepthExact(EqInt(c).value)
    ensures name == CONTENT && EqStr(c).Some? ==> HintFor(c, g) == SI.ContentExact(EqStr(c).value)
    ensures name == BLOCK_TYPE && EqStr(c).Some? && TypeFromName(EqStr(c).value).Some? ==>
      HintFor(c, g) == SI.OfTypes([TypeFromName(EqStr(c).value).value])
  {
    hide TypeFromName, ParseI64, Subject, EqStr, EqInt;
    NamesDiffer();
  }

  /** A kept row of a block satisfies what the demands say about it, content to the letter. */
  lemma {:induction false} ContentDemand(w: Expr, c: Expr, p: Spot, b: BC.Block, g: Engine)
    requires c in Conjuncts(w) && Demands(c, CONTENT) && EqStr(c).Some? && Keeps(w, RowOf(p, b), g)
    ensures b.content == EqStr(c).value
  {
    hide Eval, Fold, HintFor, BlockRow, Conjuncts, ParseI64, ColName, CanonicalInt;
    HintOfDemand(c, CONTENT, g);
    HintIsFolded(c, g);
    FoldedConjunctHolds(w, c, RowOf(p, b), g);
    EqSides(c, p, b, g);
    var col, lit :| Sides(c, col, lit, RowOf(p, b), g);
    ColumnNames();
    ColumnValue(col, 3, p.prefix, p.docId, b, p.id, p.others, g);
  }

  lemma {:induction false} DemandHolds(w: Expr, c: Expr, name: Text, p: Spot, b: BC.Block, g: Engine, tools: SI.Tools)
    requires c in Conjuncts(w) && Demands(c, name) && !HintFor(c, g).FullScan? && Keeps(w, RowOf(p, b), g)
    requires g.tok == tools.tok && b.pre < 0x1_0000_0000
    ensures SI.HintHolds(HintFor(c, g), tools, b)
  {
    hide Eval, Fold, HintFor, BlockRow, Conjuncts, Keeps;
    WhereImpliesHint(w, c, p, b, g, tools);
  }

  /** A skipped document has no block whose row the WHERE clause keeps. */
  lemma {:induction false} SkipSound(z: Zones, blocks: seq<BC.Block>, w: Expr, p: Spot, b: BC.Block, g: Engine, tools: SI.Tools)
    requires ZonesOf(z, blocks) && Covers(z, blocks) && b in blocks && b.pre < 0x1_0000_0000 && g.tok == tools.tok
    requires Skips(z, RequiredBy(Conjuncts(w)))
    ensures !Keeps(w, RowOf(p, b), g)
  {
    hide Keeps, BlockRow, HintFor, Conjuncts, RequiredBy, Subject, EqStr, EqInt, TypeFromName, SI.HeadingDepth, SI.CodeLang, EqIgnoreCase;
    Trans(b.content, b.content, b.content);
    assert KnownTo(z, b);
    if Keeps(w, RowOf(p, b), g) {
      var cs := Conjuncts(w);
      var q := RequiredBy(cs);
      RequiredFrom(cs);
      if q.lang.Some? && q.lang.value !in z.codeLanguages {
        var c :| c in cs && Demands(c, SI.LANG) && EqStr(c) == q.lang && q.lang.value != [];
        HintOfDemand(c, SI.LANG, g);
        DemandHolds(w, c, SI.LANG, p, b, g, tools);
      } else if q.depth.Some? && q.depth.value > z.maxHeadingDepth {
        var c :| c in cs && Demands(c, SI.DEPTH) && EqInt(c).Some? && EqInt(c).value == q.depth.value && 0 < EqInt(c).value < 256;
        HintOfDemand(c, SI.DEPTH, g);
        DemandHolds(w, c, SI.DEPTH, p, b, g, tools);
      } else {
        var c :| c in cs && Demands(c, CONTENT) && EqStr(c) == q.content;
        var t :| t in cs && Demands(t, BLOCK_TYPE) && EqStr(t).Some? && TypeFromName(EqStr(t).value) == q.blockType;
        HintOfDemand(t, BLOCK_TYPE, g);
        DemandHolds(w, t, BLOCK_TYPE, p, b, g, tools);
        ContentDemand(w, c, p, b, g);
      }
    }
  }

  // Where the conditions are needed

  /** `pre BETWEEN 0 AND 4294967296` reads the upper bound as 0: block 1 satisfies the
      predicate, but the hint leaves it out. */
  lemma {:induction false} WideRangeLosesABlock(p: Spot, b: BC.Block, g: Engine, tools: SI.Tools)
    requires b.pre == 1
    ensures var e := Between(Ident(PRE), false, Lit(Number(ToText(0))), Lit(Number(ToText(0x1_0000_0000))));
      Truthy(Eval(e, RowOf(p, b), g)) && HintFor(e, g) == SI.PreRange(0, 0) && !SI.HintHolds(HintFor(e, g), tools, b)
  {
    hide ParseI64, ToText, BlockRow, CmpVal;
    ColumnNames();
    LowerNames();
    TextParses(0);
    TextParses(0x1_0000_0000);
    ColumnValue(Ident(PRE), 4, p.prefix, p.docId, b, p.id, p.others, g);
    OneIsBetween(g);
  }

  lemma OneIsBetween(g: Engine)
    ensures CmpVal(Int(0), Int(1), g.ofInt) == Some(Less) && CmpVal(Int(1), Int(0x1_0000_0000), g.ofInt) == Some(Less)
  {
  }

  lemma LowerNames()
    ensures LowerText(PRE) == PRE && LowerText(BLOCK_TYPE) == BLOCK_TYPE && LowerText(SI.DEPTH) == SI.DEPTH && LowerText(SI.LANG) == SI.LANG
  {
  }

  // "co", "de"
  const CO: Text := [99, 111]
  const DE: Text := [100, 101]
  const COMPUTED := Binary(Lit(Quoted(CO)), StringConcat, Lit(Quoted(DE)))
  const LISTED := [Lit(Quoted(TypeName(BC.Heading))), COMPUTED]

  /** `block_type IN ('heading', 'co' || 'de')` gives a hint for headings only, but
      code blocks satisfy it. */
  lemma {:induction false} ComputedElementLosesABlock(p: Spot, b: BC.Block, g: Engine, tools: SI.Tools)
    requires b.blockType == BC.Code
    ensures var e := InList(Ident(BLOCK_TYPE), LISTED, false);
      Truthy(Eval(e, RowOf(p, b), g)) && HintFor(e, g) == SI.OfTypes([BC.Heading]) && !SI.HintHolds(HintFor(e, g), tools, b)
  {
    hide AnyEq, ListedTypes, TypeName, BlockRow, Get;
    ColumnNames();
    LowerNames();
    ColumnValue(Ident(BLOCK_TYPE), 2, p.prefix, p.docId, b, p.id, p.others, g);
    ComputedIsListed(RowOf(p, b), g);
    OnlyHeadingListed();
  }

  lemma {:induction false} ComputedIsListed(row: Row, g: Engine)
    ensures AnyEq(LISTED, Str(TypeName(BC.Code)), row, g)
  {
    hide TypeFromName;
    assert CO + DE == TypeName(BC.Code);
    assert Eval(COMPUTED, row, g) == Str(TypeName(BC.Code));
    assert LISTED[1..] == [COMPUTED];
    assert AnyEq([COMPUTED], Str(TypeName(BC.Code)), row, g);
  }

  lemma OnlyHeadingListed()
    ensures ListedTypes(LISTED) == [BC.Heading]
  {
    hide TypeFromName, TypeName;
    TypeNames(BC.Heading);
    assert LISTED[1..] == [COMPUTED];
    assert [COMPUTED][1..] == [];
    assert ListedTypes([COMPUTED]) == [];
  }

  // Exactly when skipping is sound

  /** `depth = d` */
  function DepthIs(d: nat): Expr { Binary(Ident(SI.DEPTH), Eq, Lit(Number(ToText(d)))) }

  /** `lang = 'l'` */
  function LangIs(l: Text): Expr { Binary(Ident(SI.LANG), Eq, Lit(Quoted(l))) }

  ghost predicate SkipsSafely(z: Zones, blocks: seq<BC.Block>, w: Expr, p: Spot, g: Engine) {
    Skips(z, RequiredBy(Conjuncts(w))) ==> forall b | b in blocks :: !Keeps(w, RowOf(p, b), g)
  }

  /** Whatever the WHERE clause, skipping the document loses no row, exactly if the
      zone maps cover its blocks. */
  lemma SkipsSafelyIff(z: Zones, blocks: seq<BC.Block>, p: Spot, g: Engine, tools: SI.Tools)
    requires ZonesOf(z, blocks) && g.tok == tools.tok && forall b | b in blocks :: b.pre < 0x1_0000_0000
    ensures Covers(z, blocks) <==> forall w :: SkipsSafely(z, blocks, w, p, g)
  {
    hide ZonesOf, Skips, Keeps, RequiredBy, Conjuncts, BlockRow, SI.HeadingDepth, SI.CodeLang;
    if Covers(z, blocks) {
      forall w ensures SkipsSafely(z, blocks, w, p, g) {
        if Skips(z, RequiredBy(Conjuncts(w))) {
          forall b | b in blocks ensures !Keeps(w, RowOf(p, b), g) {
            SkipSound(z, blocks, w, p, b, g, tools);
          }
        }
      }
    } else {
      var b :| b in blocks && !KnownTo(z, b);
      if SI.HeadingDepth(b).Some? && SI.HeadingDepth(b).value > z.maxHeadingDepth {
        DeepBlockIsSkipped(z, p, b, g);
        assert !SkipsSafely(z, blocks, DepthIs(SI.HeadingDepth(b).value), p, g);
      } else {
        ForeignLangIsSkipped(z, p, b, g);
        assert !SkipsSafely(z, blocks, LangIs(SI.CodeLang(b).value), p, g);
      }
    }
  }

  /** A block deeper than all headings, such as front matter with a `depth`, is skipped
      by a query for its depth. */
  lemma DeepBlockIsSkipped(z: Zones, p: Spot, b: BC.Block, g: Engine)
    requires SI.HeadingDepth(b).Some? && SI.HeadingDepth(b).value > z.maxHeadingDepth
    ensures var w := DepthIs(SI.HeadingDepth(b).value);
      Keeps(w, RowOf(p, b), g) && Skips(z, RequiredBy(Conjuncts(w)))
  {
    hide Keeps, BlockRow, RequiredBy;
    var d := SI.HeadingDepth(b).value;
    DepthIsKeeps(p, b, d, g);
    DepthIsRequires(d);
  }

  lemma DepthIsKeeps(p: Spot, b: BC.Block, d: nat, g: Engine)
    requires SI.HeadingDepth(b) == Some(d)
    ensures Keeps(DepthIs(d), RowOf(p, b), g)
  {
    hide ParseI64, ToText, BlockRow, Fold, Eval, SqlEq;
    ColumnNames();
    LowerNames();
    TextParses(d);
    ColumnValue(Ident(SI.DEPTH), 6, p.prefix, p.docId, b, p.id, p.others, g);
    ColumnTestFolded(SI.DEPTH, Number(ToText(d)), g);
    assert LitValue(Number(ToText(d)), g) == Int(d);
    ColumnTestHolds(SI.DEPTH, Number(ToText(d)), RowOf(p, b), g);
  }

  lemma ColumnTestHolds(name: Text, l: Literal, row: Row, g: Engine)
    requires Eval(Ident(name), row, g) == LitValue(l, g) && (LitValue(l, g).Int? || LitValue(l, g).Str?)
    ensures Eval(Binary(Ident(name), Eq, Lit(l)), row, g) == Bool(true)
  {
    hide ParseI64, Get, LitValue;
    assert Eval(Lit(l), row, g) == LitValue(l, g);
  }

  lemma {:induction false} ColumnTestFolded(name: Text, l: Literal, g: Engine)
    requires LowerText(name) == name
    ensures var e := Binary(Ident(name), Eq, Lit(l)); Fold(e, g) == e
  {
    hide ParseI64, ToText, Eval;
    LeafFolded(Ident(name), g);
    LeafFolded(Lit(l), g);
  }

  lemma DepthIsRequires(d: nat)
    requires 0 < d < 256
    ensures RequiredBy(Conjuncts(DepthIs(d))) == Required(None, None, None, Some(d))
  {
    hide ParseI64, ToText, TypeFromName;
    LowerNames();
    NamesDiffer();
    TextParses(d);
    OneConjunct(DepthIs(d));
  }

  lemma OneConjunct(w: Expr)
    requires w.Binary? && w.op == Eq
    ensures RequiredBy(Conjuncts(w)) == WithConjunct(Required(None, None, None, None), w)
  {
    assert Conjuncts(w) == [w] && [w][..0] == [];
  }

  /** A block with a language no code block has is skipped by a query for it. */
  lemma ForeignLangIsSkipped(z: Zones, p: Spot, b: BC.Block, g: Engine)
    requires SI.CodeLang(b).Some? && SI.CodeLang(b).value != [] && SI.CodeLang(b).value !in z.codeLanguages
    ensures var w := LangIs(SI.CodeLang(b).value);
      Keeps(w, RowOf(p, b), g) && Skips(z, RequiredBy(Conjuncts(w)))
  {
    hide Keeps, BlockRow, RequiredBy;
    var l := SI.CodeLang(b).value;
    LangIsKeeps(p, b, l, g);
    LangIsRequires(l);
  }

  lemma LangIsKeeps(p: Spot, b: BC.Block, l: Text, g: Engine)
    requires SI.CodeLang(b) == Some(l)
    ensures Keeps(LangIs(l), RowOf(p, b), g)
  {
    hide BlockRow, Fold, Eval, SqlEq;
    ColumnNames();
    LowerNames();
    ColumnValue(Ident(SI.LANG), 7, p.prefix, p.docId, b, p.id, p.others, g);
    ColumnTestFolded(SI.LANG, Quoted(l), g);
    ColumnTestHolds(SI.LANG, Quoted(l), RowOf(p, b), g);
  }

  lemma LangIsRequires(l: Text)
    requires l != []
    ensures RequiredBy(Conjuncts(LangIs(l))) == Required(None, None, Some(l), None)
  {
    hide TypeFromName;
    LowerNames();
    NamesDiffer();
    OneConjunct(LangIs(l));
  }
}
