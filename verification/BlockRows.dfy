/** Rows of the `blocks` table, and how names find their columns. */
module BlockRows {
  import opened Bytes
  import opened SqlValue
  import opened SqlExpr
  import opened SecondaryIndexes
  import BC = BlockCodec
  import HashJoin

  // "id"
  const ID: Text := [105, 100]
  // "document_id"
  const DOCUMENT_ID: Text := [100, 111, 99, 117, 109, 101, 110, 116, 95, 105, 100]
  // "block_type"
  const BLOCK_TYPE: Text := [98, 108, 111, 99, 107, 95, 116, 121, 112, 101]
  // "content"
  const CONTENT: Text := [99, 111, 110, 116, 101, 110, 116]
  // "pre"
  const PRE: Text := [112, 114, 101]
  // "post"
  const POST: Text := [112, 111, 115, 116]
  // "properties"
  const PROPERTIES: Text := [112, 114, 111, 112, 101, 114, 116, 105, 101, 115]
  // "content_hash"
  const CONTENT_HASH: Text := [99, 111, 110, 116, 101, 110, 116, 95, 104, 97, 115, 104]
  // "anchor"
  const ANCHOR: Text := [97, 110, 99, 104, 111, 114]

  const COLUMNS: seq<Text> :=
    [ID, DOCUMENT_ID, BLOCK_TYPE, CONTENT, PRE, POST, DEPTH, LANG, PROPERTIES, CONTENT_HASH, ANCHOR]

  function TypeName(t: BC.BlockType): Text {
    match t
    case Heading => [104, 101, 97, 100, 105, 110, 103] // "heading"
    case Paragraph => [112, 97, 114, 97, 103, 114, 97, 112, 104] // "paragraph"
    case Code => [99, 111, 100, 101] // "code"
    case List => [108, 105, 115, 116] // "list"
    case TableCell => [116, 97, 98, 108, 101, 95, 99, 101, 108, 108] // "table_cell"
    case TableRow => [116, 97, 98, 108, 101, 95, 114, 111, 119] // "table_row"
    case TableAlign => [116, 97, 98, 108, 101, 95, 97, 108, 105, 103, 110] // "table_align"
    case Blockquote => [98, 108, 111, 99, 107, 113, 117, 111, 116, 101] // "blockquote"
    case HorizontalRule => [104, 111, 114, 105, 122, 111, 110, 116, 97, 108, 95, 114, 117, 108, 101] // "horizontal_rule"
    case Html => [104, 116, 109, 108] // "html"
    case Yaml => [121, 97, 109, 108] // "yaml"
    case Toml => [116, 111, 109, 108] // "toml"
    case Math => [109, 97, 116, 104] // "math"
    case Definition => [100, 101, 102, 105, 110, 105, 116, 105, 111, 110] // "definition"
    case Footnote => [102, 111, 111, 116, 110, 111, 116, 101] // "footnote"
  }

  /** `BlockType::from_str`. */
  function TypeFromName(s: Text): (r: Option<BC.BlockType>)
    ensures r.Some? ==> s == TypeName(r.value)
  {
    if s == TypeName(BC.Heading) then Some(BC.Heading)
    else if s == TypeName(BC.Paragraph) then Some(BC.Paragraph)
    else if s == TypeName(BC.Code) then Some(BC.Code)
    else if s == TypeName(BC.List) then Some(BC.List)
    else if s == TypeName(BC.TableCell) then Some(BC.TableCell)
    else if s == TypeName(BC.TableRow) then Some(BC.TableRow)
    else if s == TypeName(BC.TableAlign) then Some(BC.TableAlign)
    else if s == TypeName(BC.Blockquote) then Some(BC.Blockquote)
    else if s == TypeName(BC.HorizontalRule) then Some(BC.HorizontalRule)
    else if s == TypeName(BC.Html) then Some(BC.Html)
    else if s == TypeName(BC.Yaml) then Some(BC.Yaml)
    else if s == TypeName(BC.Toml) then Some(BC.Toml)
    else if s == TypeName(BC.Math) then Some(BC.Math)
    else if s == TypeName(BC.Definition) then Some(BC.Definition)
    else if s == TypeName(BC.Footnote) then Some(BC.Footnote)
    else None
  }

  lemma TypeNames(t: BC.BlockType)
    ensures TypeFromName(TypeName(t)) == Some(t)
  {
  }

  /** The names in ASCII. */
  lemma TypesSpelled()
    ensures TypeName(BC.Heading) == Spelled("heading") && TypeName(BC.Paragraph) == Spelled("paragraph")
    ensures TypeName(BC.Code) == Spelled("code") && TypeName(BC.List) == Spelled("list")
    ensures TypeName(BC.TableCell) == Spelled("table_cell") && TypeName(BC.TableRow) == Spelled("table_row")
    ensures TypeName(BC.TableAlign) == Spelled("table_align") && TypeName(BC.Blockquote) == Spelled("blockquote")
    ensures TypeName(BC.HorizontalRule) == Spelled("horizontal_rule") && TypeName(BC.Html) == Spelled("html")
    ensures TypeName(BC.Yaml) == Spelled("yaml") && TypeName(BC.Toml) == Spelled("toml") && TypeName(BC.Math) == Spelled("math")
    ensures TypeName(BC.Definition) == Spelled("definition") && TypeName(BC.Footnote) == Spelled("footnote")
  {
  }

  lemma ColumnsSpelled()
    ensures ID == Spelled("id") && DOCUMENT_ID == Spelled("document_id") && BLOCK_TYPE == Spelled("block_type")
    ensures CONTENT == Spelled("content") && PRE == Spelled("pre") && POST == Spelled("post")
    ensures SecondaryIndexes.DEPTH == Spelled("depth") && SecondaryIndexes.LANG == Spelled("lang")
    ensures PROPERTIES == Spelled("properties") && CONTENT_HASH == Spelled("content_hash") && ANCHOR == Spelled("anchor")
  {
  }

  /** The cells of a block's row that neither hints nor zone maps are about. */
  datatype Others = Others(properties: Text, hash: Value, anchor: Text)

  function Values(docId: nat, b: BC.Block, id: nat, o: Others): (v: seq<Value>)
    ensures |v| == 11
  {
    [Int(id), Int(docId), Str(TypeName(b.blockType)), Str(b.content), Int(b.pre), Int(b.post),
     Int(match HeadingDepth(b) case Some(d) => d case None => 0),
     Str(match CodeLang(b) case Some(l) => l case None => []),
     Str(o.properties), o.hash, Str(o.anchor)]
  }

  function Qualified(prefix: Text): (c: seq<Text>)
    ensures |c| == 11
  {
    seq(11, i requires 0 <= i < 11 => prefix + [46] + COLUMNS[i])
  }

  /** `qualify_row` of `block_to_row`. */
  function BlockRow(prefix: Text, docId: nat, b: BC.Block, id: nat, o: Others): Row {
    Row(Qualified(prefix), Values(docId, b, id, o))
  }

  // Looking columns up

  lemma {:induction false} ShortOfQualified(p: Text, c: Text)
    requires 46 !in c
    ensures ShortName(p + [46] + c) == c
    decreases |c|
  {
    if |c| == 0 {
      var name := p + [46] + c;
      assert name[|name| - 1] == 46;
    } else {
      hide ShortName;
      var n := |c| - 1;
      assert c == c[..n] + [c[n]] && c[n] in c;
      ShortOneMore(p + [46] + c[..n], c[n]);
      Regroup(p + [46], c[..n], [c[n]]);
      ShortOfQualified(p, c[..n]);
    }
  }

  lemma ColumnsDiffer(j: nat, k: nat)
    requires j < 11 && k < 11 && EqIgnoreCase(COLUMNS[j], COLUMNS[k])
    ensures j == k
  {
    assert LowerByte(COLUMNS[7][0]) == 108 && LowerByte(COLUMNS[5][0]) == 112;
    assert LowerByte(COLUMNS[2][0]) == 98 && LowerByte(COLUMNS[8][0]) == 112;
  }

  lemma NoDots(i: nat)
    requires i < 11
    ensures 46 !in COLUMNS[i]
  {
  }

  /** A name whose short name is that of a column finds that column, qualified by whatever. */
  lemma {:induction false} Lookup(prefix: Text, values: seq<Value>, name: Text, k: nat)
    requires |values| == 11 && k < 11 && EqIgnoreCase(ShortName(name), COLUMNS[k])
    ensures SqlValue.Get(Row(Qualified(prefix), values), name) == Some(values[k])
  {
    hide ShortName;
    var cols := Qualified(prefix);
    forall i | 0 <= i < 11 ensures Meant(cols[i], name) ==> i == k {
      NoDots(i);
      ShortOfQualified(prefix, COLUMNS[i]);
      if EqIgnoreCase(cols[i], name) {
        SameShort(cols[i], name);
      }
      if Meant(cols[i], name) {
        Trans(COLUMNS[i], ShortName(name), COLUMNS[k]);
        ColumnsDiffer(i, k);
      }
    }
    NoDots(k);
    ShortOfQualified(prefix, COLUMNS[k]);
    Trans(COLUMNS[k], COLUMNS[k], ShortName(name));
    assert Meant(cols[k], name);
  }

  lemma {:induction false} JoinEnds(parts: seq<Text>)
    requires |parts| > 0 && 46 !in parts[|parts| - 1]
    ensures ShortName(Join(parts)) == parts[|parts| - 1]
  {
    hide ShortName;
    var last := parts[|parts| - 1];
    if |parts| == 1 {
      ShortOfPlain(last);
    } else {
      var p := Front(parts);
      ShortOfQualified(p, last);
    }
  }

  /** All of a dotted name before its last dot. */
  lemma {:induction false} Front(parts: seq<Text>) returns (p: Text)
    requires |parts| > 1
    ensures Join(parts) == p + [46] + parts[|parts| - 1]
  {
    if |parts| == 2 {
      p := parts[0];
      assert parts[1..] == [parts[1]];
    } else {
      var q := Front(parts[1..]);
      p := parts[0] + [46] + q;
    }
  }

  /** A column expression, however qualified, evaluates to its column. */
  lemma {:induction false} ColumnValue(e: Expr, k: nat, prefix: Text, docId: nat, b: BC.Block, id: nat, o: Others, g: Engine)
    requires k < 11 && HashJoin.ColName(e) == Some(COLUMNS[k])
    ensures Eval(e, BlockRow(prefix, docId, b, id, o), g) == Values(docId, b, id, o)[k]
  {
    hide ShortName, SqlValue.Get, Join;
    var values := Values(docId, b, id, o);
    match e
    case Ident(name) =>
      PlainName(name, k);
      Lookup(prefix, values, name, k);
    case Compound(parts) =>
      var last := parts[|parts| - 1];
      PlainName(last, k);
      JoinEnds(parts);
      Lookup(prefix, values, Join(parts), k);
  }

  lemma {:induction false} PlainName(name: Text, k: nat)
    requires k < 11 && HashJoin.LowerText(name) == COLUMNS[k]
    ensures 46 !in name && ShortName(name) == name && EqIgnoreCase(name, COLUMNS[k])
  {
    hide ShortName;
    NoDots(k);
    forall i | 0 <= i < |name| ensures name[i] != 46 && LowerByte(name[i]) == LowerByte(COLUMNS[k][i]) {
      assert HashJoin.LowerText(name)[i] == LowerByte(name[i]);
      assert COLUMNS[k][i] in COLUMNS[k];
    }
    ShortOfPlain(name);
  }

  /** What each column of a block's row holds, by whatever name it is asked for. */
  lemma CellsAre(prefix: Text, docId: nat, b: BC.Block, id: nat, o: Others, g: Engine)
    ensures var row := BlockRow(prefix, docId, b, id, o);
      Eval(Ident(ID), row, g) == Int(id) && Eval(Ident(DOCUMENT_ID), row, g) == Int(docId) &&
      Eval(Ident(BLOCK_TYPE), row, g) == Str(TypeName(b.blockType)) && Eval(Ident(CONTENT), row, g) == Str(b.content) &&
      Eval(Ident(PRE), row, g) == Int(b.pre) && Eval(Ident(POST), row, g) == Int(b.post) &&
      Eval(Ident(PROPERTIES), row, g) == Str(o.properties) && Eval(Ident(CONTENT_HASH), row, g) == o.hash &&
      Eval(Ident(ANCHOR), row, g) == Str(o.anchor)
    ensures var row := BlockRow(prefix, docId, b, id, o);
      Eval(Ident(SecondaryIndexes.DEPTH), row, g) == Int(if HeadingDepth(b).Some? then HeadingDepth(b).value else 0) &&
      Eval(Ident(SecondaryIndexes.LANG), row, g) == Str(if CodeLang(b).Some? then CodeLang(b).value else [])
  {
    hide Eval, BlockRow, HashJoin.LowerText, HeadingDepth, CodeLang, TypeName;
    forall k: nat | k < 11 ensures Eval(Ident(COLUMNS[k]), BlockRow(prefix, docId, b, id, o), g) == Values(docId, b, id, o)[k] {
      ColumnIsLower(k);
      ColumnValue(Ident(COLUMNS[k]), k, prefix, docId, b, id, o, g);
    }
    ColumnPlaces();
  }

  lemma ShorterDiffers(p: Text, c: Text, q: Text, d: Text)
    requires 46 !in c && |p| < |q|
    ensures !EqIgnoreCase(p + [46] + c, q + [46] + d) && !EqIgnoreCase(q + [46] + d, p + [46] + c)
  {
    var (x, y) := (p + [46] + c, q + [46] + d);
    if |x| == |y| {
      assert y[|q|] == 46 && x[|q|] == c[|q| - |p| - 1] && c[|q| - |p| - 1] in c;
      assert LowerByte(x[|q|]) != LowerByte(y[|q|]);
    }
  }

  /** Two qualified names agree only if both their parts do. */
  lemma QualifiedDiffer(p: Text, c: Text, q: Text, d: Text)
    requires 46 !in c && 46 !in d && EqIgnoreCase(p + [46] + c, q + [46] + d)
    ensures EqIgnoreCase(p, q) && EqIgnoreCase(c, d)
  {
    if |p| < |q| {
      ShorterDiffers(p, c, q, d);
    } else if |q| < |p| {
      ShorterDiffers(q, d, p, c);
    } else {
      var (x, y) := (p + [46] + c, q + [46] + d);
      assert forall i | 0 <= i < |p| :: x[i] == p[i] && y[i] == q[i];
      assert forall i | 0 <= i < |c| :: x[|p| + 1 + i] == c[i] && y[|p| + 1 + i] == d[i];
    }
  }

  /** The only column with the whole name is the one it names. */
  lemma OnlyOne(row: Row, name: Text, k: nat)
    requires k < |row.columns| == |row.values| && EqIgnoreCase(row.columns[k], name)
    requires forall i | 0 <= i < |row.columns| && EqIgnoreCase(row.columns[i], name) :: i == k
    ensures SqlValue.Get(row, name) == Some(row.values[k])
  {
    hide EqIgnoreCase, ShortPosition;
  }

  /** In the row of two tables of blocks side by side, a qualified name is the cell of the
      table it is qualified with, unless both have that name. */
  lemma {:induction false} TablesApart(p: Text, q: Text, vs: seq<Value>, ws: seq<Value>, k: nat, g: Engine)
    requires |vs| == 11 && |ws| == 11 && k < 11 && !EqIgnoreCase(p, q)
    ensures var row := HashJoin.Combine(Row(Qualified(p), vs), Row(Qualified(q), ws));
      Eval(Ident(p + [46] + COLUMNS[k]), row, g) == vs[k] && Eval(Ident(q + [46] + COLUMNS[k]), row, g) == ws[k]
  {
    hide EqIgnoreCase, SqlValue.Get, Qualified;
    var row := HashJoin.Combine(Row(Qualified(p), vs), Row(Qualified(q), ws));
    CellOfEither(p, q, row, k, false);
    CellOfEither(p, q, row, k, true);
  }

  lemma {:induction false} CellOfEither(p: Text, q: Text, row: Row, k: nat, second: bool)
    requires |row.values| == 22 && row.columns == Qualified(p) + Qualified(q) && k < 11 && !EqIgnoreCase(p, q)
    ensures SqlValue.Get(row, (if second then q else p) + [46] + COLUMNS[k]) == Some(row.values[if second then 11 + k else k])
  {
    hide EqIgnoreCase, SqlValue.Get;
    var s := if second then q else p;
    var name, at := s + [46] + COLUMNS[k], if second then 11 + k else k;
    SelfSame(s, k);
    forall i: nat | i < 22 ensures EqIgnoreCase(row.columns[i], name) ==> i == at {
      OneOfBoth(p, q, i, k);
    }
    OnlyOne(row, name, at);
  }

  lemma OneOfBoth(p: Text, q: Text, i: nat, k: nat)
    requires i < 22 && k < 11 && !EqIgnoreCase(p, q)
    ensures var c := (if i < 11 then p else q) + [46] + COLUMNS[i % 11];
      (EqIgnoreCase(c, p + [46] + COLUMNS[k]) ==> i == k) && (EqIgnoreCase(c, q + [46] + COLUMNS[k]) ==> i == 11 + k)
  {
    NoDots(k);
    NoDots(i % 11);
    var s := if i < 11 then p else q;
    hide EqIgnoreCase;
    Symmetric(p, q);
    if EqIgnoreCase(s + [46] + COLUMNS[i % 11], p + [46] + COLUMNS[k]) {
      QualifiedDiffer(s, COLUMNS[i % 11], p, COLUMNS[k]);
      ColumnsDiffer(i % 11, k);
    }
    if EqIgnoreCase(s + [46] + COLUMNS[i % 11], q + [46] + COLUMNS[k]) {
      QualifiedDiffer(s, COLUMNS[i % 11], q, COLUMNS[k]);
      ColumnsDiffer(i % 11, k);
    }
  }

  lemma Symmetric(a: Text, b: Text)
    ensures EqIgnoreCase(a, b) <==> EqIgnoreCase(b, a)
  {
  }

  lemma SelfSame(p: Text, k: nat)
    requires k < 11
    ensures EqIgnoreCase(p + [46] + COLUMNS[k], p + [46] + COLUMNS[k])
  {
  }

  lemma ColumnIsLower(k: nat)
    requires k < 11
    ensures HashJoin.ColName(Ident(COLUMNS[k])) == Some(COLUMNS[k])
  {
    assert forall i | 0 <= i < |COLUMNS[k]| :: LowerByte(COLUMNS[k][i]) == COLUMNS[k][i];
    assert HashJoin.LowerText(COLUMNS[k]) == COLUMNS[k];
  }

  lemma ColumnPlaces()
    ensures COLUMNS[0] == ID && COLUMNS[1] == DOCUMENT_ID && COLUMNS[2] == BLOCK_TYPE && COLUMNS[3] == CONTENT
    ensures COLUMNS[4] == PRE && COLUMNS[5] == POST && COLUMNS[6] == SecondaryIndexes.DEPTH && COLUMNS[7] == SecondaryIndexes.LANG
    ensures COLUMNS[8] == PROPERTIES && COLUMNS[9] == CONTENT_HASH && COLUMNS[10] == ANCHOR
  {
  }
}
