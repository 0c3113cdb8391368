/** Blocks with their nested properties, and the rows of custom tables, as bytes. */
module BlockCodec {
  import opened Bytes
  import opened Parsing

  type Text = seq<Byte>

  /** A property; `Float` carries the bit pattern that `to_le_bytes` writes. */
  datatype PropertyValue =
    | Null
    | String(s: Text)
    | Int(i: int)
    | Float(bits: nat)
    | Bool(b: bool)
    | Array(values: seq<PropertyValue>)

  datatype BlockType =
    | Heading | Paragraph | Code | List | TableCell | TableRow | TableAlign | Blockquote
    | HorizontalRule | Html | Yaml | Toml | Math | Definition | Footnote

  datatype Span = Span(startLine: nat, startCol: nat, endLine: nat, endCol: nat)

  datatype Block = Block(
    id: nat, documentId: nat, blockType: BlockType, content: Text, span: Option<Span>,
    pre: nat, post: nat, properties: map<Text, PropertyValue>)

  function TypeTag(t: BlockType): Byte {
    match t
    case Heading => 0 case Paragraph => 1 case Code => 2 case List => 3 case TableCell => 4
    case TableRow => 5 case TableAlign => 6 case Blockquote => 7 case HorizontalRule => 8
    case Html => 9 case Yaml => 10 case Toml => 11 case Math => 12 case Definition => 13
    case Footnote => 14
  }

  function TypeFromTag(tag: nat): Result<BlockType> {
    if tag == 0 then Ok(Heading) else if tag == 1 then Ok(Paragraph) else if tag == 2 then Ok(Code)
    else if tag == 3 then Ok(List) else if tag == 4 then Ok(TableCell) else if tag == 5 then Ok(TableRow)
    else if tag == 6 then Ok(TableAlign) else if tag == 7 then Ok(Blockquote)
    else if tag == 8 then Ok(HorizontalRule) else if tag == 9 then Ok(Html) else if tag == 10 then Ok(Yaml)
    else if tag == 11 then Ok(Toml) else if tag == 12 then Ok(Math) else if tag == 13 then Ok(Definition)
    else if tag == 14 then Ok(Footnote) else Err
  }

  // The length-prefix bounds

  predicate IsText(k: nat, t: Text) { |t| < Pow256(k) && ValidUtf8(t) }

  predicate PropertyFits(v: PropertyValue) {
    match v
    case Null => true
    case String(s) => IsText(4, s)
    case Int(i) => IsI64(i)
    case Float(bits) => bits < Pow256(8)
    case Bool(_) => true
    case Array(values) => |values| < Pow256(2) && forall x | x in values :: PropertyFits(x)
  }

  predicate SpanFits(s: Span) {
    s.startLine < Pow256(4) && s.startCol < Pow256(4) && s.endLine < Pow256(4) && s.endCol < Pow256(4)
  }

  predicate BlockFits(b: Block) {
    b.id < Pow256(4) && b.documentId < Pow256(4) && b.pre < Pow256(4) && b.post < Pow256(4) &&
    IsText(4, b.content) && (b.span.Some? ==> SpanFits(b.span.value)) && |b.properties| < Pow256(2) &&
    forall k | k in b.properties :: IsText(1, k) && PropertyFits(b.properties[k])
  }

  // Properties

  function EncProperty(v: PropertyValue): seq<Byte>
    decreases v
  {
    match v
    case Null => [0]
    case String(s) => [1] + EncText(4, s)
    case Int(i) => [2] + LE(if IsI64(i) then Unsigned64(i) else 0, 8)
    case Float(bits) => [3] + LE(bits, 8)
    case Bool(b) => [4, if b then 1 else 0]
    case Array(values) => [5] + (LE(|values|, 2) + EncProperties(values))
  }

  function EncProperties(values: seq<PropertyValue>): seq<Byte>
    decreases values
  {
    if |values| == 0 then [] else EncProperty(values[0]) + EncProperties(values[1..])
  }

  function TakeProperty(s: seq<Byte>): (r: Parsed<PropertyValue>)
    ensures r.Ok? ==> |r.value.1| < |s|
    decreases |s|, 0
  {
    match TakeInt(1, s) case Err => Err case Ok((tag, s1)) =>
    if tag == 0 then Ok((Null, s1))
    else if tag == 1 then
      match TakeText(4, s1) case Err => Err case Ok((t, s2)) => Ok((String(t), s2))
    else if tag == 2 then
      Widths();
      match TakeInt(8, s1) case Err => Err case Ok((n, s2)) => Ok((Int(Signed64(n)), s2))
    else if tag == 3 then
      match TakeInt(8, s1) case Err => Err case Ok((n, s2)) => Ok((Float(n), s2))
    else if tag == 4 then
      match TakeInt(1, s1) case Err => Err case Ok((b, s2)) =>
        if b == 0 then Ok((Bool(false), s2)) else if b == 1 then Ok((Bool(true), s2)) else Err
    else if tag == 5 then
      match TakeInt(2, s1) case Err => Err case Ok((n, s2)) =>
      match TakeProperties(n, s2) case Err => Err case Ok((values, s3)) => Ok((Array(values), s3))
    else Err
  }

  function TakeProperties(n: nat, s: seq<Byte>): (r: Parsed<seq<PropertyValue>>)
    ensures r.Ok? ==> |r.value.1| <= |s|
    decreases |s|, 1
  {
    if n == 0 then Ok(([], s))
    else
      match TakeProperty(s) case Err => Err case Ok((x, rest)) =>
      match TakeProperties(n - 1, rest) case Err => Err case Ok((xs, tail)) => Ok(([x] + xs, tail))
  }

  lemma {:induction false} TakePropertiesIsMany(n: nat, s: seq<Byte>)
    ensures TakeProperties(n, s) == Many(n, TakeProperty, s)
  {
    if n > 0 && TakeProperty(s).Ok? {
      TakePropertiesIsMany(n - 1, TakeProperty(s).value.1);
    }
  }

  lemma TagOf(tag: Byte, rest: seq<Byte>)
    ensures TakeInt(1, [tag] + rest) == Ok((tag, rest))
  {
    Widths();
    assert LE(tag, 1) == [tag];
    TakeIntOf(tag, 1, rest);
  }

  lemma {:induction false} PropertyRoundTrip(v: PropertyValue, tail: seq<Byte>)
    requires PropertyFits(v)
    ensures TakeProperty(EncProperty(v) + tail) == Ok((v, tail))
    decreases v, 1
  {
    hide TakeInt, TakeText, EncText, LE, FromLE;
    Widths();
    match v
    case Null => TagOf(0, tail);
    case String(s) =>
      assert EncProperty(v) + tail == [1] + (EncText(4, s) + tail);
      TagOf(1, EncText(4, s) + tail);
      TakeTextOf(4, s, tail);
    case Int(i) =>
      assert EncProperty(v) + tail == [2] + (LE(Unsigned64(i), 8) + tail);
      TagOf(2, LE(Unsigned64(i), 8) + tail);
      TakeIntOf(Unsigned64(i), 8, tail);
    case Float(bits) =>
      assert EncProperty(v) + tail == [3] + (LE(bits, 8) + tail);
      TagOf(3, LE(bits, 8) + tail);
      TakeIntOf(bits, 8, tail);
    case Bool(b) =>
      var flag: Byte := if b then 1 else 0;
      assert EncProperty(v) + tail == [4] + ([flag] + tail);
      TagOf(4, [flag] + tail);
      TagOf(flag, tail);
    case Array(values) =>
      var rest := EncProperties(values) + tail;
      assert EncProperty(v) + tail == [5] + (LE(|values|, 2) + rest);
      TagOf(5, LE(|values|, 2) + rest);
      TakeIntOf(|values|, 2, rest);
      PropertiesRoundTrip(values, tail);
  }

  lemma {:induction false} PropertiesRoundTrip(values: seq<PropertyValue>, tail: seq<Byte>)
    requires forall x | x in values :: PropertyFits(x)
    ensures TakeProperties(|values|, EncProperties(values) + tail) == Ok((values, tail))
    decreases values, 0
  {
    if |values| == 0 {
      assert EncProperties(values) + tail == tail;
    } else {
      assert EncProperties(values) + tail == EncProperty(values[0]) + (EncProperties(values[1..]) + tail);
      PropertyRoundTrip(values[0], EncProperties(values[1..]) + tail);
      PropertiesRoundTrip(values[1..], tail);
      assert [values[0]] + values[1..] == values;
    }
  }

  // Blocks

  datatype Entry = Entry(key: Text, value: PropertyValue)

  function EncEntry(e: Entry): seq<Byte> { EncText(1, e.key) + EncProperty(e.value) }

  function TakeEntry(s: seq<Byte>): Parsed<Entry> {
    match TakeText(1, s) case Err => Err case Ok((key, s1)) =>
    match TakeProperty(s1) case Err => Err case Ok((value, s2)) => Ok((Entry(key, value), s2))
  }

  /** The properties in the order the encoder lists their keys. */
  function Listed(m: map<Text, PropertyValue>, keys: seq<Text>): seq<Entry>
    requires forall k | k in keys :: k in m
  {
    seq(|keys|, i requires 0 <= i < |keys| => Entry(keys[i], m[keys[i]]))
  }

  /** `properties.set` for each decoded entry in turn. */
  function Collected(entries: seq<Entry>): map<Text, PropertyValue> {
    if |entries| == 0 then map[]
    else Collected(entries[..|entries| - 1])[entries[|entries| - 1].key := entries[|entries| - 1].value]
  }

  /** `keys` lists the keys of `m`, each once. */
  predicate Enumerates(keys: seq<Text>, m: map<Text, PropertyValue>) {
    |keys| == |m| && (forall k | k in keys :: k in m) && (forall k | k in m :: k in keys)
  }

  function EncSpan(span: Option<Span>): seq<Byte> {
    match span
    case None => [0]
    case Some(s) => [1] + (LE(s.startLine, 4) + (LE(s.startCol, 4) + (LE(s.endLine, 4) + LE(s.endCol, 4))))
  }

  function TakeSpan(s: seq<Byte>): Parsed<Option<Span>> {
    match TakeInt(1, s) case Err => Err case Ok((tag, s1)) =>
    if tag == 0 then Ok((None, s1))
    else if tag == 1 then
      match TakeInt(4, s1) case Err => Err case Ok((a, s2)) =>
      match TakeInt(4, s2) case Err => Err case Ok((b, s3)) =>
      match TakeInt(4, s3) case Err => Err case Ok((c, s4)) =>
      match TakeInt(4, s4) case Err => Err case Ok((d, s5)) => Ok((Some(Span(a, b, c, d)), s5))
    else Err
  }

  /** `encode_block`, with the order in which it lists the properties. */
  function EncBlock(b: Block, keys: seq<Text>): seq<Byte>
    requires forall k | k in keys :: k in b.properties
  {
    LE(b.id, 4) + (LE(b.documentId, 4) + ([TypeTag(b.blockType)] + (LE(b.pre, 4) + (LE(b.post, 4) +
    (EncSpan(b.span) + (EncText(4, b.content) + (LE(|keys|, 2) + EncMany(EncEntry, Listed(b.properties, keys)))))))))
  }

  function TakeType(s: seq<Byte>): Parsed<BlockType> {
    match TakeInt(1, s) case Err => Err case Ok((tag, rest)) =>
    match TypeFromTag(tag) case Err => Err case Ok(t) => Ok((t, rest))
  }

  function TakeBlock(s: seq<Byte>): Parsed<Block> {
    match TakeInt(4, s) case Err => Err case Ok((id, s1)) =>
    match TakeInt(4, s1) case Err => Err case Ok((doc, s2)) =>
    match TakeType(s2) case Err => Err case Ok((t, s3)) =>
    match TakeInt(4, s3) case Err => Err case Ok((pre, s4)) =>
    match TakeInt(4, s4) case Err => Err case Ok((post, s5)) =>
    match TakeSpan(s5) case Err => Err case Ok((span, s6)) =>
    match TakeText(4, s6) case Err => Err case Ok((content, s7)) =>
    match TakeInt(2, s7) case Err => Err case Ok((count, s8)) =>
    match Many(count, TakeEntry, s8) case Err => Err case Ok((entries, s9)) =>
      Ok((Block(id, doc, t, content, span, pre, post, Collected(entries)), s9))
  }

  lemma SpanRoundTrip(span: Option<Span>, tail: seq<Byte>)
    requires span.Some? ==> SpanFits(span.value)
    ensures TakeSpan(EncSpan(span) + tail) == Ok((span, tail))
  {
    match span
    case None => TagOf(0, tail);
    case Some(s) =>
      var t3 := LE(s.endCol, 4) + tail;
      var t2 := LE(s.endLine, 4) + t3;
      var t1 := LE(s.startCol, 4) + t2;
      assert EncSpan(span) + tail == [1] + (LE(s.startLine, 4) + t1);
      TagOf(1, LE(s.startLine, 4) + t1);
      TakeIntOf(s.startLine, 4, t1);
      TakeIntOf(s.startCol, 4, t2);
      TakeIntOf(s.endLine, 4, t3);
      TakeIntOf(s.endCol, 4, tail);
  }

  lemma {:induction false} CollectedKeys(entries: seq<Entry>)
    ensures forall k :: k in Collected(entries) <==> exists e :: e in entries && e.key == k
    ensures forall k | k in Collected(entries) :: Entry(k, Collected(entries)[k]) in entries
  {
    if |entries| > 0 {
      var n := |entries| - 1;
      CollectedKeys(entries[..n]);
      assert entries == entries[..n] + [entries[n]];
    }
  }

  /** Whatever the listing order, collecting the listed properties gives the map back. */
  lemma CollectedListing(m: map<Text, PropertyValue>, keys: seq<Text>)
    requires Enumerates(keys, m)
    ensures Collected(Listed(m, keys)) == m
  {
    var entries := Listed(m, keys);
    CollectedKeys(entries);
    forall k | k in m ensures k in Collected(entries) {
      var i :| 0 <= i < |keys| && keys[i] == k;
      assert entries[i] in entries && entries[i].key == k;
    }
    forall k | k in Collected(entries) ensures k in m && Collected(entries)[k] == m[k] {
      var i :| 0 <= i < |entries| && entries[i] == Entry(k, Collected(entries)[k]);
      assert keys[i] in keys;
    }
  }

  lemma {:induction false} EntriesRoundTrip(b: Block, keys: seq<Text>, tail: seq<Byte>)
    requires BlockFits(b) && Enumerates(keys, b.properties)
    ensures var entries := Listed(b.properties, keys);
            Many(|keys|, TakeEntry, EncMany(EncEntry, entries) + tail) == Ok((entries, tail))
  {
    var entries := Listed(b.properties, keys);
    forall e, rest: seq<Byte> | e in entries ensures TakeEntry(EncEntry(e) + rest) == Ok((e, rest)) {
      assert e.key in keys;
      assert EncEntry(e) + rest == EncText(1, e.key) + (EncProperty(e.value) + rest);
      TakeTextOf(1, e.key, EncProperty(e.value) + rest);
      PropertyRoundTrip(e.value, rest);
    }
    ManyOf(EncEntry, TakeEntry, entries, tail);
  }

  lemma TypeRoundTrip(t: BlockType, tail: seq<Byte>)
    ensures TakeType([TypeTag(t)] + tail) == Ok((t, tail))
  {
    TagOf(TypeTag(t), tail);
  }

  lemma {:induction false} BlockFields(b: Block, keys: seq<Text>, tail: seq<Byte>)
    requires BlockFits(b) && Enumerates(keys, b.properties)
    ensures EncBlock(b, keys) + tail ==
      LE(b.id, 4) + (LE(b.documentId, 4) + ([TypeTag(b.blockType)] + (LE(b.pre, 4) + (LE(b.post, 4) +
      (EncSpan(b.span) + (EncText(4, b.content) + (LE(|keys|, 2) + (EncMany(EncEntry, Listed(b.properties, keys)) + tail))))))))
  {
    hide EncMany, EncSpan, EncText, LE, TypeTag, Listed;
    var t8 := EncMany(EncEntry, Listed(b.properties, keys));
    var t7 := LE(|keys|, 2) + t8;
    var t6 := EncText(4, b.content) + t7;
    var t5 := EncSpan(b.span) + t6;
    var t4 := LE(b.post, 4) + t5;
    var t3 := LE(b.pre, 4) + t4;
    var t2 := [TypeTag(b.blockType)] + t3;
    Regroup(LE(b.id, 4), LE(b.documentId, 4) + t2, tail);
    Regroup(LE(b.documentId, 4), t2, tail);
    Regroup([TypeTag(b.blockType)], t3, tail);
    Regroup(LE(b.pre, 4), t4, tail);
    Regroup(LE(b.post, 4), t5, tail);
    Regroup(EncSpan(b.span), t6, tail);
    Regroup(EncText(4, b.content), t7, tail);
    Regroup(LE(|keys|, 2), t8, tail);
  }

  /** An encoded block followed by anything decodes to itself, and exactly its bytes are consumed. */
  lemma BlockRoundTrip(b: Block, keys: seq<Text>, tail: seq<Byte>)
    requires BlockFits(b) && Enumerates(keys, b.properties)
    ensures TakeBlock(EncBlock(b, keys) + tail) == Ok((b, tail))
  {
    hide EncBlock, EncMany, EncSpan, TakeSpan, EncText, TakeText, TakeInt, TakeType, Many, LE, FromLE, TypeTag, Listed, Collected;
    var t8 := EncMany(EncEntry, Listed(b.properties, keys)) + tail;
    var t7 := LE(|keys|, 2) + t8;
    var t6 := EncText(4, b.content) + t7;
    var t5 := EncSpan(b.span) + t6;
    var t4 := LE(b.post, 4) + t5;
    var t3 := LE(b.pre, 4) + t4;
    var t2 := [TypeTag(b.blockType)] + t3;
    var t1 := LE(b.documentId, 4) + t2;
    BlockFields(b, keys, tail);
    TakeIntOf(b.id, 4, t1);
    TakeIntOf(b.documentId, 4, t2);
    TypeRoundTrip(b.blockType, t3);
    TakeIntOf(b.pre, 4, t4);
    TakeIntOf(b.post, 4, t5);
    SpanRoundTrip(b.span, t6);
    TakeTextOf(4, b.content, t7);
    TakeIntOf(|keys|, 2, t8);
    EntriesRoundTrip(b, keys, tail);
    CollectedListing(b.properties, keys);
  }

  // Table rows

  function EncCell(c: Text): seq<Byte> { EncText(4, c) }

  function EncRow(row: seq<Text>): seq<Byte> { EncMany(EncCell, row) }

  function TakeCell(s: seq<Byte>): Parsed<Text> { TakeText(4, s) }

  function TakeRow(cols: nat): seq<Byte> -> Parsed<seq<Text>> {
    s => Many(cols, TakeCell, s)
  }

  /** `decode_table_rows`: the bytes left over are ignored. */
  function DecodeRows(s: seq<Byte>, rows: nat, cols: nat): Result<seq<seq<Text>>> {
    match Many(rows, TakeRow(cols), s) case Err => Err case Ok((xs, _)) => Ok(xs)
  }

  predicate RowFits(row: seq<Text>, cols: nat) {
    |row| == cols && forall c | c in row :: IsText(4, c)
  }

  lemma {:induction false} EncManySplit<T>(enc: T -> seq<Byte>, xs: seq<T>, n: nat)
    requires n <= |xs|
    ensures EncMany(enc, xs) == EncMany(enc, xs[..n]) + EncMany(enc, xs[n..])
  {
    if n == 0 {
      assert xs[..0] == [] && xs[0..] == xs;
    } else {
      EncManySplit(enc, xs[1..], n - 1);
      assert xs[..n][1..] == xs[1..][..n - 1] && xs[n..] == xs[1..][n - 1..];
    }
  }

  lemma RowRoundTrip(row: seq<Text>, cols: nat, tail: seq<Byte>)
    requires RowFits(row, cols)
    ensures TakeRow(cols)(EncRow(row) + tail) == Ok((row, tail))
  {
    hide TakeText, EncText;
    forall c, t: seq<Byte> | c in row ensures TakeCell(EncCell(c) + t) == Ok((c, t)) {
      TakeTextOf(4, c, t);
    }
    ManyOf(EncCell, TakeCell, row, tail);
  }

  lemma {:induction false} RowsPrefix(rows: seq<seq<Text>>, cols: nat, tail: seq<Byte>)
    requires forall r | r in rows :: RowFits(r, cols)
    ensures Many(|rows|, TakeRow(cols), EncMany(EncRow, rows) + tail) == Ok((rows, tail))
  {
    hide TakeRow, EncRow;
    forall r, more: seq<Byte> | r in rows ensures TakeRow(cols)(EncRow(r) + more) == Ok((r, more)) {
      RowRoundTrip(r, cols, more);
    }
    ManyOf(EncRow, TakeRow(cols), rows, tail);
  }

  /** A chain longer than the catalog's row count, as a failed INSERT leaves it, still
      decodes to the rows the catalog counts. */
  lemma {:induction false} RowsRoundTrip(rows: seq<seq<Text>>, n: nat, cols: nat, tail: seq<Byte>)
    requires n <= |rows| && forall r | r in rows :: RowFits(r, cols)
    ensures DecodeRows(EncMany(EncRow, rows) + tail, n, cols) == Ok(rows[..n])
  {
    hide TakeRow, EncRow, EncMany, Many;
    var rest := EncMany(EncRow, rows[n..]) + tail;
    EncManySplit(EncRow, rows, n);
    assert EncMany(EncRow, rows) + tail == EncMany(EncRow, rows[..n]) + rest;
    RowsPrefix(rows[..n], cols, rest);
  }

  // The cursor code

  method ReadProperty(d: Decoder) returns (r: Result<PropertyValue>)
    requires d.Valid()
    modifies d
    ensures d.Valid() && Agrees(TakeProperty(old(d.Rest())), r, d.Rest())
    ensures r.Ok? ==> d.Remaining() < old(d.Remaining())
    decreases d.Remaining(), 0
  {
    hide TakeProperties, TakeText;
    var tag := d.ReadInt(1);
    if tag.Err? { return Err; }
    if tag.value == 0 {
      r := Ok(Null);
    } else if tag.value == 1 {
      var t := d.ReadText(4);
      r := if t.Err? then Err else Ok(String(t.value));
    } else if tag.value == 2 {
      Widths();
      var n := d.ReadInt(8);
      r := if n.Err? then Err else Ok(Int(Signed64(n.value)));
    } else if tag.value == 3 {
      var n := d.ReadInt(8);
      r := if n.Err? then Err else Ok(Float(n.value));
    } else if tag.value == 4 {
      var b := d.ReadInt(1);
      r := if b == Ok(0) then Ok(Bool(false)) else if b == Ok(1) then Ok(Bool(true)) else Err;
    } else if tag.value == 5 {
      var n := d.ReadInt(2);
      if n.Err? { return Err; }
      var values := ReadProperties(d, n.value);
      r := if values.Err? then Err else Ok(Array(values.value));
    } else {
      r := Err;
    }
  }

  method ReadProperties(d: Decoder, count: nat) returns (r: Result<seq<PropertyValue>>)
    requires d.Valid()
    modifies d
    ensures d.Valid() && Agrees(TakeProperties(count, old(d.Rest())), r, d.Rest())
    ensures r.Ok? ==> d.Remaining() <= old(d.Remaining())
    decreases d.Remaining(), 1
  {
    hide TakeProperty, TakeProperties, Many;
    ghost var p := TakeProperty;
    ghost var want := Many(count, p, d.Rest());
    TakePropertiesIsMany(count, d.Rest());
    LoopStart(count, p, d.Rest());
    var xs := [];
    for i := 0 to count
      invariant d.Valid()
      invariant d.Remaining() <= old(d.Remaining())
      invariant Loop(xs, count - i, p, d.Rest(), want)
    {
      ghost var s := d.Rest();
      var x := ReadProperty(d);
      LoopStep(xs, count - i, p, s, want, x, d.Rest());
      if x.Err? { return Err; }
      xs := xs + [x.value];
    }
    LoopEnd(xs, p, d.Rest(), want);
    r := Ok(xs);
  }

  method ReadEntry(d: Decoder) returns (r: Result<Entry>)
    requires d.Valid()
    modifies d
    ensures d.Valid() && Agrees(TakeEntry(old(d.Rest())), r, d.Rest())
  {
    hide TakeProperty, TakeText;
    var key := d.ReadText(1);
    if key.Err? { return Err; }
    var value := ReadProperty(d);
    r := if value.Err? then Err else Ok(Entry(key.value, value.value));
  }

  /** The property loop of `decode_block`, which sets each property as it reads it. */
  method ReadEntries(d: Decoder, count: nat) returns (r: Result<map<Text, PropertyValue>>)
    requires d.Valid()
    modifies d
    ensures d.Valid()
    ensures match Many(count, TakeEntry, old(d.Rest()))
      case Err => r.Err?
      case Ok((entries, tail)) => r == Ok(Collected(entries)) && d.Rest() == tail
  {
    hide TakeEntry, Many;
    ghost var p := TakeEntry;
    ghost var want := Many(count, p, d.Rest());
    ghost var xs := [];
    var properties := map[];
    LoopStart(count, p, d.Rest());
    for i := 0 to count
      invariant d.Valid()
      invariant Loop(xs, count - i, p, d.Rest(), want) && properties == Collected(xs)
    {
      ghost var s := d.Rest();
      var x := ReadEntry(d);
      LoopStep(xs, count - i, p, s, want, x, d.Rest());
      if x.Err? { return Err; }
      assert (xs + [x.value])[..|xs|] == xs;
      xs := xs + [x.value];
      properties := properties[x.value.key := x.value.value];
    }
    LoopEnd(xs, p, d.Rest(), want);
    r := Ok(properties);
  }

  method ReadSpan(d: Decoder) returns (r: Result<Option<Span>>)
    requires d.Valid()
    modifies d
    ensures d.Valid() && Agrees(TakeSpan(old(d.Rest())), r, d.Rest())
  {
    var tag := d.ReadInt(1);
    if tag.Err? { return Err; }
    if tag.value == 0 { return Ok(None); }
    if tag.value != 1 { return Err; }
    var a := d.ReadInt(4);
    if a.Err? { return Err; }
    var b := d.ReadInt(4);
    if b.Err? { return Err; }
    var c := d.ReadInt(4);
    if c.Err? { return Err; }
    var e := d.ReadInt(4);
    if e.Err? { return Err; }
    r := Ok(Some(Span(a.value, b.value, c.value, e.value)));
  }

  method ReadType(d: Decoder) returns (r: Result<BlockType>)
    requires d.Valid()
    modifies d
    ensures d.Valid() && Agrees(TakeType(old(d.Rest())), r, d.Rest())
  {
    var tag := d.ReadInt(1);
    if tag.Err? { return Err; }
    r := TypeFromTag(tag.value);
  }

  /** `decode_block`: the block and how many bytes it took. */
  method DecodeBlock(data: seq<Byte>) returns (r: Result<(Block, nat)>)
    ensures match TakeBlock(data)
      case Err => r.Err?
      case Ok((b, rest)) => r.Ok? && r.value.0 == b && r.value.1 <= |data| && data[r.value.1..] == rest
  {
    hide TakeType, TakeSpan, TakeText, TakeEntry, Many, TypeFromTag;
    var d := new Decoder(data);
    var id := d.ReadInt(4);
    if id.Err? { return Err; }
    var doc := d.ReadInt(4);
    if doc.Err? { return Err; }
    var t := ReadType(d);
    if t.Err? { return Err; }
    var pre := d.ReadInt(4);
    if pre.Err? { return Err; }
    var post := d.ReadInt(4);
    if post.Err? { return Err; }
    var span := ReadSpan(d);
    if span.Err? { return Err; }
    var content := d.ReadText(4);
    if content.Err? { return Err; }
    var count := d.ReadInt(2);
    if count.Err? { return Err; }
    var properties := ReadEntries(d, count.value);
    if properties.Err? { return Err; }
    r := Ok((Block(id.value, doc.value, t.value, content.value, span.value, pre.value, post.value, properties.value), d.pos));
  }

  method ReadRow(d: Decoder, cols: nat) returns (r: Result<seq<Text>>)
    requires d.Valid()
    modifies d
    ensures d.Valid() && Agrees(TakeRow(cols)(old(d.Rest())), r, d.Rest())
  {
    hide TakeText, Many;
    ghost var want := Many(cols, TakeCell, d.Rest());
    LoopStart(cols, TakeCell, d.Rest());
    var xs := [];
    for i := 0 to cols
      invariant d.Valid() && Loop(xs, cols - i, TakeCell, d.Rest(), want)
    {
      ghost var s := d.Rest();
      var x := d.ReadText(4);
      LoopStep(xs, cols - i, TakeCell, s, want, x, d.Rest());
      if x.Err? { return Err; }
      xs := xs + [x.value];
    }
    LoopEnd(xs, TakeCell, d.Rest(), want);
    r := Ok(xs);
  }

  method DecodeTableRows(data: seq<Byte>, rows: nat, cols: nat) returns (r: Result<seq<seq<Text>>>)
    ensures r == DecodeRows(data, rows, cols)
  {
    hide TakeRow, Many;
    var d := new Decoder(data);
    ghost var want := Many(rows, TakeRow(cols), data);
    LoopStart(rows, TakeRow(cols), data);
    var xs := [];
    for i := 0 to rows
      invariant d.Valid() && Loop(xs, rows - i, TakeRow(cols), d.Rest(), want)
    {
      ghost var s := d.Rest();
      var x := ReadRow(d, cols);
      LoopStep(xs, rows - i, TakeRow(cols), s, want, x, d.Rest());
      if x.Err? { return Err; }
      xs := xs + [x.value];
    }
    LoopEnd(xs, TakeRow(cols), d.Rest(), want);
    r := Ok(xs);
  }
}
