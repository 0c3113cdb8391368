/** The catalog blob: what `serialize_catalog` writes and `read_catalog_from` reads back. */
module CatalogCodec {
  import opened Bytes
  import opened Parsing

  datatype TokenizerKind = Word | Bigram | Trigram

  function TokenizerTag(t: TokenizerKind): Byte {
    match t
    case Word => 0
    case Bigram => 1
    case Trigram => 2
  }

  function TokenizerFromTag(b: nat): Result<TokenizerKind> {
    if b == 0 then Ok(Word) else if b == 1 then Ok(Bigram) else if b == 2 then Ok(Trigram) else Err
  }

  type Text = seq<Byte>

  datatype CatalogEntry = CatalogEntry(
    documentId: nat, path: Option<Text>, firstBlockPage: nat, numBlocks: nat,
    zoneMap: seq<Byte>, indexStartPage: nat)

  datatype CustomTableEntry = CustomTableEntry(
    name: Text, columns: seq<Text>, firstRowPage: nat, lastRowPage: nat, numRows: nat)

  datatype HashEntry = HashEntry(documentId: nat, hash: nat)

  datatype ViewEntry = ViewEntry(name: Text, sql: Text)

  datatype Catalog = Catalog(
    entries: seq<CatalogEntry>, tables: seq<CustomTableEntry>, hashes: seq<HashEntry>,
    views: seq<ViewEntry>, tokenizer: TokenizerKind)

  const EMPTY_CATALOG := Catalog([], [], [], [], Word)

  // The length-prefix bounds: outside them `as_u16`/`as_u32` panic instead of encoding.

  predicate IsU32(n: nat) { n < Pow256(4) }

  predicate IsString(t: Text) { |t| < Pow256(2) && ValidUtf8(t) }

  predicate EntryFits(e: CatalogEntry) {
    IsU32(e.documentId) && IsU32(e.firstBlockPage) && IsU32(e.numBlocks) && IsU32(e.indexStartPage) &&
    IsU32(|e.zoneMap|) && (e.path.Some? ==> IsString(e.path.value))
  }

  predicate TableFits(t: CustomTableEntry) {
    IsString(t.name) && |t.columns| < Pow256(2) && (forall c | c in t.columns :: IsString(c)) &&
    IsU32(t.firstRowPage) && IsU32(t.lastRowPage) && IsU32(t.numRows)
  }

  predicate HashFits(h: HashEntry) { IsU32(h.documentId) && h.hash < Pow256(8) }

  predicate ViewFits(v: ViewEntry) { IsString(v.name) && IsString(v.sql) }

  predicate Fits(c: Catalog) {
    IsU32(|c.entries|) && (forall e | e in c.entries :: EntryFits(e)) &&
    IsU32(|c.tables|) && (forall t | t in c.tables :: TableFits(t)) &&
    IsU32(|c.hashes|) && (forall h | h in c.hashes :: HashFits(h)) &&
    IsU32(|c.views|) && (forall v | v in c.views :: ViewFits(v))
  }

  // Encoding

  function EncPath(path: Option<Text>): seq<Byte> {
    match path
    case None => [0]
    case Some(t) => [1] + EncText(2, t)
  }

  function EncEntry(e: CatalogEntry): seq<Byte> {
    LE(e.documentId, 4) + (EncPath(e.path) + (LE(e.firstBlockPage, 4) + (LE(e.numBlocks, 4) +
    (LE(|e.zoneMap|, 4) + (e.zoneMap + LE(e.indexStartPage, 4))))))
  }

  function EncString(t: Text): seq<Byte> { EncText(2, t) }

  function EncTable(t: CustomTableEntry): seq<Byte> {
    EncString(t.name) + (LE(|t.columns|, 2) + (EncMany(EncString, t.columns) +
    (LE(t.firstRowPage, 4) + (LE(t.lastRowPage, 4) + LE(t.numRows, 4)))))
  }

  function EncHash(h: HashEntry): seq<Byte> { LE(h.documentId, 4) + LE(h.hash, 8) }

  function EncView(v: ViewEntry): seq<Byte> { EncString(v.name) + EncString(v.sql) }

  /** A section: how many elements, then the elements. */
  function EncSection<T>(enc: T -> seq<Byte>, xs: seq<T>): seq<Byte> {
    LE(|xs|, 4) + EncMany(enc, xs)
  }

  function Encode(c: Catalog): seq<Byte> {
    EncSection(EncEntry, c.entries) + (EncSection(EncTable, c.tables) + (EncSection(EncHash, c.hashes) +
    (EncSection(EncView, c.views) + [TokenizerTag(c.tokenizer)])))
  }

  // Decoding

  function TakePath(s: seq<Byte>): Parsed<Option<Text>> {
    match TakeInt(1, s)
    case Err => Err
    case Ok((tag, rest)) =>
      if tag == 0 then Ok((None, rest))
      else if tag == 1 then
        match TakeText(2, rest)
        case Err => Err
        case Ok((t, tail)) => Ok((Some(t), tail))
      else Err
  }

  function TakeEntry(s: seq<Byte>): Parsed<CatalogEntry> {
    match TakeInt(4, s) case Err => Err case Ok((id, s1)) =>
    match TakePath(s1) case Err => Err case Ok((path, s2)) =>
    match TakeInt(4, s2) case Err => Err case Ok((first, s3)) =>
    match TakeInt(4, s3) case Err => Err case Ok((blocks, s4)) =>
    match TakeInt(4, s4) case Err => Err case Ok((len, s5)) =>
    match TakeBytes(len, s5) case Err => Err case Ok((zone, s6)) =>
    match TakeInt(4, s6) case Err => Err case Ok((index, s7)) =>
      Ok((CatalogEntry(id, path, first, blocks, zone, index), s7))
  }

  function TakeString(s: seq<Byte>): Parsed<Text> { TakeText(2, s) }

  function TakeTable(s: seq<Byte>): Parsed<CustomTableEntry> {
    match TakeString(s) case Err => Err case Ok((name, s1)) =>
    match TakeInt(2, s1) case Err => Err case Ok((count, s2)) =>
    match Many(count, TakeString, s2) case Err => Err case Ok((columns, s3)) =>
    match TakeInt(4, s3) case Err => Err case Ok((first, s4)) =>
    match TakeInt(4, s4) case Err => Err case Ok((last, s5)) =>
    match TakeInt(4, s5) case Err => Err case Ok((rows, s6)) =>
      Ok((CustomTableEntry(name, columns, first, last, rows), s6))
  }

  function TakeHash(s: seq<Byte>): Parsed<HashEntry> {
    match TakeInt(4, s) case Err => Err case Ok((id, s1)) =>
    match TakeInt(8, s1) case Err => Err case Ok((hash, s2)) => Ok((HashEntry(id, hash), s2))
  }

  function TakeView(s: seq<Byte>): Parsed<ViewEntry> {
    match TakeString(s) case Err => Err case Ok((name, s1)) =>
    match TakeString(s1) case Err => Err case Ok((sql, s2)) => Ok((ViewEntry(name, sql), s2))
  }

  function TakeSection<T>(p: seq<Byte> -> Parsed<T>, s: seq<Byte>): Parsed<seq<T>> {
    match TakeInt(4, s) case Err => Err case Ok((n, rest)) => Many(n, p, rest)
  }

  /** A section added to the format later: absent if fewer than four bytes remain. */
  function TakeLaterSection<T>(p: seq<Byte> -> Parsed<T>, s: seq<Byte>): Parsed<seq<T>> {
    if |s| >= 4 then TakeSection(p, s) else Ok(([], s))
  }

  function TakeTokenizer(s: seq<Byte>): Result<TokenizerKind> {
    match TakeInt(1, s)
    case Err => Ok(Word)
    case Ok((tag, _)) => TokenizerFromTag(tag)
  }

  function Decode(s: seq<Byte>): Result<Catalog> {
    match TakeSection(TakeEntry, s) case Err => Err case Ok((entries, s1)) =>
    match TakeLaterSection(TakeTable, s1) case Err => Err case Ok((tables, s2)) =>
    match TakeLaterSection(TakeHash, s2) case Err => Err case Ok((hashes, s3)) =>
    match TakeLaterSection(TakeView, s3) case Err => Err case Ok((views, s4)) =>
    match TakeTokenizer(s4) case Err => Err case Ok(kind) =>
      Ok(Catalog(entries, tables, hashes, views, kind))
  }

  // Round trips

  lemma PathRoundTrip(path: Option<Text>, tail: seq<Byte>)
    requires path.Some? ==> IsString(path.value)
    ensures TakePath(EncPath(path) + tail) == Ok((path, tail))
  {
    Widths();
    match path
    case None =>
      assert LE(0, 1) == [0];
      TakeIntOf(0, 1, tail);
    case Some(t) =>
      assert LE(1, 1) == [1];
      TakeIntOf(1, 1, EncText(2, t) + tail);
      assert EncPath(path) + tail == [1] + (EncText(2, t) + tail);
      TakeTextOf(2, t, tail);
  }

  lemma EntryFields(e: CatalogEntry, tail: seq<Byte>)
    ensures EncEntry(e) + tail == LE(e.documentId, 4) + (EncPath(e.path) + (LE(e.firstBlockPage, 4) +
      (LE(e.numBlocks, 4) + (LE(|e.zoneMap|, 4) + (e.zoneMap + (LE(e.indexStartPage, 4) + tail))))))
  {
    hide EncPath, LE;
    var f5 := e.zoneMap + LE(e.indexStartPage, 4);
    var f4 := LE(|e.zoneMap|, 4) + f5;
    var f3 := LE(e.numBlocks, 4) + f4;
    var f2 := LE(e.firstBlockPage, 4) + f3;
    Regroup(LE(e.documentId, 4), EncPath(e.path) + f2, tail);
    Regroup(EncPath(e.path), f2, tail);
    Regroup(LE(e.firstBlockPage, 4), f3, tail);
    Regroup(LE(e.numBlocks, 4), f4, tail);
    Regroup(LE(|e.zoneMap|, 4), f5, tail);
    Regroup(e.zoneMap, LE(e.indexStartPage, 4), tail);
  }

  lemma EntryRoundTrip(e: CatalogEntry, tail: seq<Byte>)
    requires EntryFits(e)
    ensures TakeEntry(EncEntry(e) + tail) == Ok((e, tail))
  {
    hide EncPath, TakePath, LE, TakeInt, TakeBytes, EncEntry;
    var t6 := LE(e.indexStartPage, 4) + tail;
    var t5 := e.zoneMap + t6;
    var t4 := LE(|e.zoneMap|, 4) + t5;
    var t3 := LE(e.numBlocks, 4) + t4;
    var t2 := LE(e.firstBlockPage, 4) + t3;
    var t1 := EncPath(e.path) + t2;
    EntryFields(e, tail);
    TakeIntOf(e.documentId, 4, t1);
    PathRoundTrip(e.path, t2);
    TakeIntOf(e.firstBlockPage, 4, t3);
    TakeIntOf(e.numBlocks, 4, t4);
    TakeIntOf(|e.zoneMap|, 4, t5);
    TakeBytesOf(e.zoneMap, t6);
    TakeIntOf(e.indexStartPage, 4, tail);
  }

  lemma StringRoundTrip(t: Text, tail: seq<Byte>)
    requires IsString(t)
    ensures TakeString(EncString(t) + tail) == Ok((t, tail))
  {
    TakeTextOf(2, t, tail);
  }

  lemma TableFields(t: CustomTableEntry, tail: seq<Byte>)
    ensures EncTable(t) + tail == EncString(t.name) + (LE(|t.columns|, 2) + (EncMany(EncString, t.columns) +
      (LE(t.firstRowPage, 4) + (LE(t.lastRowPage, 4) + (LE(t.numRows, 4) + tail)))))
  {
    hide EncString, EncMany, LE;
    var f4 := LE(t.lastRowPage, 4) + LE(t.numRows, 4);
    var f3 := LE(t.firstRowPage, 4) + f4;
    var f2 := EncMany(EncString, t.columns) + f3;
    Regroup(EncString(t.name), LE(|t.columns|, 2) + f2, tail);
    Regroup(LE(|t.columns|, 2), f2, tail);
    Regroup(EncMany(EncString, t.columns), f3, tail);
    Regroup(LE(t.firstRowPage, 4), f4, tail);
    Regroup(LE(t.lastRowPage, 4), LE(t.numRows, 4), tail);
  }

  lemma TableRoundTrip(t: CustomTableEntry, tail: seq<Byte>)
    requires TableFits(t)
    ensures TakeTable(EncTable(t) + tail) == Ok((t, tail))
  {
    hide EncString, TakeString, EncMany, Many, LE, TakeInt, EncTable;
    var t5 := LE(t.numRows, 4) + tail;
    var t4 := LE(t.lastRowPage, 4) + t5;
    var t3 := LE(t.firstRowPage, 4) + t4;
    var t2 := EncMany(EncString, t.columns) + t3;
    var t1 := LE(|t.columns|, 2) + t2;
    TableFields(t, tail);
    StringRoundTrip(t.name, t1);
    TakeIntOf(|t.columns|, 2, t2);
    forall c, rest: seq<Byte> | c in t.columns ensures TakeString(EncString(c) + rest) == Ok((c, rest)) {
      StringRoundTrip(c, rest);
    }
    ManyOf(EncString, TakeString, t.columns, t3);
    TakeIntOf(t.firstRowPage, 4, t4);
    TakeIntOf(t.lastRowPage, 4, t5);
    TakeIntOf(t.numRows, 4, tail);
  }

  lemma HashRoundTrip(h: HashEntry, tail: seq<Byte>)
    requires HashFits(h)
    ensures TakeHash(EncHash(h) + tail) == Ok((h, tail))
  {
    assert EncHash(h) + tail == LE(h.documentId, 4) + (LE(h.hash, 8) + tail);
    TakeIntOf(h.documentId, 4, LE(h.hash, 8) + tail);
    TakeIntOf(h.hash, 8, tail);
  }

  lemma ViewRoundTrip(v: ViewEntry, tail: seq<Byte>)
    requires ViewFits(v)
    ensures TakeView(EncView(v) + tail) == Ok((v, tail))
  {
    assert EncView(v) + tail == EncString(v.name) + (EncString(v.sql) + tail);
    StringRoundTrip(v.name, EncString(v.sql) + tail);
    StringRoundTrip(v.sql, tail);
  }

  lemma SectionRoundTrip<T>(enc: T -> seq<Byte>, p: seq<Byte> -> Parsed<T>, xs: seq<T>, tail: seq<Byte>)
    requires IsU32(|xs|)
    requires forall x, rest: seq<Byte> | x in xs :: p(enc(x) + rest) == Ok((x, rest))
    ensures TakeSection(p, EncSection(enc, xs) + tail) == Ok((xs, tail))
    ensures TakeLaterSection(p, EncSection(enc, xs) + tail) == Ok((xs, tail))
  {
    assert EncSection(enc, xs) + tail == LE(|xs|, 4) + (EncMany(enc, xs) + tail);
    TakeIntOf(|xs|, 4, EncMany(enc, xs) + tail);
    ManyOf(enc, p, xs, tail);
  }

  lemma EntriesRoundTrip(c: Catalog, tail: seq<Byte>)
    requires Fits(c)
    ensures TakeSection(TakeEntry, EncSection(EncEntry, c.entries) + tail) == Ok((c.entries, tail))
  {
    forall e, rest: seq<Byte> | e in c.entries ensures TakeEntry(EncEntry(e) + rest) == Ok((e, rest)) {
      EntryRoundTrip(e, rest);
    }
    SectionRoundTrip(EncEntry, TakeEntry, c.entries, tail);
  }

  lemma TablesRoundTrip(c: Catalog, tail: seq<Byte>)
    requires Fits(c)
    ensures TakeLaterSection(TakeTable, EncSection(EncTable, c.tables) + tail) == Ok((c.tables, tail))
  {
    forall t, rest: seq<Byte> | t in c.tables ensures TakeTable(EncTable(t) + rest) == Ok((t, rest)) {
      TableRoundTrip(t, rest);
    }
    SectionRoundTrip(EncTable, TakeTable, c.tables, tail);
  }

  lemma HashesRoundTrip(c: Catalog, tail: seq<Byte>)
    requires Fits(c)
    ensures TakeLaterSection(TakeHash, EncSection(EncHash, c.hashes) + tail) == Ok((c.hashes, tail))
  {
    forall h, rest: seq<Byte> | h in c.hashes ensures TakeHash(EncHash(h) + rest) == Ok((h, rest)) {
      HashRoundTrip(h, rest);
    }
    SectionRoundTrip(EncHash, TakeHash, c.hashes, tail);
  }

  lemma ViewsRoundTrip(c: Catalog, tail: seq<Byte>)
    requires Fits(c)
    ensures TakeLaterSection(TakeView, EncSection(EncView, c.views) + tail) == Ok((c.views, tail))
  {
    forall v, rest: seq<Byte> | v in c.views ensures TakeView(EncView(v) + rest) == Ok((v, rest)) {
      ViewRoundTrip(v, rest);
    }
    SectionRoundTrip(EncView, TakeView, c.views, tail);
  }

  lemma TokenizerRoundTrip(kind: TokenizerKind, tail: seq<Byte>)
    ensures TakeTokenizer([TokenizerTag(kind)] + tail) == Ok(kind)
  {
    Widths();
    assert LE(TokenizerTag(kind), 1) == [TokenizerTag(kind)];
    TakeIntOf(TokenizerTag(kind), 1, tail);
  }

  lemma SectionsOf(c: Catalog, tail: seq<Byte>)
    ensures Encode(c) + tail == EncSection(EncEntry, c.entries) + (EncSection(EncTable, c.tables) +
      (EncSection(EncHash, c.hashes) + (EncSection(EncView, c.views) + ([TokenizerTag(c.tokenizer)] + tail))))
  {
    hide EncSection, TokenizerTag;
    var v := EncSection(EncView, c.views) + [TokenizerTag(c.tokenizer)];
    var h := EncSection(EncHash, c.hashes) + v;
    Regroup(EncSection(EncEntry, c.entries), EncSection(EncTable, c.tables) + h, tail);
    Regroup(EncSection(EncTable, c.tables), h, tail);
    Regroup(EncSection(EncHash, c.hashes), v, tail);
    Regroup(EncSection(EncView, c.views), [TokenizerTag(c.tokenizer)], tail);
  }

  /** Whatever bytes follow it on its last page, an encoded catalog reads back as itself. */
  lemma CatalogRoundTrip(c: Catalog, tail: seq<Byte>)
    requires Fits(c)
    ensures Decode(Encode(c) + tail) == Ok(c)
  {
    hide EncSection, TakeSection, TakeLaterSection, TakeTokenizer, TokenizerTag, Fits;
    var t4 := [TokenizerTag(c.tokenizer)] + tail;
    var t3 := EncSection(EncView, c.views) + t4;
    var t2 := EncSection(EncHash, c.hashes) + t3;
    var t1 := EncSection(EncTable, c.tables) + t2;
    SectionsOf(c, tail);
    EntriesRoundTrip(c, t1);
    TablesRoundTrip(c, t2);
    HashesRoundTrip(c, t3);
    ViewsRoundTrip(c, t4);
    TokenizerRoundTrip(c.tokenizer, tail);
  }

  lemma ZeroInt(k: nat, n: nat)
    requires k <= n
    ensures TakeInt(k, Zeros(n)) == Ok((0, Zeros(n - k)))
  {
    AllZero(k);
    assert Zeros(n)[..k] == Zeros(k) && Zeros(n)[k..] == Zeros(n - k);
  }

  lemma {:induction false} AllZero(k: nat)
    ensures FromLE(Zeros(k)) == 0
  {
    if k > 0 {
      assert Zeros(k)[1..] == Zeros(k - 1);
      AllZero(k - 1);
    }
  }

  lemma ZeroSection<T>(p: seq<Byte> -> Parsed<T>, n: nat)
    ensures TakeLaterSection(p, Zeros(n)) == Ok(([], Zeros(if n >= 4 then n - 4 else n)))
  {
    if n >= 4 {
      ZeroInt(4, n);
    }
  }

  /** A blob written before the hash, view and tokenizer sections existed still
      reads back, however many zero bytes pad its last page. */
  lemma OldBlobDecodes(c: Catalog, n: nat)
    requires Fits(c)
    ensures Decode(EncSection(EncEntry, c.entries) + (EncSection(EncTable, c.tables) + Zeros(n)))
         == Ok(Catalog(c.entries, c.tables, [], [], Word))
  {
    EntriesRoundTrip(c, EncSection(EncTable, c.tables) + Zeros(n));
    TablesRoundTrip(c, Zeros(n));
    ZeroSection(TakeHash, n);
    var n1 := if n >= 4 then n - 4 else n;
    ZeroSection(TakeView, n1);
    var n2 := if n1 >= 4 then n1 - 4 else n1;
    if n2 >= 1 {
      ZeroInt(1, n2);
    }
  }

  // The code that writes and reads them

  method PushSection<T>(out: seq<Byte>, enc: T -> seq<Byte>, xs: seq<T>) returns (r: seq<Byte>)
    ensures r == out + EncSection(enc, xs)
  {
    r := out + LE(|xs|, 4);
    assert xs[0..] == xs;
    for i := 0 to |xs|
      invariant r + EncMany(enc, xs[i..]) == out + EncSection(enc, xs)
    {
      assert xs[i..][1..] == xs[i + 1..];
      r := r + enc(xs[i]);
    }
    assert r + [] == r;
  }

  method SerializeCatalog(c: Catalog) returns (out: seq<Byte>)
    ensures out == Encode(c)
  {
    hide EncSection, TokenizerTag;
    ghost var e, t, h := EncSection(EncEntry, c.entries), EncSection(EncTable, c.tables), EncSection(EncHash, c.hashes);
    ghost var v, k := EncSection(EncView, c.views), [TokenizerTag(c.tokenizer)];
    out := PushSection([], EncEntry, c.entries);
    assert out == e;
    out := PushSection(out, EncTable, c.tables);
    out := PushSection(out, EncHash, c.hashes);
    Regroup(e, t, h);
    out := PushSection(out, EncView, c.views);
    Regroup(e, t + h, v);
    Regroup(t, h, v);
    out := out + [TokenizerTag(c.tokenizer)];
    Regroup(e, t + (h + v), k);
    Regroup(t, h + v, k);
    Regroup(h, v, k);
  }

  method ReadPath(d: Decoder) returns (r: Result<Option<Text>>)
    requires d.Valid()
    modifies d
    ensures d.Valid() && Agrees(TakePath(old(d.Rest())), r, d.Rest())
  {
    var tag := d.ReadInt(1);
    if tag.Err? {
      return Err;
    }
    if tag.value == 0 {
      return Ok(None);
    }
    if tag.value != 1 {
      return Err;
    }
    var text := d.ReadText(2);
    r := if text.Err? then Err else Ok(Some(text.value));
  }

  method ReadEntry(d: Decoder) returns (r: Result<CatalogEntry>)
    requires d.Valid()
    modifies d
    ensures d.Valid() && Agrees(TakeEntry(old(d.Rest())), r, d.Rest())
  {
    var id := d.ReadInt(4);
    if id.Err? { return Err; }
    var path := ReadPath(d);
    if path.Err? { return Err; }
    var first := d.ReadInt(4);
    if first.Err? { return Err; }
    var blocks := d.ReadInt(4);
    if blocks.Err? { return Err; }
    var len := d.ReadInt(4);
    if len.Err? { return Err; }
    var zone := d.ReadExact(len.value);
    if zone.Err? { return Err; }
    var index := d.ReadInt(4);
    if index.Err? { return Err; }
    r := Ok(CatalogEntry(id.value, path.value, first.value, blocks.value, zone.value, index.value));
  }

  method ReadEntries(d: Decoder, count: nat) returns (r: Result<seq<CatalogEntry>>)
    requires d.Valid()
    modifies d
    ensures d.Valid() && Agrees(Many(count, TakeEntry, old(d.Rest())), r, d.Rest())
  {
    ghost var p := TakeEntry;
    ghost var want := Many(count, p, d.Rest());
    LoopStart(count, p, d.Rest());
    var xs := [];
    for i := 0 to count
      invariant d.Valid()
      invariant Loop(xs, count - i, p, d.Rest(), want)
    {
      ghost var s := d.Rest();
      var x := ReadEntry(d);
      LoopStep(xs, count - i, p, s, want, x, d.Rest());
      if x.Err? { return Err; }
      xs := xs + [x.value];
    }
    LoopEnd(xs, p, d.Rest(), want);
    r := Ok(xs);
  }

  method ReadColumns(d: Decoder, count: nat) returns (r: Result<seq<Text>>)
    requires d.Valid()
    modifies d
    ensures d.Valid() && Agrees(Many(count, TakeString, old(d.Rest())), r, d.Rest())
  {
    ghost var p := TakeString;
    ghost var want := Many(count, p, d.Rest());
    LoopStart(count, p, d.Rest());
    var xs := [];
    for i := 0 to count
      invariant d.Valid()
      invariant Loop(xs, count - i, p, d.Rest(), want)
    {
      ghost var s := d.Rest();
      var x := d.ReadText(2);
      LoopStep(xs, count - i, p, s, want, x, d.Rest());
      if x.Err? { return Err; }
      xs := xs + [x.value];
    }
    LoopEnd(xs, p, d.Rest(), want);
    r := Ok(xs);
  }

  method ReadTable(d: Decoder) returns (r: Result<CustomTableEntry>)
    requires d.Valid()
    modifies d
    ensures d.Valid() && Agrees(TakeTable(old(d.Rest())), r, d.Rest())
  {
    var name := d.ReadText(2);
    if name.Err? { return Err; }
    var count := d.ReadInt(2);
    if count.Err? { return Err; }
    var columns := ReadColumns(d, count.value);
    if columns.Err? { return Err; }
    var first := d.ReadInt(4);
    if first.Err? { return Err; }
    var last := d.ReadInt(4);
    if last.Err? { return Err; }
    var rows := d.ReadInt(4);
    if rows.Err? { return Err; }
    r := Ok(CustomTableEntry(name.value, columns.value, first.value, last.value, rows.value));
  }

  method ReadTables(d: Decoder, count: nat) returns (r: Result<seq<CustomTableEntry>>)
    requires d.Valid()
    modifies d
    ensures d.Valid() && Agrees(Many(count, TakeTable, old(d.Rest())), r, d.Rest())
  {
    ghost var p := TakeTable;
    ghost var want := Many(count, p, d.Rest());
    LoopStart(count, p, d.Rest());
    var xs := [];
    for i := 0 to count
      invariant d.Valid()
      invariant Loop(xs, count - i, p, d.Rest(), want)
    {
      ghost var s := d.Rest();
      var x := ReadTable(d);
      LoopStep(xs, count - i, p, s, want, x, d.Rest());
      if x.Err? { return Err; }
      xs := xs + [x.value];
    }
    LoopEnd(xs, p, d.Rest(), want);
    r := Ok(xs);
  }

  method ReadHash(d: Decoder) returns (r: Result<HashEntry>)
    requires d.Valid()
    modifies d
    ensures d.Valid() && Agrees(TakeHash(old(d.Rest())), r, d.Rest())
  {
    var id := d.ReadInt(4);
    if id.Err? { return Err; }
    var hash := d.ReadInt(8);
    if hash.Err? { return Err; }
    r := Ok(HashEntry(id.value, hash.value));
  }

  method ReadHashes(d: Decoder, count: nat) returns (r: Result<seq<HashEntry>>)
    requires d.Valid()
    modifies d
    ensures d.Valid() && Agrees(Many(count, TakeHash, old(d.Rest())), r, d.Rest())
  {
    ghost var p := TakeHash;
    ghost var want := Many(count, p, d.Rest());
    LoopStart(count, p, d.Rest());
    var xs := [];
    for i := 0 to count
      invariant d.Valid()
      invariant Loop(xs, count - i, p, d.Rest(), want)
    {
      ghost var s := d.Rest();
      var x := ReadHash(d);
      LoopStep(xs, count - i, p, s, want, x, d.Rest());
      if x.Err? { return Err; }
      xs := xs + [x.value];
    }
    LoopEnd(xs, p, d.Rest(), want);
    r := Ok(xs);
  }

  method ReadView(d: Decoder) returns (r: Result<ViewEntry>)
    requires d.Valid()
    modifies d
    ensures d.Valid() && Agrees(TakeView(old(d.Rest())), r, d.Rest())
  {
    var name := d.ReadText(2);
    if name.Err? { return Err; }
    var sql := d.ReadText(2);
    if sql.Err? { return Err; }
    r := Ok(ViewEntry(name.value, sql.value));
  }

  method ReadViews(d: Decoder, count: nat) returns (r: Result<seq<ViewEntry>>)
    requires d.Valid()
    modifies d
    ensures d.Valid() && Agrees(Many(count, TakeView, old(d.Rest())), r, d.Rest())
  {
    ghost var p := TakeView;
    ghost var want := Many(count, p, d.Rest());
    LoopStart(count, p, d.Rest());
    var xs := [];
    for i := 0 to count
      invariant d.Valid()
      invariant Loop(xs, count - i, p, d.Rest(), want)
    {
      ghost var s := d.Rest();
      var x := ReadView(d);
      LoopStep(xs, count - i, p, s, want, x, d.Rest());
      if x.Err? { return Err; }
      xs := xs + [x.value];
    }
    LoopEnd(xs, p, d.Rest(), want);
    r := Ok(xs);
  }

  method ReadTokenizer(d: Decoder) returns (r: Result<TokenizerKind>)
    requires d.Valid()
    modifies d
    ensures r == TakeTokenizer(old(d.Rest()))
  {
    if d.Remaining() < 1 { return Ok(Word); }
    var tag := d.ReadInt(1);
    r := TokenizerFromTag(tag.value);
  }

  method ReadTableSection(d: Decoder) returns (r: Result<seq<CustomTableEntry>>)
    requires d.Valid()
    modifies d
    ensures d.Valid() && Agrees(TakeLaterSection(TakeTable, old(d.Rest())), r, d.Rest())
  {
    if d.Remaining() < 4 { return Ok([]); }
    var count := d.ReadInt(4);
    r := ReadTables(d, count.value);
  }

  method ReadHashSection(d: Decoder) returns (r: Result<seq<HashEntry>>)
    requires d.Valid()
    modifies d
    ensures d.Valid() && Agrees(TakeLaterSection(TakeHash, old(d.Rest())), r, d.Rest())
  {
    if d.Remaining() < 4 { return Ok([]); }
    var count := d.ReadInt(4);
    r := ReadHashes(d, count.value);
  }

  method ReadViewSection(d: Decoder) returns (r: Result<seq<ViewEntry>>)
    requires d.Valid()
    modifies d
    ensures d.Valid() && Agrees(TakeLaterSection(TakeView, old(d.Rest())), r, d.Rest())
  {
    if d.Remaining() < 4 { return Ok([]); }
    var count := d.ReadInt(4);
    r := ReadViews(d, count.value);
  }

  /** The decoding half of `read_catalog_from`, on the bytes its chain loop collected. */
  method DecodeCatalog(bytes: seq<Byte>) returns (r: Result<Catalog>)
    ensures r == Decode(bytes)
  {
    hide Many, TakeTokenizer, TakeLaterSection;
    var d := new Decoder(bytes);
    var count := d.ReadInt(4);
    if count.Err? { return Err; }
    var entries := ReadEntries(d, count.value);
    if entries.Err? { return Err; }
    var tables := ReadTableSection(d);
    if tables.Err? { return Err; }
    var hashes := ReadHashSection(d);
    if hashes.Err? { return Err; }
    var views := ReadViewSection(d);
    if views.Err? { return Err; }
    var kind := ReadTokenizer(d);
    if kind.Err? { return Err; }
    r := Ok(Catalog(entries.value, tables.value, hashes.value, views.value, kind.value));
  }
}
