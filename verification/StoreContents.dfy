/** What a document store holds, as a value; the catalog that lists it; and the
    page chains that store it. */
module StoreContents {
  import opened Bytes
  import opened PageChain
  import opened StorageFile
  import opened CatalogState
  import CP = CommitProtocol
  import CC = CatalogCodec
  import BC = BlockCodec
  import SI = SecondaryIndexes
  import IC = IndexCodec
  import ZC = ZoneCodec
  import opened PageFormat

  /** A document; its zone maps in encoded form. */
  datatype Doc = Doc(
    id: nat, path: Option<Text>, blocks: seq<BC.Block>, zoneMap: seq<Byte>, index: SI.DocumentIndex,
    firstBlockPage: nat, indexStartPage: nat)

  /** A custom table and where its rows are; page 0 says they were never written. */
  datatype TableState = TableState(table: Table, firstRowPage: nat, lastRowPage: nat)

  datatype Contents = Contents(
    documents: seq<Doc>, tables: map<Name, TableState>, views: map<Name, Text>, hashes: map<nat, nat>,
    tokenizer: CC.TokenizerKind)

  function Plain(tables: map<Name, TableState>): map<Name, Table> {
    map n | n in tables :: tables[n].table
  }

  // Within the length-prefix bounds

  predicate DocSized(d: Doc) {
    CC.IsU32(d.id) && (d.path.Some? ==> CC.IsString(d.path.value)) && CC.IsU32(|d.blocks|) && CC.IsU32(|d.zoneMap|) &&
    ZC.Decode(d.zoneMap).Ok? && IC.Fits(d.index) && forall b | b in d.blocks :: BC.BlockFits(b)
  }

  /** Whatever a zone map holds, its encoding may be a document's. */
  lemma EncodedZonesDecode(z: ZC.ZoneMap, o: ZC.Order)
    requires ZC.Fits(z) && ZC.Orders(o, z)
    ensures ZC.Decode(ZC.Encode(z, o)) == Ok(z)
  {
    hide ZC.Fits, ZC.Orders, ZC.Decode, ZC.Encode;
    ZC.ZonesRoundTrip(z, o, []);
    assert ZC.Encode(z, o) + [] == ZC.Encode(z, o);
  }

  predicate TableSized(n: Name, t: Table) {
    CC.IsString(n) && |t.columns| < Pow256(2) && (forall c | c in t.columns :: CC.IsString(c)) &&
    CC.IsU32(|t.rows|) && forall r | r in t.rows :: CellsFit(r)
  }

  predicate TablesSized(tables: map<Name, Table>) {
    CC.IsU32(|tables|) && forall n | n in tables :: TableSized(n, tables[n])
  }

  predicate ViewsSized(views: map<Name, Text>) {
    CC.IsU32(|views|) && forall n | n in views :: CC.IsString(n) && CC.IsString(views[n])
  }

  predicate DocsSized(documents: seq<Doc>) {
    CC.IsU32(|documents|) && forall d | d in documents :: DocSized(d)
  }

  predicate HashesSized(hashes: map<nat, nat>) {
    CC.IsU32(|hashes|) && forall k | k in hashes :: CC.IsU32(k) && hashes[k] < Pow256(8)
  }

  /** Within the bounds, and the catalog is one that statements can lead to. */
  predicate Proper(p: Contents) {
    DocsSized(p.documents) && TablesSized(Plain(p.tables)) && ViewsSized(p.views) && HashesSized(p.hashes) &&
    CatalogOk(Plain(p.tables), p.views)
  }

  // The chains that store it

  ghost predicate IsIndexChain(c: Chain, first: nat, index: SI.DocumentIndex) {
    c.head == PAGE_TYPE_INDEX && c.tail == PAGE_TYPE_OVERFLOW && c.first == first && IC.Fits(index) &&
    exists o :: IC.Orders(o, index) && c.bodies == BlobChunks(IC.Encode(index, o))
  }

  ghost predicate DocSaved(d: Doc, chains: set<Chain>) {
    CC.IsU32(d.firstBlockPage) && CC.IsU32(d.indexStartPage) &&
    (exists c :: c in chains && IsBlockChain(c, d.firstBlockPage, d.blocks)) &&
    exists c :: c in chains && IsIndexChain(c, d.indexStartPage, d.index)
  }

  ghost predicate TableSaved(t: TableState, chains: set<Chain>) {
    CC.IsU32(t.firstRowPage) && CC.IsU32(t.lastRowPage) &&
    if t.firstRowPage == 0 then t.table.rows == []
    else exists c :: c in chains && IsRowChain(c, t.firstRowPage, t.table.rows, |t.table.columns|)
  }

  ghost predicate DocsSaved(documents: seq<Doc>, chains: set<Chain>) {
    forall d | d in documents :: DocSaved(d, chains)
  }

  ghost predicate TablesSaved(tables: map<Name, TableState>, chains: set<Chain>) {
    forall n | n in tables :: TableSaved(tables[n], chains)
  }

  ghost predicate Saved(p: Contents, chains: set<Chain>) {
    Proper(p) && DocsSaved(p.documents, chains) && TablesSaved(p.tables, chains)
  }

  lemma StaysSaved(p: Contents, chains: set<Chain>, more: set<Chain>)
    requires Saved(p, chains) && chains <= more
    ensures Saved(p, more)
  {
    hide Proper, IsBlockChain, IsIndexChain, IsRowChain;
    assert DocsSaved(p.documents, more) by { DocsStaySaved(p.documents, chains, more); }
    assert TablesSaved(p.tables, more) by { TablesStaySaved(p.tables, chains, more); }
  }

  lemma DocsStaySaved(documents: seq<Doc>, chains: set<Chain>, more: set<Chain>)
    requires DocsSaved(documents, chains) && chains <= more
    ensures DocsSaved(documents, more)
  {
    hide IsBlockChain, IsIndexChain;
    forall d | d in documents ensures DocSaved(d, more) {
      assert DocSaved(d, chains);
      var c :| c in chains && IsBlockChain(c, d.firstBlockPage, d.blocks);
      var i :| i in chains && IsIndexChain(i, d.indexStartPage, d.index);
      assert c in more && i in more;
    }
  }

  lemma TableStaysSaved(t: TableState, chains: set<Chain>, more: set<Chain>)
    requires TableSaved(t, chains) && chains <= more
    ensures TableSaved(t, more)
  {
    hide IsRowChain;
    if t.firstRowPage != 0 {
      var c :| c in chains && IsRowChain(c, t.firstRowPage, t.table.rows, |t.table.columns|);
      assert c in more;
    }
  }

  lemma TablesStaySaved(tables: map<Name, TableState>, chains: set<Chain>, more: set<Chain>)
    requires TablesSaved(tables, chains) && chains <= more
    ensures TablesSaved(tables, more)
  {
    hide TableSaved;
    forall n | n in tables ensures TableSaved(tables[n], more) {
      TableStaysSaved(tables[n], chains, more);
    }
  }

  lemma ChainsKept(before: File, after: File, chains: set<Chain>)
    requires Extends(before, after) && HoldsAll(before, chains)
    ensures HoldsAll(after, chains)
  {
    forall c | c in chains ensures Holds(after, c) {
      ChainKept(before, after, c.head, c.tail, c.first, c.bodies);
    }
  }

  // The catalog that lists it

  function DocEntry(d: Doc): CC.CatalogEntry {
    CC.CatalogEntry(d.id, d.path, d.firstBlockPage, |d.blocks|, d.zoneMap, d.indexStartPage)
  }

  function TableEntry(n: Name, t: TableState): CC.CustomTableEntry {
    CC.CustomTableEntry(n, t.table.columns, t.firstRowPage, t.lastRowPage, |t.table.rows|)
  }

  ghost predicate ListsDocs(entries: seq<CC.CatalogEntry>, documents: seq<Doc>) {
    |entries| == |documents| && forall i | 0 <= i < |entries| :: entries[i] == DocEntry(documents[i])
  }

  ghost predicate ListsTables(entries: seq<CC.CustomTableEntry>, tables: map<Name, TableState>) {
    |entries| == |tables| &&
    (forall e | e in entries :: e.name in tables && e == TableEntry(e.name, tables[e.name])) &&
    forall n | n in tables :: TableEntry(n, tables[n]) in entries
  }

  ghost predicate ListsHashes(entries: seq<CC.HashEntry>, hashes: map<nat, nat>) {
    |entries| == |hashes| &&
    (forall e | e in entries :: e.documentId in hashes && hashes[e.documentId] == e.hash) &&
    forall k | k in hashes :: CC.HashEntry(k, hashes[k]) in entries
  }

  ghost predicate ListsViews(entries: seq<CC.ViewEntry>, views: map<Name, Text>) {
    |entries| == |views| &&
    (forall e | e in entries :: e.name in views && views[e.name] == e.sql) &&
    forall n | n in views :: CC.ViewEntry(n, views[n]) in entries
  }

  ghost predicate Lists(c: CC.Catalog, p: Contents) {
    ListsDocs(c.entries, p.documents) && ListsTables(c.tables, p.tables) && ListsHashes(c.hashes, p.hashes) &&
    ListsViews(c.views, p.views) && c.tokenizer == p.tokenizer
  }

  /** What a published attempt stands for: its catalog lists it and its chains store it. */
  ghost predicate Describes(p: Contents, a: CP.Attempt) {
    Lists(a.catalog, p) && Saved(p, a.chains)
  }

  lemma ListedFits(c: CC.Catalog, p: Contents, chains: set<Chain>)
    requires Lists(c, p) && Saved(p, chains)
    ensures CC.Fits(c)
  {
    hide ZC.Decode, IC.Fits, IsIndexChain, IsBlockChain, IsRowChain, BC.BlockFits, CellsFit, CC.IsString, CC.IsU32, Pow256, CatalogOk;
    forall e | e in c.entries ensures CC.EntryFits(e) {
      var i :| 0 <= i < |c.entries| && c.entries[i] == e;
      assert p.documents[i] in p.documents;
    }
    TablesFit(c.tables, p.tables, chains);
    assert forall v | v in c.views :: CC.ViewFits(v);
    assert forall h | h in c.hashes :: CC.HashFits(h);
  }

  lemma TablesFit(entries: seq<CC.CustomTableEntry>, tables: map<Name, TableState>, chains: set<Chain>)
    requires ListsTables(entries, tables) && TablesSized(Plain(tables)) && TablesSaved(tables, chains)
    ensures CC.IsU32(|entries|) && forall t | t in entries :: CC.TableFits(t)
  {
    hide IsRowChain, CellsFit, CC.IsString, CC.IsU32, Pow256;
    PlainSize(tables);
    forall t | t in entries ensures CC.TableFits(t) {
      assert t.name in Plain(tables) && TableSized(t.name, Plain(tables)[t.name]) && TableSaved(tables[t.name], chains);
    }
  }

  lemma PlainSize(tables: map<Name, TableState>)
    ensures |Plain(tables)| == |tables|
  {
    assert Plain(tables).Keys == tables.Keys;
  }

  lemma PlainUpdate(tables: map<Name, TableState>, n: Name, t: TableState)
    ensures Plain(tables[n := t]) == Plain(tables)[n := t.table]
  {
  }

  lemma PlainMinus(tables: map<Name, TableState>, names: set<Name>)
    ensures Plain(tables - names) == Plain(tables) - names
  {
  }

  // Listing loops

  method EntriesOf(documents: seq<Doc>) returns (entries: seq<CC.CatalogEntry>)
    ensures ListsDocs(entries, documents)
  {
    entries := [];
    for i := 0 to |documents|
      invariant ListsDocs(entries, documents[..i])
    {
      entries := entries + [DocEntry(documents[i])];
    }
  }

  method TableEntries(tables: map<Name, TableState>) returns (entries: seq<CC.CustomTableEntry>)
    ensures ListsTables(entries, tables)
  {
    var names := ListKeys(tables);
    entries := [];
    for i := 0 to |names|
      invariant |entries| == i && forall k | 0 <= k < i :: entries[k] == TableEntry(names[k], tables[names[k]])
    {
      assert names[i] in names;
      entries := entries + [TableEntry(names[i], tables[names[i]])];
    }
    forall n | n in tables ensures TableEntry(n, tables[n]) in entries {
      var k :| 0 <= k < |names| && names[k] == n;
      assert entries[k] == TableEntry(n, tables[n]);
    }
  }

  method HashEntries(hashes: map<nat, nat>) returns (entries: seq<CC.HashEntry>)
    ensures ListsHashes(entries, hashes)
  {
    var keys := ListKeys(hashes);
    entries := [];
    for i := 0 to |keys|
      invariant |entries| == i && forall k | 0 <= k < i :: entries[k] == CC.HashEntry(keys[k], hashes[keys[k]])
    {
      assert keys[i] in keys;
      entries := entries + [CC.HashEntry(keys[i], hashes[keys[i]])];
    }
    forall n | n in hashes ensures CC.HashEntry(n, hashes[n]) in entries {
      var k :| 0 <= k < |keys| && keys[k] == n;
      assert entries[k] == CC.HashEntry(n, hashes[n]);
    }
  }

  method ViewEntries(views: map<Name, Text>) returns (entries: seq<CC.ViewEntry>)
    ensures ListsViews(entries, views)
  {
    var names := ListKeys(views);
    entries := [];
    for i := 0 to |names|
      invariant |entries| == i && forall k | 0 <= k < i :: entries[k] == CC.ViewEntry(names[k], views[names[k]])
    {
      assert names[i] in names;
      entries := entries + [CC.ViewEntry(names[i], views[names[i]])];
    }
    forall n | n in views ensures CC.ViewEntry(n, views[n]) in entries {
      var k :| 0 <= k < |names| && names[k] == n;
      assert entries[k] == CC.ViewEntry(n, views[n]);
    }
  }

  method BuildCatalog(p: Contents) returns (c: CC.Catalog)
    ensures Lists(c, p)
  {
    var entries := EntriesOf(p.documents);
    var custom := TableEntries(p.tables);
    var pairs := HashEntries(p.hashes);
    var texts := ViewEntries(p.views);
    c := CC.Catalog(entries, custom, pairs, texts, p.tokenizer);
  }

  // Reading it back

  /** The stored blocks of every catalog entry read back as that document's blocks. */
  lemma DocReadsBack(f: File, d: Doc, chains: set<Chain>)
    requires DocSaved(d, chains) && HoldsAll(f, chains)
    ensures ReadBlocks(f, d.firstBlockPage, |d.blocks|) == Ok(d.blocks)
  {
    hide ReadBlocks, ChainAt, IsIndexChain;
    var c :| c in chains && IsBlockChain(c, d.firstBlockPage, d.blocks);
    BlocksReadBack(f, c, d.blocks);
  }

  /** And the stored index as that document's index. */
  lemma IndexReadsBack(f: File, d: Doc, chains: set<Chain>)
    requires DocSaved(d, chains) && HoldsAll(f, chains)
    ensures match ReadIndex(f, d.indexStartPage) case Err => false case Ok(bytes) => IC.Decode(bytes) == Ok(d.index)
  {
    hide ReadIndex, ChainAt, IsBlockChain, IC.Fits, IC.Orders, IC.Decode, IC.Encode, BlobChunks;
    var c :| c in chains && IsIndexChain(c, d.indexStartPage, d.index);
    var o :| IC.Orders(o, d.index) && c.bodies == BlobChunks(IC.Encode(d.index, o));
    IndexBytesReadBack(f, c, IC.Encode(d.index, o));
    var n: nat :| ReadIndex(f, c.first) == Ok(IC.Encode(d.index, o) + Zeros(n));
    IC.IndexRoundTrip(d.index, o, Zeros(n));
  }

  /** Every row has one cell per column. */
  predicate Rectangular(t: Table) { forall r | r in t.rows :: |r| == |t.columns| }

  /** The stored rows of a table entry read back as that table's rows exactly if every
      row has one cell per column. */
  lemma TableReadsBackIff(f: File, t: TableState, chains: set<Chain>)
    requires TableSaved(t, chains) && HoldsAll(f, chains)
    ensures ReadRows(f, t.firstRowPage, |t.table.rows|, |t.table.columns|) == Ok(t.table.rows) <==> Rectangular(t.table)
  {
    hide ChainAt, ReadRows, StandFor, HasCell, CellsFit, RowBodies, RowChunks;
    if t.firstRowPage != 0 {
      var c :| c in chains && IsRowChain(c, t.firstRowPage, t.table.rows, |t.table.columns|);
      RowsReadBackIff(f, c, t.table.rows, |t.table.columns|);
    } else {
      assert ReadRows(f, 0, 0, |t.table.columns|) == Ok([]) by { NoRows(f, |t.table.columns|); }
    }
  }

  lemma NoRows(f: File, cols: nat)
    ensures ReadRows(f, 0, 0, cols) == Ok([])
  {
  }

  /** `CREATE TABLE t AS VALUES (1)` names no column: the row reads back without its cell. */
  lemma ValuesReadBackEmpty(f: File, name: Name, t: TableState, chains: set<Chain>)
    requires !BuiltIn(name) && TableSaved(t, chains) && HoldsAll(f, chains)
    requires var s := CreateTableAs(name, Ok(QueryOutput([], [[[49]]])), false, false);
      t.table == CreateTableAsOutcome(Db(map[], map[], None), s).tables[name]
    ensures t.table.rows == [[[49]]] && ReadRows(f, t.firstRowPage, |t.table.rows|, |t.table.columns|) == Ok([[]])
  {
    hide ChainAt, ReadRows, StandFor, HasCell, CellsFit, RowBodies, RowChunks;
    assert t.firstRowPage != 0;
    var c :| c in chains && IsRowChain(c, t.firstRowPage, t.table.rows, 0);
    NoColumnsReadBack(f, c, t.table.rows);
    assert Hollow(1) == [[]];
  }

  /** What opening reads back whatever the constraints: rows of the right width, or, with
      no columns, that many rows. */
  predicate Readable(t: Table) { t.columns == [] || Rectangular(t) }

  predicate AllReadable(p: Contents) { forall n | n in p.tables :: Readable(p.tables[n].table) }

  /** The constraints of a table are not part of the catalog: reopening forgets them.
      Without columns it forgets the cells too. */
  function Reopened(t: TableState): TableState {
    t.(table := Table(t.table.columns, if t.table.columns == [] then Hollow(|t.table.rows|) else t.table.rows, [], []))
  }

  lemma ReopenedReadsBack(f: File, t: TableState, chains: set<Chain>)
    requires TableSaved(t, chains) && HoldsAll(f, chains) && Readable(t.table)
    ensures ReadRows(f, t.firstRowPage, |t.table.rows|, |t.table.columns|) == Ok(Reopened(t).table.rows)
  {
    hide ChainAt, ReadRows, StandFor, HasCell, CellsFit, RowBodies, RowChunks;
    if t.table.columns == [] && t.firstRowPage != 0 {
      var c :| c in chains && IsRowChain(c, t.firstRowPage, t.table.rows, 0);
      NoColumnsReadBack(f, c, t.table.rows);
    } else {
      TableReadsBackIff(f, t, chains);
    }
  }

  /** A readable table comes back as it was exactly if it has no constraint, and columns
      if any row has a cell. */
  lemma ReopenedIff(t: TableState)
    ensures Reopened(t) == t <==> Unconstrained(t.table) && (t.table.columns == [] ==> !HasCell(t.table.rows))
  {
    if t.table.columns == [] && !HasCell(t.table.rows) {
      assert forall i | 0 <= i < |t.table.rows| :: t.table.rows[i] in t.table.rows;
      assert t.table.rows == Hollow(|t.table.rows|);
    }
  }

  /** With a UNIQUE column, an INSERT refused before reopening is accepted after it. */
  lemma ReopenedAcceptsDuplicate(name: Name, column: Name)
    ensures var t := TableState(Table([column], [[[49]]], [], [[0]]), 3, 3);
      var s := Insert(name, None, Ok([[[49]]]));
      InsertOutcome(Db(map[name := t.table], map[], None), s).Fails? &&
      InsertOutcome(Db(map[name := Reopened(t).table], map[], None), s).Writes?
  {
    var t, row: Row := Table([column], [[[49]]], [], [[0]]), [[49]];
    assert [0] in t.unique && row in t.rows && row in [row];
    assert !NewKeys(t.rows, [row], [0]);
    assert BuiltRow(1, None, row) == Ok(row) && [row][1..] == [] && BuiltRows(1, None, []) == Ok([]);
    assert BuiltRows(1, None, [row]) == Ok([row] + []);
  }

  function Reloaded(p: Contents): Contents {
    p.(tables := map n | n in p.tables :: Reopened(p.tables[n]))
  }

  lemma ReopenedSaved(n: Name, t: TableState, chains: set<Chain>)
    requires TableSaved(t, chains) && TableSized(n, t.table)
    ensures TableSaved(Reopened(t), chains) && TableSized(n, Reopened(t).table)
  {
    hide IsRowChain, CC.IsString, CC.IsU32, CellsFit, Pow256;
    assert CellsFit([]) by { NothingFits(); }
    if t.firstRowPage != 0 {
      var c :| c in chains && IsRowChain(c, t.firstRowPage, t.table.rows, |t.table.columns|);
      if t.table.columns == [] {
        HollowChain(c, t.firstRowPage, t.table.rows);
      }
    }
  }

  lemma NothingFits()
    ensures CellsFit([])
  {
  }

  /** The chain of a table that lost its cells is still its chain. */
  lemma HollowChain(c: Chain, first: nat, rows: seq<Row>)
    requires IsRowChain(c, first, rows, 0)
    ensures IsRowChain(c, first, Hollow(|rows|), 0)
  {
    hide RowBodies, RowChunks, CellsFit, HasCell;
    var stored :| StandFor(stored, rows, 0) && HasCell(stored) && (forall r | r in stored :: CellsFit(r)) &&
      c.bodies == RowBodies(RowChunks(stored));
    assert StandFor(stored, Hollow(|rows|), 0);
  }

  lemma ReopenedOk(p: Contents)
    requires CatalogOk(Plain(p.tables), p.views)
    ensures CatalogOk(Plain(Reloaded(p).tables), p.views)
  {
    forall n | n in Plain(Reloaded(p).tables) ensures TableOk(Plain(Reloaded(p).tables)[n]) && n !in p.views && !BuiltIn(n) {
      assert n in Plain(p.tables) && TableOk(Plain(p.tables)[n]);
    }
  }

  lemma ReloadedSaved(p: Contents, chains: set<Chain>)
    requires Saved(p, chains)
    ensures Saved(Reloaded(p), chains)
  {
    hide DocSaved, DocSized, TableSaved, TableSized, CC.IsString, CC.IsU32, Pow256, CatalogOk;
    ReopenedOk(p);
    var q := Reloaded(p);
    PlainSize(p.tables);
    PlainSize(q.tables);
    assert q.tables.Keys == p.tables.Keys;
    forall n | n in q.tables ensures TableSaved(q.tables[n], chains) && TableSized(n, Plain(q.tables)[n]) {
      assert TableSized(n, Plain(p.tables)[n]);
      ReopenedSaved(n, p.tables[n], chains);
    }
  }

  /** What writing the unwritten tables does to the table map. */
  ghost predicate Persisted(before: map<Name, TableState>, after: map<Name, TableState>) {
    after.Keys == before.Keys &&
    forall n | n in before :: after[n].table == before[n].table &&
      (before[n].firstRowPage != 0 || before[n].table.rows == [] ==> after[n] == before[n])
  }

  lemma SavedArePersisted(before: map<Name, TableState>, after: map<Name, TableState>, chains: set<Chain>)
    requires TablesSaved(before, chains) && Persisted(before, after)
    ensures after == before
  {
    hide IsRowChain;
    forall n | n in before ensures after[n] == before[n] {
      assert TableSaved(before[n], chains);
    }
  }

  predicate Unwritten(t: TableState) { t.firstRowPage == 0 && t.lastRowPage == 0 }

  /** Rows that can be written: with a cell, if there are any. */
  predicate Writable(t: Table) { t.rows == [] || HasCell(t.rows) }

  /** Every table is stored, or new. */
  ghost predicate TablesReady(tables: map<Name, TableState>, chains: set<Chain>) {
    forall n | n in tables :: TableSaved(tables[n], chains) || (Unwritten(tables[n]) && Writable(tables[n].table))
  }

  lemma TablesStayReady(tables: map<Name, TableState>, chains: set<Chain>, more: set<Chain>)
    requires TablesReady(tables, chains) && chains <= more
    ensures TablesReady(tables, more)
  {
    hide TableSaved;
    forall n | n in tables ensures TableSaved(tables[n], more) || (Unwritten(tables[n]) && Writable(tables[n].table)) {
      if TableSaved(tables[n], chains) {
        TableStaysSaved(tables[n], chains, more);
      }
    }
  }

  lemma PersistedStep(before: map<Name, TableState>, after: map<Name, TableState>, n: Name, t: TableState)
    requires Persisted(before, after) && n in after && after[n].firstRowPage == 0 && after[n].table.rows != []
    requires t.table == after[n].table
    ensures Persisted(before, after[n := t]) && Plain(after[n := t]) == Plain(after) && n in before
  {
  }

  lemma PersistedSelf(tables: map<Name, TableState>)
    ensures Persisted(tables, tables)
  {
  }

  lemma TableOfPlain(tables: map<Name, TableState>, n: Name)
    requires n in tables && TablesSized(Plain(tables))
    ensures TableSized(n, tables[n].table)
  {
    assert n in Plain(tables);
  }

  lemma ReadyStep(tables: map<Name, TableState>, chains: set<Chain>, n: Name, t: TableState)
    requires TablesReady(tables, chains) && TableSaved(t, chains)
    ensures TablesReady(tables[n := t], chains)
  {
    hide TableSaved;
  }

  lemma SavedAreReady(tables: map<Name, TableState>, chains: set<Chain>)
    requires TablesSaved(tables, chains)
    ensures TablesReady(tables, chains)
  {
    hide TableSaved;
  }

  lemma AllWritten(tables: map<Name, TableState>, names: seq<Name>, chains: set<Chain>)
    requires TablesReady(tables, chains) && forall n | n in tables :: n in names
    requires forall k | 0 <= k < |names| :: names[k] in tables && (tables[names[k]].firstRowPage != 0 || tables[names[k]].table.rows == [])
    ensures TablesSaved(tables, chains)
  {
    hide IsRowChain;
    forall n | n in tables ensures TableSaved(tables[n], chains) {
      assert n in names;
    }
  }

  /** Whatever a flush persisted, tables the statement left alone are as they were. */
  lemma UntouchedStay(before: map<Name, TableState>, mid: map<Name, TableState>, after: map<Name, TableState>, n: Name, chains: set<Chain>)
    requires TablesSaved(before, chains) && Persisted(mid, after)
    requires forall k | k in mid && k != n :: k in before && mid[k] == before[k]
    requires forall k | k in before && k != n :: k in mid
    ensures forall k | k in before && k != n :: k in after && after[k] == before[k]
    ensures n !in before && n in mid ==> after - {n} == before
    ensures n in before && n in mid ==> after[n := before[n]] == before
  {
    hide IsRowChain;
    forall k | k in before && k != n ensures k in after && after[k] == before[k] {
      assert TableSaved(before[k], chains);
    }
  }

  lemma TruncatedSaved(t: TableState, n: nat, chains: set<Chain>)
    requires TableSaved(t, chains) && n <= |t.table.rows|
    ensures TableSaved(t.(table := t.table.(rows := t.table.rows[..n])), chains)
  {
    hide IsRowChain;
    if t.firstRowPage != 0 {
      var c :| c in chains && IsRowChain(c, t.firstRowPage, t.table.rows, |t.table.columns|);
      FrontChain(c, t.firstRowPage, t.table.rows, n, |t.table.columns|);
    }
  }

  lemma FrontChain(c: Chain, first: nat, rows: seq<Row>, n: nat, cols: nat)
    requires IsRowChain(c, first, rows, cols) && n <= |rows|
    ensures IsRowChain(c, first, rows[..n], cols)
  {
    hide RowBodies, RowChunks, CellsFit, HasCell;
    var stored :| StandFor(stored, rows, cols) && HasCell(stored) && (forall r | r in stored :: CellsFit(r)) &&
      c.bodies == RowBodies(RowChunks(stored));
    assert rows <= stored ==> rows[..n] <= stored;
    assert forall r | r in rows[..n] :: r in rows;
    assert StandFor(stored, rows[..n], cols);
  }

  lemma TableUpdateSaved(tables: map<Name, TableState>, n: Name, t: TableState, chains: set<Chain>)
    requires TableSaved(t, chains) && forall k | k in tables && k != n :: TableSaved(tables[k], chains)
    ensures TablesSaved(tables[n := t], chains)
  {
    hide TableSaved;
  }

  lemma TableMinusSaved(tables: map<Name, TableState>, names: set<Name>, chains: set<Chain>)
    requires TablesSaved(tables, chains)
    ensures TablesSaved(tables - names, chains)
  {
    hide TableSaved;
  }
}
