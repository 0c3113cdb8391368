/** Opening a store: whatever happened to its file, what is loaded is what one flush
    published, the last acknowledged one or one attempted after it. */
module StoreOpening {
  import opened Bytes
  import opened PageFormat
  import opened PageChain
  import opened StorageFile
  import opened StoreContents
  import opened DocumentStore
  import CP = CommitProtocol
  import CS = CommitSafety
  import CC = CatalogCodec
  import BC = BlockCodec
  import IC = IndexCodec
  import ZC = ZoneCodec

  /** One document of `open`, and its blocks and index. */
  method LoadDoc(s: Storage, e: CC.CatalogEntry, ghost d: Doc, ghost chains: set<Chain>) returns (r: Result<Doc>)
    requires s.Valid() && HoldsAll(s.Pages(), chains) && e == DocEntry(d) && DocSaved(d, chains) && ZC.Decode(d.zoneMap).Ok?
    ensures r == Ok(d)
  {
    hide ZC.Decode, IC.Decode, ReadIndex, Storage.Valid, DocSaved, ReadBlocks, HoldsAll;
    DocReadsBack(s.Pages(), d, chains);
    IndexReadsBack(s.Pages(), d, chains);
    var zones := ZC.DecodeZoneMap(e.zoneMap);
    if zones.Err? {
      return Err;
    }
    var blocks := s.LoadBlocks(e.firstBlockPage, e.numBlocks);
    if blocks.Err? {
      return Err;
    }
    var bytes := s.LoadIndex(e.indexStartPage);
    if bytes.Err? {
      return Err;
    }
    var index := IC.FromBytes(bytes.value);
    if index.Err? {
      return Err;
    }
    r := Ok(Doc(e.documentId, e.path, blocks.value, e.zoneMap, index.value, e.firstBlockPage, e.indexStartPage));
  }

  /** The document loop of `open`, with `load_all_blocks` and `load_all_indexes`. */
  method LoadDocs(s: Storage, entries: seq<CC.CatalogEntry>, ghost documents: seq<Doc>, ghost chains: set<Chain>)
      returns (r: Result<seq<Doc>>)
    requires s.Valid() && HoldsAll(s.Pages(), chains) && ListsDocs(entries, documents) && DocsSaved(documents, chains)
    requires forall d | d in documents :: ZC.Decode(d.zoneMap).Ok?
    ensures r == Ok(documents)
  {
    hide ZC.Decode, Storage.Valid, DocSaved, HoldsAll, DocEntry;
    var docs: seq<Doc> := [];
    for i := 0 to |entries|
      invariant docs == documents[..i]
    {
      assert documents[i] in documents;
      var doc := LoadDoc(s, entries[i], documents[i], chains);
      if doc.Err? {
        return Err;
      }
      docs := docs + [doc.value];
    }
    assert documents[..|entries|] == documents;
    r := Ok(docs);
  }

  method LoadTable(s: Storage, e: CC.CustomTableEntry, ghost t: TableState, ghost chains: set<Chain>) returns (r: Result<TableState>)
    requires s.Valid() && HoldsAll(s.Pages(), chains) && e == TableEntry(e.name, t) && TableSaved(t, chains)
    ensures Readable(t.table) ==> r == Ok(Reopened(t))
  {
    hide Storage.Valid, TableSaved, ReadRows, HoldsAll, Readable;
    if Readable(t.table) {
      ReopenedReadsBack(s.Pages(), t, chains);
    }
    var rows := s.LoadRows(e.firstRowPage, e.numRows, |e.columns|);
    r := match rows case Err => Err
      case Ok(rs) => Ok(TableState(CatalogState.Table(e.columns, rs, [], []), e.firstRowPage, e.lastRowPage));
  }

  /** The table loop. Constraints come back empty, and rows without columns come back
      without cells. */
  method LoadTables(s: Storage, entries: seq<CC.CustomTableEntry>, ghost p: Contents, ghost chains: set<Chain>)
      returns (r: Result<map<BC.Text, TableState>>)
    requires s.Valid() && HoldsAll(s.Pages(), chains) && ListsTables(entries, p.tables) && TablesSaved(p.tables, chains)
    ensures AllReadable(p) ==> r == Ok(Reloaded(p).tables)
  {
    hide Storage.Valid, TableSaved, HoldsAll, Readable, Reopened;
    var tables: map<BC.Text, TableState> := map[];
    for i := 0 to |entries|
      invariant tables.Keys == set k | 0 <= k < i :: entries[k].name
      invariant AllReadable(p) ==> forall n | n in tables :: n in p.tables && tables[n] == Reopened(p.tables[n])
    {
      var e := entries[i];
      assert e in entries;
      var table := LoadTable(s, e, p.tables[e.name], chains);
      if table.Err? {
        return Err;
      }
      tables := tables[e.name := table.value];
    }
    forall n | n in p.tables ensures n in tables {
      var k :| 0 <= k < |entries| && entries[k] == TableEntry(n, p.tables[n]);
      assert entries[k].name == n;
    }
    assert AllReadable(p) ==> tables == Reloaded(p).tables;
    r := Ok(tables);
  }

  method LoadViews(entries: seq<CC.ViewEntry>, ghost views: map<BC.Text, BC.Text>) returns (m: map<BC.Text, BC.Text>)
    requires ListsViews(entries, views)
    ensures m == views
  {
    m := map[];
    for i := 0 to |entries|
      invariant m.Keys == set k | 0 <= k < i :: entries[k].name
      invariant forall n | n in m :: n in views && m[n] == views[n]
    {
      assert entries[i] in entries;
      m := m[entries[i].name := entries[i].sql];
    }
    forall n | n in views ensures n in m {
      var k :| 0 <= k < |entries| && entries[k] == CC.ViewEntry(n, views[n]);
      assert entries[k].name == n;
    }
  }

  method LoadHashes(entries: seq<CC.HashEntry>, ghost hashes: map<nat, nat>) returns (m: map<nat, nat>)
    requires ListsHashes(entries, hashes)
    ensures m == hashes
  {
    m := map[];
    for i := 0 to |entries|
      invariant m.Keys == set k | 0 <= k < i :: entries[k].documentId
      invariant forall n | n in m :: n in hashes && m[n] == hashes[n]
    {
      assert entries[i] in entries;
      m := m[entries[i].documentId := entries[i].hash];
    }
    forall n | n in hashes ensures n in m {
      var k :| 0 <= k < |entries| && entries[k] == CC.HashEntry(n, hashes[n]);
      assert entries[k].documentId == n;
    }
  }

  /** One above the largest id, cut to 32 bits; 0 without documents. */
  ghost predicate IsNextId(documents: seq<Doc>, next: nat) {
    if documents == [] then next == 0
    else exists d :: d in documents && (forall x | x in documents :: x.id <= d.id) && next == if d.id + 1 < U32 then d.id + 1 else U32 - 1
  }

  /** The next document id. */
  method NextId(documents: seq<Doc>) returns (next: nat)
    ensures IsNextId(documents, next)
  {
    var largest: Option<nat> := None;
    ghost var last := 0;
    for i := 0 to |documents|
      invariant largest.None? <==> i == 0
      invariant i > 0 ==> last < i && largest == Some(documents[last].id) && forall k | 0 <= k < i :: documents[k].id <= documents[last].id
    {
      var id := documents[i].id;
      if largest.None? || largest.value <= id {
        largest := Some(id);
        last := i;
      }
    }
    next := match largest case None => 0 case Some(id) => if id + 1 < U32 then id + 1 else U32 - 1;
    if documents != [] {
      assert documents[last] in documents;
    }
  }

  /** The loops of `open` over what the catalog lists. */
  method LoadContents(s: Storage, c: CC.Catalog, ghost p: Contents, ghost chains: set<Chain>) returns (r: Result<Contents>)
    requires s.Valid() && HoldsAll(s.Pages(), chains) && Saved(p, chains) && Lists(c, p)
    ensures AllReadable(p) ==> r == Ok(Reloaded(p))
    ensures r.Ok? ==> r.value.documents == p.documents && r.value.views == p.views && r.value.hashes == p.hashes
  {
    hide Storage.Valid, Saved, Lists, HoldsAll, AllReadable, ListsDocs, DocsSaved, ListsTables, TablesSaved, ListsHashes, ListsViews,
      ZC.Decode;
    ContentsParts(p, chains, c);
    var documents := LoadDocs(s, c.entries, p.documents, chains);
    var tables := LoadTables(s, c.tables, p, chains);
    if tables.Err? {
      return Err;
    }
    var views := LoadViews(c.views, p.views);
    var hashes := LoadHashes(c.hashes, p.hashes);
    r := Ok(Contents(documents.value, tables.value, views, hashes, c.tokenizer));
  }

  /** What opening may find: the file as it was left, or what a power loss made of it. */
  ghost predicate FoundAs(s: CP.Sys, disk: CP.Disk) {
    disk == s.disk || (disk.pending == [] && CP.CrashImage(s.disk, disk.durable))
  }

  lemma FoundIsImage(s: CP.Sys, disk: CP.Disk)
    requires FoundAs(s, disk)
    ensures CP.CrashImage(s.disk, CP.View(disk))
  {
    hide CP.CrashImage, CP.View;
    if disk == s.disk {
      CS.ViewIsCrashImage(disk);
    } else {
      CleanDisk(disk);
    }
  }

  /** The attempt that opening the file will find. */
  lemma FindAttempt(prior: seq<CP.Sys>, disk: CP.Disk) returns (k: nat)
    requires CS.Run(prior) && FoundAs(prior[|prior| - 1], disk)
    ensures var s, f := prior[|prior| - 1], CP.View(disk);
      s.lastOk <= k < |s.log| && CP.Open(f).Some? && CP.Recovers(f, CP.Open(f).value.root, s.log[k])
  {
    hide CP.CrashImage, CP.View, CP.Open, CP.Recovers, CP.Step, CP.Init;
    FoundIsImage(prior[|prior| - 1], disk);
    CS.EveryCrashRecovers(prior, CP.View(disk));
    k :| prior[|prior| - 1].lastOk <= k < |prior[|prior| - 1].log| &&
      CP.Recovers(CP.View(disk), CP.Open(CP.View(disk)).value.root, prior[|prior| - 1].log[k]);
  }

  lemma RunIsHistory(prior: seq<CP.Sys>)
    requires CS.Run(prior)
    ensures History(prior)
  {
    hide CP.Step, CP.Init;
  }

  /** `DocumentStore::open`, with all blocks and indexes loaded, after any run of a store and any
      crash: it gives the documents, tables, views and hashes of the last acknowledged
      flush or of one attempted after it, if every table published there is readable. */
  method OpenStore(disk: CP.Disk, ghost prior: seq<CP.Sys>, ghost published: seq<Contents>)
      returns (r: Result<DocumentStore>, ghost k: nat)
    requires CS.Run(prior) && FoundAs(prior[|prior| - 1], disk)
    requires AllDescribed(published, prior[|prior| - 1].log)
    ensures prior[|prior| - 1].lastOk <= k < |published|
    ensures AllReadable(published[k]) ==> r.Ok? && r.value.Valid() && r.value.Current() == Reloaded(published[k])
    ensures r.Ok? ==> fresh(r.value) && r.value.tx == None && r.value.published == published
    ensures r.Ok? ==>
      r.value.documents == published[k].documents && r.value.views == published[k].views && r.value.hashes == published[k].hashes
    ensures r.Ok? ==> r.value.storage.history == prior + [r.value.storage.State()]
    ensures r.Ok? ==> IsNextId(r.value.documents, r.value.nextDocId)
  {
    hide AllReadable, IsNextId, CP.Step, CP.Init, CP.CrashImage, CP.View, CP.Open, CP.LoadCatalog, HoldsAll, Storage.Valid, History, Lists, Saved;
    ghost var s := prior[|prior| - 1];
    RunIsHistory(prior);
    k := FindAttempt(prior, disk);
    var handle := OpenFile(disk, prior);
    var storage := handle.value;
    ghost var p, chains := published[k], s.log[k].chains;
    assert Describes(p, s.log[k]);
    var c := storage.ReadCatalog();
    assert c == Ok(s.log[k].catalog);
    var contents := LoadContents(storage, c.value, p, chains);
    if contents.Err? {
      return Err, k;
    }
    var next := NextId(contents.value.documents);
    ReloadedSaved(p, chains);
    var store := new DocumentStore.With(storage, contents.value, next, chains, published);
    r := Ok(store);
  }

  lemma ContentsParts(p: Contents, chains: set<Chain>, c: CC.Catalog)
    requires Saved(p, chains) && Lists(c, p)
    ensures DocsSaved(p.documents, chains) && TablesSaved(p.tables, chains)
    ensures ListsDocs(c.entries, p.documents) && ListsTables(c.tables, p.tables) && ListsHashes(c.hashes, p.hashes)
    ensures ListsViews(c.views, p.views) && c.tokenizer == p.tokenizer
    ensures forall d | d in p.documents :: ZC.Decode(d.zoneMap).Ok?
  {
    hide ZC.Decode;
  }
}
