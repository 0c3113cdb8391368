/** The document store on its file: documents, custom tables, views and the open
    transaction in memory, each change written copy-on-write and published by a
    catalog flush, undone in memory if the flush fails. */
module DocumentStore {
  import opened Bytes
  import opened PageChain
  import opened PageFormat
  import opened StorageFile
  import opened CatalogState
  import opened Reindexing
  import opened StoreContents
  import opened Statements
  import CP = CommitProtocol
  import CS = CommitSafety
  import CC = CatalogCodec
  import BC = BlockCodec
  import SI = SecondaryIndexes
  import IC = IndexCodec
  import ZC = ZoneCodec

  datatype TxSnapshot = TxSnapshot(before: Contents, owner: nat, externalWrite: bool)

  ghost predicate AllDescribed(published: seq<Contents>, log: seq<CP.Attempt>)
    ensures AllDescribed(published, log) ==> |published| == |log|
  {
    |published| == |log| && forall i | 0 <= i < |log| :: Describes(published[i], log[i])
  }

  class DocumentStore {
    const storage: Storage
    const tokenizer: CC.TokenizerKind
    var documents: seq<Doc>
    var nextDocId: nat
    var tables: map<Name, TableState>
    var views: map<Name, Text>
    var hashes: map<nat, nat>
    var tx: Option<TxSnapshot>
    /** Every chain known to be on the file. */
    ghost var chains: set<Chain>
    /** What each commit attempt in the file's log stands for. */
    ghost var published: seq<Contents>

    function Current(): Contents
      reads this
    {
      Contents(documents, tables, views, hashes, tokenizer)
    }

    /** Tables, views and transaction without their page ids. */
    function State(): Db
      reads this
    {
      Db(Plain(tables), views,
         match tx
         case None => None
         case Some(t) => Some(Tx(Plain(t.before.tables), t.before.views, t.owner, t.externalWrite)))
    }

    ghost predicate Backed()
      reads `tx, `chains, `published, storage, storage.file
    {
      storage.Valid() && HoldsAll(storage.Pages(), chains) && AllDescribed(published, storage.log) &&
      (tx.Some? ==> Saved(tx.value.before, chains))
    }

    /** Everything in memory is stored by chains on the file, and every attempt since
        the file was created by the chains it was published with. */
    ghost predicate Valid()
      reads this, storage, storage.file
    {
      Backed() && Saved(Current(), chains)
    }

    /** The last acknowledged flush published exactly what is in memory. */
    ghost predicate Durable()
      reads this, storage, storage.file
    {
      storage.lastOk < |published| && published[storage.lastOk] == Current()
    }

    constructor Create()
      ensures Valid() && fresh(storage) && fresh(storage.file)
      ensures Current() == Contents([], map[], map[], map[], CC.Word) && tx == None && Durable()
    {
      hide Storage.Valid, Pow256, CP.CatalogAt;
      storage := new Storage.Create();
      tokenizer := CC.Word;
      documents := [];
      nextDocId := 0;
      tables := map[];
      views := map[];
      hashes := map[];
      tx := None;
      chains := {};
      published := [Contents([], map[], map[], map[], CC.Word)];
    }

    constructor With(storage: Storage, p: Contents, nextDocId: nat, ghost chains: set<Chain>, ghost published: seq<Contents>)
      requires storage.Valid() && HoldsAll(storage.Pages(), chains) && AllDescribed(published, storage.log)
      ensures this.storage == storage && Current() == p && tx == None && (Saved(p, chains) ==> Valid())
      ensures this.chains == chains && this.published == published && this.nextDocId == nextDocId
    {
      hide Saved, HoldsAll, AllDescribed, Storage.Valid;
      this.storage := storage;
      tokenizer := p.tokenizer;
      documents := p.documents;
      this.nextDocId := nextDocId;
      tables := p.tables;
      views := p.views;
      hashes := p.hashes;
      tx := None;
      this.chains := chains;
      this.published := published;
    }

    // Flushing

    method WriteTable(t: Table) returns (r: Result<TableState>)
      requires Backed() && Writable(t) && forall row | row in t.rows :: CellsFit(row)
      modifies this`chains, storage`history, storage.file
      ensures Backed() && old(chains) <= chains
      ensures r.Ok? ==> r.value.table == t && TableSaved(r.value, chains)
      ensures r.Ok? ==> if t.rows == [] then Unwritten(r.value) else r.value.firstRowPage != 0
      ensures storage.file.faults >= old(storage.file.faults) && (r.Err? ==> storage.file.faults > old(storage.file.faults))
    {
      hide IsRowChain, Saved, CellsFit, HasCell, AllDescribed, Storage.Valid;
      Widths();
      ghost var before := storage.Pages();
      var written := storage.WriteTableRows(t.rows);
      ChainsKept(before, storage.Pages(), chains);
      if written.Err? {
        return Err;
      }
      if t.rows != [] {
        ghost var c: Chain :| (forall cols: nat :: IsRowChain(c, written.value.0, t.rows, cols)) && Holds(storage.Pages(), c);
        GrowTx({c});
        chains := chains + {c};
        assert c in chains && IsRowChain(c, written.value.0, t.rows, |t.columns|);
      }
      r := Ok(TableState(t, written.value.0, written.value.1));
    }

    lemma GrowTx(more: set<Chain>)
      requires tx.Some? ==> Saved(tx.value.before, chains)
      ensures tx.Some? ==> Saved(tx.value.before, chains + more)
    {
      if tx.Some? {
        StaysSaved(tx.value.before, chains, chains + more);
      }
    }

    /** `persist_unsaved_table_rows`: writes every table that has rows but no chain. */
    method PersistUnsaved() returns (r: Result<()>)
      requires Backed() && Proper(Current()) && DocsSaved(documents, chains) && TablesReady(tables, chains)
      modifies `tables, `chains, storage`history, storage.file
      ensures Backed() && Proper(Current()) && DocsSaved(documents, chains) && TablesReady(tables, chains)
      ensures Persisted(old(tables), tables) && Plain(tables) == Plain(old(tables)) && old(chains) <= chains
      ensures r.Ok? ==> TablesSaved(tables, chains)
      ensures storage.file.faults >= old(storage.file.faults) && (r.Err? ==> storage.file.faults > old(storage.file.faults))
    {
      hide Backed, TableSaved, DocsSaved, DocsSized, ViewsSized, HashesSized, TablesReady, Persisted, Plain, CellsFit, HasCell, CatalogOk;
      var names := ListKeys(tables);
      PersistedSelf(tables);
      for i := 0 to |names|
        invariant Backed() && Proper(Current()) && DocsSaved(documents, chains) && TablesReady(tables, chains)
        invariant Persisted(old(tables), tables) && Plain(tables) == Plain(old(tables)) && old(chains) <= chains
        invariant tables.Keys == old(tables).Keys && storage.file.faults >= old(storage.file.faults)
        invariant forall k | 0 <= k < i :: tables[names[k]].firstRowPage != 0 || tables[names[k]].table.rows == []
      {
        var n := names[i];
        assert n in names;
        if tables[n].firstRowPage == 0 && tables[n].table.rows != [] {
          ghost var had := chains;
          TableOfPlain(tables, n);
          NewIsWritable(tables, n, chains);
          var written := WriteTable(tables[n].table);
          DocsStaySaved(documents, had, chains);
          TablesStayReady(tables, had, chains);
          if written.Err? {
            return Err;
          }
          PersistedStep(old(tables), tables, n, written.value);
          ReadyStep(tables, chains, n, written.value);
          tables := tables[n := written.value];
        }
      }
      AllWritten(tables, names, chains);
      r := Ok(());
    }

    /** The catalog of everything in memory, flushed. */
    method PublishCatalog() returns (r: Result<()>)
      requires Valid()
      modifies this`published, storage, storage.file
      ensures Valid() && old(published) <= published
      ensures r.Ok? ==> Durable()
      ensures storage.file.faults >= old(storage.file.faults) && (r.Err? ==> storage.Troubled(old(storage.file.faults)))
    {
      hide Saved, Lists, HoldsAll, Storage.Valid, AllDescribed, Extends, CP.LoadCatalog, CC.Fits;
      var c := BuildCatalog(Current());
      ListedFits(c, Current(), chains);
      ghost var before, log := storage.Pages(), storage.log;
      r := storage.FlushCatalog(c, chains);
      ChainsKept(before, storage.Pages(), chains);
      if storage.log != log {
        published := published + [Current()];
        LogGrows(old(published), log, storage.log, Current());
      }
    }

    /** `flush_catalog_to_storage`. */
    method Flush() returns (r: Result<()>)
      requires Backed() && Proper(Current()) && DocsSaved(documents, chains) && TablesReady(tables, chains)
      modifies this`tables, this`chains, this`published, storage, storage.file
      ensures Backed() && Proper(Current()) && DocsSaved(documents, chains) && TablesReady(tables, chains)
      ensures Persisted(old(tables), tables) && Plain(tables) == Plain(old(tables)) && old(chains) <= chains
      ensures old(published) <= published && (r.Ok? ==> Valid() && Durable())
      ensures storage.file.faults >= old(storage.file.faults) && (r.Err? ==> storage.Troubled(old(storage.file.faults)))
    {
      hide Backed, DocsSaved, TablesSaved, TablesReady, Proper, Persisted, Plain;
      r := PersistUnsaved();
      if r.Ok? {
        r := PublishCatalog();
        SavedAreReady(tables, chains);
      }
    }

    /** A flush with all tables stored changes nothing in memory. */
    method FlushSaved() returns (r: Result<()>)
      requires Valid()
      modifies this`tables, this`chains, this`published, storage, storage.file
      ensures Valid() && tables == old(tables) && old(chains) <= chains && old(published) <= published && (r.Ok? ==> Durable())
      ensures storage.file.faults >= old(storage.file.faults) && (r.Err? ==> storage.Troubled(old(storage.file.faults)))
    {
      hide Backed, DocsSaved, TablesSaved, TablesReady, Proper, Persisted, Plain;
      SavedAreReady(tables, chains);
      r := Flush();
      SavedArePersisted(old(tables), tables, old(chains));
      TablesStaySaved(tables, old(chains), chains);
    }

    /** `append_table_rows_to_storage`: rewrites the named table's chain, then flushes. */
    method AppendTableRows(n: Name) returns (r: Result<()>)
      requires Backed() && Proper(Current()) && DocsSaved(documents, chains) && n in tables && Writable(tables[n].table)
      requires forall k | k in tables && k != n :: TableSaved(tables[k], chains)
      modifies `tables, `chains, `published, storage, storage.file
      ensures Backed() && Proper(Current()) && DocsSaved(documents, chains) && old(chains) <= chains
      ensures tables.Keys == old(tables).Keys && tables == old(tables)[n := tables[n]] && Plain(tables) == Plain(old(tables))
      ensures tables[n].table == old(tables[n]).table
      ensures TableSaved(tables[n], chains) || tables[n] == old(tables[n])
      ensures old(published) <= published && (r.Ok? ==> Valid() && Durable())
      ensures storage.file.faults >= old(storage.file.faults) && (r.Err? ==> storage.Troubled(old(storage.file.faults)))
    {
      hide Backed, DocsSaved, TablesSaved, TableSaved, DocsSized, ViewsSized, HashesSized, Plain, CatalogOk, CellsFit, HasCell;
      TableOfPlain(tables, n);
      var written := WriteTable(tables[n].table);
      DocsStaySaved(documents, old(chains), chains);
      if written.Err? {
        return Err;
      }
      PlainSame(tables, n, written.value);
      RestStaySaved(tables, n, old(chains), chains);
      TableUpdateSaved(tables, n, written.value, chains);
      tables := tables[n := written.value];
      r := PublishCatalog();
    }

    /** `note_catalog_mutation`. */
    method NoteMutation(session: nat)
      requires Valid()
      modifies `tx
      ensures Valid() && (old(Durable()) ==> Durable())
      ensures State() == old(State()).(tx := Noted(old(State()).tx, session))
    {
      hide Saved, HoldsAll, AllDescribed, Storage.Valid;
      if tx.Some? && tx.value.owner != session {
        tx := Some(tx.value.(externalWrite := true));
      }
    }

    // Documents

    /** Blocks first, then the index: the chains of a new version of a document. */
    method WriteDoc(id: nat, path: Option<Text>, p: ParsedDoc) returns (r: Result<Doc>)
      requires Backed() && DocSized(NewDoc(id, path, p))
      modifies `chains, storage`history, storage.file
      ensures Backed() && old(chains) <= chains
      ensures r.Ok? ==> SameDoc(r.value, NewDoc(id, path, p)) && DocSaved(r.value, chains)
      ensures storage.file.faults >= old(storage.file.faults) && (r.Err? ==> storage.file.faults > old(storage.file.faults))
    {
      hide ZC.Decode, IC.Fits, IC.Orders, IC.Encode, BlobChunks, IsBlockChain, Saved, BC.BlockFits, AllDescribed, Storage.Valid, ChainAt;
      Widths();
      ghost var before := storage.Pages();
      var first := storage.WriteDocument(p.blocks);
      ghost var between := storage.Pages();
      ChainsKept(before, between, chains);
      if first.Err? {
        return Err;
      }
      ghost var c: Chain :| IsBlockChain(c, first.value, p.blocks) && Holds(between, c);
      assert HoldsAll(between, {c});
      ghost var o;
      var bytes;
      bytes, o := IC.ToBytes(p.index);
      var index := storage.WriteIndex(bytes);
      ChainsKept(between, storage.Pages(), chains);
      ChainsKept(between, storage.Pages(), {c});
      if index.Err? {
        return Err;
      }
      ghost var i := Chain(PAGE_TYPE_INDEX, PAGE_TYPE_OVERFLOW, index.value, BlobChunks(bytes));
      GrowTx({c, i});
      chains := chains + {c, i};
      assert c in chains && IsBlockChain(c, first.value, p.blocks);
      assert i in chains && IsIndexChain(i, index.value, p.index);
      r := Ok(Doc(id, path, p.blocks, p.zoneMap, p.index, first.value, index.value));
    }

    /** `do_append`. An id is used up even if the pages cannot be written, but given
        back if the flush fails. */
    method DoAppend(source: Source, path: Option<Text>, flush: bool) returns (r: Result<nat>)
      requires Valid() && CC.IsU32(|documents| + 1)
      requires source.Ok? ==> DocSized(NewDoc(nextDocId, path, source.value(nextDocId)))
      modifies `documents, `nextDocId, `tables, `chains, `published, storage, storage.file
      ensures Valid() && tables == old(tables) && old(chains) <= chains && old(published) <= published
      ensures r.Err? ==> documents == old(documents)
      ensures r.Ok? ==>
        (source.Ok? && r.value == old(nextDocId) && nextDocId == old(nextDocId) + 1 &&
         |documents| == |old(documents)| + 1 && documents[..|old(documents)|] == old(documents) &&
         SameDoc(documents[|old(documents)|], NewDoc(r.value, path, source.value(r.value))))
      ensures old(nextDocId) <= nextDocId <= old(nextDocId) + 1
      ensures r.Ok? && flush ==> Durable()
      ensures storage.file.faults >= old(storage.file.faults) && (r.Err? && source.Ok? ==> storage.Troubled(old(storage.file.faults)) && (!flush ==> storage.file.faults > old(storage.file.faults)))
    {
      hide Backed, DocSized, DocsSaved, DocSaved, TablesSaved, Proper, Durable;
      if source.Err? {
        return Err;
      }
      var id := nextDocId;
      nextDocId := nextDocId + 1;
      var doc := WriteDoc(id, path, source.value(id));
      StaysSaved(Current(), old(chains), chains);
      if doc.Err? {
        return Err;
      }
      DocAdded(Current(), doc.value, NewDoc(id, path, source.value(id)), chains);
      documents := documents + [doc.value];
      if flush {
        var flushed := FlushSaved();
        if flushed.Err? {
          documents := documents[..|documents| - 1];
          nextDocId := nextDocId - 1;
          assert documents == old(documents);
          StaysSaved(Current(), old(chains), chains);
          return Err;
        }
      }
      r := Ok(id);
    }

    /** `do_replace_at`: the document keeps its id and place. */
    method DoReplaceAt(at: nat, source: Source, path: Option<Text>, flush: bool) returns (r: Result<()>)
      requires Valid() && at < |documents|
      requires source.Ok? ==> DocSized(NewDoc(documents[at].id, path, source.value(documents[at].id)))
      modifies `documents, `tables, `chains, `published, storage, storage.file
      ensures Valid() && tables == old(tables) && old(chains) <= chains && old(published) <= published
      ensures r.Err? ==> documents == old(documents)
      ensures |documents| == |old(documents)|
      ensures r.Ok? ==>
        (source.Ok? && documents == old(documents)[at := documents[at]] &&
         SameDoc(documents[at], NewDoc(old(documents[at].id), path, source.value(old(documents[at].id)))))
      ensures r.Ok? && flush ==> Durable()
      ensures storage.file.faults >= old(storage.file.faults) && (r.Err? && source.Ok? ==> storage.Troubled(old(storage.file.faults)) && (!flush ==> storage.file.faults > old(storage.file.faults)))
    {
      hide Backed, DocSized, DocsSaved, DocSaved, TablesSaved, Proper, Durable;
      if source.Err? {
        return Err;
      }
      var id := documents[at].id;
      var doc := WriteDoc(id, path, source.value(id));
      StaysSaved(Current(), old(chains), chains);
      if doc.Err? {
        return Err;
      }
      var previous := documents[at];
      DocReplaced(Current(), at, doc.value, NewDoc(id, path, source.value(id)), chains);
      documents := documents[at := doc.value];
      if flush {
        var flushed := FlushSaved();
        if flushed.Err? {
          documents := documents[at := previous];
          assert documents == old(documents);
          StaysSaved(Current(), old(chains), chains);
          return Err;
        }
      }
      r := Ok(());
    }

    /** What reindexing works on. */
    function Indexing(byPath: map<Text, (nat, nat)>): Ix
      reads this
    {
      Ix(documents, hashes, nextDocId, byPath)
    }

    /** A known file whose content changed: its document is replaced, and its hash noted. */
    method UpdateFile(id: nat, at: nat, hash: nat, source: Source, path: Text) returns (ok: bool)
      requires Valid() && at < |documents| && documents[at].id == id
      requires source.Ok? ==> DocSized(NewDoc(id, Some(path), source.value(id)))
      requires CC.IsU32(|hashes| + 1) && hash < Pow256(8)
      modifies `documents, `hashes, `tables, `chains, `published, storage, storage.file
      ensures Valid() && tables == old(tables) && old(chains) <= chains && |documents| == |old(documents)|
      ensures !ok ==> documents == old(documents) && hashes == old(hashes)
      ensures ok ==> source.Ok? && documents == old(documents)[at := documents[at]] && hashes == old(hashes)[id := hash]
      ensures ok ==> SameDoc(documents[at], NewDoc(id, Some(path), source.value(id))) && |hashes| <= |old(hashes)| + 1
      ensures storage.file.faults >= old(storage.file.faults) && (!ok && source.Ok? ==> storage.file.faults > old(storage.file.faults))
    {
      hide Backed, DocsSaved, TablesSaved, Proper, DocSized, Durable, CC.IsU32, Pow256;
      IdSized(Current(), at);
      var done := DoReplaceAt(at, source, Some(path), false);
      ok := done.Ok?;
      if ok {
        HashAdded(Current(), id, hash);
        hashes := hashes[id := hash];
      }
    }

    /** A new file: its document is appended, and its hash noted. */
    method AddFile(hash: nat, source: Source, path: Text) returns (ok: bool)
      requires Valid() && CC.IsU32(|documents| + 1) && CC.IsU32(nextDocId)
      requires source.Ok? ==> DocSized(NewDoc(nextDocId, Some(path), source.value(nextDocId)))
      requires CC.IsU32(|hashes| + 1) && hash < Pow256(8)
      modifies `documents, `nextDocId, `hashes, `tables, `chains, `published, storage, storage.file
      ensures Valid() && tables == old(tables) && old(chains) <= chains
      ensures old(nextDocId) <= nextDocId <= old(nextDocId) + 1 && (ok ==> nextDocId == old(nextDocId) + 1)
      ensures !ok ==> documents == old(documents) && hashes == old(hashes)
      ensures ok ==> source.Ok? && hashes == old(hashes)[old(nextDocId) := hash] && |hashes| <= |old(hashes)| + 1
      ensures ok ==> |documents| == |old(documents)| + 1 && documents[..|old(documents)|] == old(documents)
      ensures ok ==> SameDoc(documents[|old(documents)|], NewDoc(old(nextDocId), Some(path), source.value(old(nextDocId))))
      ensures storage.file.faults >= old(storage.file.faults) && (!ok && source.Ok? ==> storage.file.faults > old(storage.file.faults))
    {
      hide Backed, DocsSaved, TablesSaved, Proper, DocSized, Durable, CC.IsU32, Pow256;
      var done := DoAppend(source, Some(path), false);
      ok := done.Ok?;
      if ok {
        HashAdded(Current(), done.value, hash);
        hashes := hashes[done.value := hash];
      }
    }

    /** One file of `reindex_paths`: unreadable, unchanged, changed or new. */
    method IndexOne(f: IndexedFile, byPath: map<Text, (nat, nat)>)
        returns (located: map<Text, (nat, nat)>, fate: FileFate)
      requires Valid() && FileSized(f) && Locates(documents, byPath)
      requires CC.IsU32(|documents| + 1) && CC.IsU32(nextDocId) && CC.IsU32(|hashes| + 1)
      modifies `documents, `nextDocId, `hashes, `tables, `chains, `published, storage, storage.file
      ensures Valid() && tables == old(tables) && old(chains) <= chains
      ensures IndexStep(old(Indexing(byPath)), f, fate, Indexing(located))
      ensures storage.file.faults >= old(storage.file.faults)
      ensures fate.Failed? && CanBeRead(f) ==> storage.file.faults > old(storage.file.faults)
    {
      hide Valid, DocSized, CC.IsU32, Pow256;
      located, fate := byPath, Failed;
      if f.content.None? {
        return;
      }
      var (hash, source) := f.content.value;
      if f.path in byPath {
        var (id, at) := byPath[f.path];
        if id in hashes && hashes[id] == hash {
          return located, Unchanged;
        }
        KnownIdSized(at);
        var ok := UpdateFile(id, at, hash, source, f.path);
        fate := if ok then Updated else Failed;
      } else {
        var ok := AddFile(hash, source, f.path);
        if ok {
          assert documents == old(documents) + [documents[|old(documents)|]];
          located := byPath[f.path := (documents[|documents| - 1].id, |documents| - 1)];
          fate := Added;
        }
      }
    }

    lemma KnownIdSized(at: nat)
      requires Valid() && at < |documents|
      ensures CC.IsU32(documents[at].id)
    {
      hide Backed, Proper, DocsSaved, TablesSaved, CC.IsU32;
      IdSized(Current(), at);
    }

    /** The map of paths: a path that several documents have goes to the last of them. */
    method LocatePaths() returns (byPath: map<Text, (nat, nat)>)
      ensures Locates(documents, byPath)
    {
      byPath := map[];
      for i := 0 to |documents|
        invariant Locates(documents[..i], byPath)
      {
        var d := documents[i];
        assert documents[..i + 1] == documents[..i] + [d];
        if d.path.Some? {
          OneMoreLocated(documents[..i], d, byPath);
          byPath := byPath[d.path.value := (d.id, i)];
        } else {
          NoneMoreLocated(documents[..i], d, byPath);
        }
      }
      assert documents[..|documents|] == documents;
    }

    /** The pruning of `reindex_paths`: documents at paths not seen go, from the back. */
    method Prune(seen: set<Text>) returns (removed: seq<Text>)
      requires Valid()
      modifies `documents, `hashes
      ensures Valid() && documents == Pruned(old(documents), seen) && removed == PathsPruned(old(documents), seen)
      ensures hashes == old(hashes) - IdsPruned(old(documents), seen)
    {
      hide Backed, Saved, Pruned, PathsPruned, IdsPruned;
      ghost var all := documents;
      PrunedNone(seen);
      removed := [];
      assert all[|all|..] == [] && all[..|all|] == all;
      IdsPrunedNone(seen);
      for i := |documents| downto 0
        invariant Valid() && i <= |all| && documents == all[..i] + Pruned(all[i..], seen) && removed == PathsPruned(all[i..], seen)
        invariant hashes == old(hashes) - IdsPruned(all[i..], seen)
      {
        var d := documents[i];
        PrunedStep(all, i, seen);
        IdsPrunedStep(all, i, seen);
        if !Stays(d, seen) {
          DocRemoved(Current(), i, chains);
          documents := documents[..i] + documents[i + 1..];
          hashes := hashes - {d.id};
          removed := removed + [d.path.value];
        }
      }
    }

    /** The files of `reindex_paths`, one after the other. */
    method IndexAll(files: seq<IndexedFile>) returns (fates: seq<FileFate>, ghost run: seq<Ix>)
      requires Valid() && forall i | 0 <= i < |files| :: FileSized(files[i])
      requires CC.IsU32(|documents| + |files|) && CC.IsU32(nextDocId + |files|) && CC.IsU32(|hashes| + |files|)
      modifies `documents, `nextDocId, `hashes, `tables, `chains, `published, storage, storage.file
      ensures Valid() && tables == old(tables) && old(chains) <= chains
      ensures |fates| == |files| && IndexRun(run, files, fates)
      ensures run[0].documents == old(documents) && run[0].hashes == old(hashes) && run[0].next == old(nextDocId)
      ensures var last := run[|files|]; last.documents == documents && last.hashes == hashes && last.next == nextDocId
      ensures storage.file.faults >= old(storage.file.faults)
      ensures forall k | 0 <= k < |files| && fates[k].Failed? && CanBeRead(files[k]) :: storage.file.faults > old(storage.file.faults)
    {
      hide Valid, FileSized, Locates, IndexStep;
      fates := [];
      var byPath := LocatePaths();
      run := [Indexing(byPath)];
      for k := 0 to |files|
        invariant Valid() && tables == old(tables) && old(chains) <= chains && |fates| == k
        invariant IndexRun(run, files, fates) && run[k] == Indexing(byPath) && storage.file.faults >= old(storage.file.faults)
        invariant forall i | 0 <= i < k && fates[i].Failed? && CanBeRead(files[i]) :: storage.file.faults > old(storage.file.faults)
        invariant run[0].documents == old(documents) && run[0].hashes == old(hashes) && run[0].next == old(nextDocId)
      {
        RunLocates(run, files, fates, k);
        var fate: FileFate;
        byPath, fate := IndexOne(files[k], byPath);
        RunGrows(run, files, fates, fate, Indexing(byPath));
        run := run + [Indexing(byPath)];
        fates := fates + [fate];
      }
    }

    /** `reindex_paths`: all files, the pruning, and one flush that undoes it all if it fails. */
    method Reindex(files: seq<IndexedFile>, prune: bool) returns (r: Result<ReindexReport>)
      requires Valid() && forall i | 0 <= i < |files| :: FileSized(files[i])
      requires CC.IsU32(|documents| + |files|) && CC.IsU32(nextDocId + |files|) && CC.IsU32(|hashes| + |files|)
      modifies `documents, `nextDocId, `hashes, `tables, `chains, `published, storage, storage.file
      ensures Valid() && tables == old(tables)
      ensures r.Err? ==> documents == old(documents) && hashes == old(hashes)
      ensures r.Ok? ==> Durable() && |r.value.files| == |files|
      ensures r.Ok? ==> Reindexed(old(documents), old(hashes), old(nextDocId), files, prune, r.value, documents, hashes, nextDocId)
      ensures storage.file.faults >= old(storage.file.faults) && (r.Err? ==> storage.Troubled(old(storage.file.faults)))
      ensures r.Ok? ==> forall k | 0 <= k < |files| && r.value.files[k].Failed? && CanBeRead(files[k]) :: storage.file.faults > old(storage.file.faults)
    {
      hide Backed, Proper, DocsSaved, TablesSaved, FileSized, Durable, IndexRun, Pruned, PathsPruned, IdsPruned, Reindexed;
      ghost var before := Current();
      var documentsSnapshot, hashesSnapshot := documents, hashes;
      ghost var run;
      var fates;
      fates, run := IndexAll(files);
      var removed: seq<Text> := [];
      if prune {
        removed := Prune(PathsOf(files));
      }
      IndexedThenPruned(run, files, fates, prune);
      StaysSaved(before, old(chains), chains);
      var flushed := FlushOrRestore(documentsSnapshot, hashesSnapshot);
      r := if flushed.Ok? then Ok(ReindexReport(fates, removed)) else Err;
    }

    /** The flush at the end of `reindex_paths`, and the way back if it fails. */
    method FlushOrRestore(documentsSnapshot: seq<Doc>, hashesSnapshot: map<nat, nat>) returns (r: Result<()>)
      requires Valid() && Saved(Current().(documents := documentsSnapshot, hashes := hashesSnapshot), chains)
      modifies `documents, `hashes, `tables, `chains, `published, storage, storage.file
      ensures Valid() && tables == old(tables)
      ensures r.Ok? ==> Durable() && documents == old(documents) && hashes == old(hashes)
      ensures r.Err? ==> documents == documentsSnapshot && hashes == hashesSnapshot
      ensures storage.file.faults >= old(storage.file.faults) && (r.Err? ==> storage.Troubled(old(storage.file.faults)))
    {
      hide Backed, Saved, Durable;
      ghost var before := Current().(documents := documentsSnapshot, hashes := hashesSnapshot);
      r := FlushSaved();
      if r.Err? {
        documents := documentsSnapshot;
        hashes := hashesSnapshot;
        StaysSaved(before, old(chains), chains);
      }
    }

    // Statements

    /** What the statement would write is within the length-prefix bounds, and rows it
        leaves in a table have a cell. */
    ghost predicate Admits(s: Stmt)
      reads this
      requires !Control(s)
    {
      var out := OutcomeOf(State(), s);
      out.Writes? ==> TablesSized(out.tables) && ViewsSized(out.views) && Leaves(s, out.tables)
    }

    /** The state the statement would write may be flushed. */
    lemma WritesProper(s: Stmt, tables: map<Name, TableState>)
      requires Proper(Current()) && !Control(s) && Admits(s) && OutcomeOf(State(), s).Writes?
      requires Plain(tables) == OutcomeOf(State(), s).tables
      ensures Proper(Current().(tables := tables, views := OutcomeOf(State(), s).views))
    {
      hide OutcomeOf, CatalogOk, TablesSized, ViewsSized, DocsSized, HashesSized, Plain;
      OutcomeKeepsCatalog(State(), s);
    }

    method CreateTable(session: nat, s: Stmt) returns (r: Result<()>)
      requires Valid() && s.CreateTable? && Admits(s)
      modifies `tables, `tx, `chains, `published, storage, storage.file
      ensures Valid() && Executes(old(State()), session, s, r.Ok?, State())
      ensures r.Ok? && OutcomeOf(old(State()), s).Writes? ==> Durable()
      ensures r.Err? && OutcomeOf(old(State()), s).Writes? ==> storage.Troubled(old(storage.file.faults))
    {
      hide Backed, DocsSaved, TablesSaved, TableSaved, Proper, TablesReady, Persisted, Fresh, Plain, Durable,
        Executes, OutcomeOf, TablesSized, ViewsSized;
      ghost var was, db := tables, State();
      PlainKeys(tables);
      OutcomeIs(db, s);
      FailExecutes(db, session, s);
      if BuiltIn(s.name) || s.name in views || |s.columns| == 0 {
        return Err;
      }
      if s.name in tables {
        return if s.ifNotExists then Ok(()) else Err;
      }
      var t := TableState(Fresh(s.columns, s.constraints), 0, 0);
      FreshHasNoRows(s.columns, s.constraints);
      PlainUpdate(tables, s.name, t);
      ReadyWithNew(tables, chains, s.name, t);
      WritesProper(s, tables[s.name := t]);
      tables := tables[s.name := t];
      ghost var mid := tables;
      r := Flush();
      if r.Err? {
        UntouchedStay(was, mid, tables, s.name, old(chains));
        tables := tables - {s.name};
        TablesStaySaved(tables, old(chains), chains);
        return;
      }
      NoteMutation(session);
      WriteExecutes(db, session, s, State());
    }

    method CreateTableAs(session: nat, s: Stmt) returns (r: Result<()>)
      requires Valid() && s.CreateTableAs? && Admits(s)
      modifies `tables, `tx, `chains, `published, storage, storage.file
      ensures Valid() && Executes(old(State()), session, s, r.Ok?, State())
      ensures r.Ok? && OutcomeOf(old(State()), s).Writes? ==> Durable()
      ensures r.Err? && OutcomeOf(old(State()), s).Writes? ==> storage.Troubled(old(storage.file.faults))
    {
      hide Backed, DocsSaved, TablesSaved, TableSaved, Proper, TablesReady, Persisted, Plain, Durable,
        Executes, OutcomeOf, TablesSized, ViewsSized;
      ghost var was, db := tables, State();
      PlainKeys(tables);
      OutcomeIs(db, s);
      FailExecutes(db, session, s);
      if BuiltIn(s.name) || s.name in views {
        return Err;
      }
      if s.name in tables && !s.orReplace {
        return if s.ifNotExists then Ok(()) else Err;
      }
      if s.query.Err? {
        return Err;
      }
      var previous := if s.name in tables then Some(tables[s.name]) else None;
      var t := TableState(Table(s.query.value.columns, s.query.value.rows, [], []), 0, 0);
      PlainUpdate(tables, s.name, t);
      ReadyWithNew(tables, chains, s.name, t);
      WritesProper(s, tables[s.name := t]);
      tables := tables[s.name := t];
      ghost var mid := tables;
      r := Flush();
      if r.Err? {
        UntouchedStay(was, mid, tables, s.name, old(chains));
        tables := if previous.Some? then tables[s.name := previous.value] else tables - {s.name};
        TablesStaySaved(tables, old(chains), chains);
        return;
      }
      NoteMutation(session);
      WriteExecutes(db, session, s, State());
    }

    method CreateView(session: nat, s: Stmt) returns (r: Result<()>)
      requires Valid() && s.CreateView? && Admits(s)
      modifies `tables, `views, `tx, `chains, `published, storage, storage.file
      ensures Valid() && Executes(old(State()), session, s, r.Ok?, State())
      ensures r.Ok? && OutcomeOf(old(State()), s).Writes? ==> Durable()
      ensures r.Err? && OutcomeOf(old(State()), s).Writes? ==> storage.Troubled(old(storage.file.faults))
    {
      hide Backed, DocsSaved, TablesSaved, Proper, Plain, Durable, Executes, OutcomeOf, TablesSized, ViewsSized;
      ghost var was, db := views, State();
      PlainKeys(tables);
      OutcomeIs(db, s);
      FailExecutes(db, session, s);
      if BuiltIn(s.name) || s.name in tables {
        return Err;
      }
      if s.name in views && !s.orReplace {
        return if s.ifNotExists then Ok(()) else Err;
      }
      if s.sql.Err? || |s.sql.value| > 65535 {
        return Err;
      }
      var previous := if s.name in views then Some(views[s.name]) else None;
      WritesProper(s, tables);
      views := views[s.name := s.sql.value];
      r := FlushSaved();
      if r.Err? {
        views := if previous.Some? then views[s.name := previous.value] else views - {s.name};
        assert views == was;
        return;
      }
      NoteMutation(session);
      WriteExecutes(db, session, s, State());
    }

    method DropTables(session: nat, s: Stmt) returns (r: Result<()>)
      requires Valid() && s.DropTables? && Admits(s)
      modifies `tables, `tx, `chains, `published, storage, storage.file
      ensures Valid() && Executes(old(State()), session, s, r.Ok?, State())
      ensures r.Ok? && OutcomeOf(old(State()), s).Writes? ==> Durable()
      ensures r.Err? && OutcomeOf(old(State()), s).Writes? ==> storage.Troubled(old(storage.file.faults))
    {
      hide Backed, DocsSaved, TablesSaved, Proper, Plain, Durable, Executes, OutcomeOf, TablesSized, ViewsSized, AnyBuiltIn, Names;
      ghost var was, db := tables, State();
      PlainKeys(tables);
      OutcomeIs(db, s);
      FailExecutes(db, session, s);
      var reserved := MentionsBuiltIn(s.names);
      if reserved {
        return Err;
      }
      var left, removed := DropNames(tables, s.names, s.ifExists);
      if left.Err? {
        return Err;
      }
      PlainMinus(tables, Names(s.names));
      WritesProper(s, left.value);
      TableMinusSaved(tables, Names(s.names), chains);
      tables := left.value;
      r := FlushSaved();
      if r.Err? {
        tables := tables + removed;
        assert tables == was;
        TablesStaySaved(tables, old(chains), chains);
        return;
      }
      if removed != map[] {
        NoteMutation(session);
      }
      WriteExecutes(db, session, s, State());
    }

    method DropViews(session: nat, s: Stmt) returns (r: Result<()>)
      requires Valid() && s.DropViews? && Admits(s)
      modifies `tables, `views, `tx, `chains, `published, storage, storage.file
      ensures Valid() && Executes(old(State()), session, s, r.Ok?, State())
      ensures r.Ok? && OutcomeOf(old(State()), s).Writes? ==> Durable()
      ensures r.Err? && OutcomeOf(old(State()), s).Writes? ==> storage.Troubled(old(storage.file.faults))
    {
      hide Backed, DocsSaved, TablesSaved, Proper, Plain, Durable, Executes, OutcomeOf, TablesSized, ViewsSized, AnyBuiltIn, Names;
      ghost var was, db := views, State();
      OutcomeIs(db, s);
      FailExecutes(db, session, s);
      var reserved := MentionsBuiltIn(s.names);
      if reserved {
        return Err;
      }
      var left, removed := DropNames(views, s.names, s.ifExists);
      if left.Err? {
        return Err;
      }
      WritesProper(s, tables);
      views := left.value;
      r := FlushSaved();
      if r.Err? {
        views := views + removed;
        assert views == was;
        return;
      }
      if removed != map[] {
        NoteMutation(session);
      }
      WriteExecutes(db, session, s, State());
    }

    /** The rows are added, and taken off again if they cannot be published. */
    method AddRows(n: Name, more: seq<Row>) returns (r: Result<()>)
      requires Valid() && n in tables && Proper(Current().(tables := tables[n := Grown(tables[n], more)]))
      requires Writable(Grown(tables[n], more).table)
      modifies `tables, `chains, `published, storage, storage.file
      ensures Valid()
      ensures r.Err? ==> Plain(tables) == Plain(old(tables))
      ensures r.Ok? ==> Plain(tables) == Plain(old(tables)[n := Grown(old(tables[n]), more)]) && Durable()
      ensures storage.file.faults >= old(storage.file.faults) && (r.Err? ==> storage.Troubled(old(storage.file.faults)))
    {
      hide Backed, DocsSaved, TablesSaved, TableSaved, Proper, Plain, Durable;
      ghost var was := tables;
      var grown := Grown(tables[n], more);
      OthersSaved(tables, n, grown, chains);
      tables := tables[n := grown];
      r := AppendTableRows(n);
      if r.Err? {
        var now := tables[n];
        var cut := WithRows(now, now.table.rows[..|now.table.rows| - |more|]);
        InsertUndone(was, tables, n, more, cut, old(chains), chains);
        ProperUndone(old(Current()), tables[n := cut]);
        tables := tables[n := cut];
      }
    }

    /** The rows are replaced, and come back with their chain if the new ones cannot be published. */
    method SwapRows(n: Name, rows: seq<Row>) returns (r: Result<()>)
      requires Valid() && n in tables && Proper(Current().(tables := tables[n := WithRows(tables[n], rows)]))
      requires Writable(WithRows(tables[n], rows).table)
      modifies `tables, `chains, `published, storage, storage.file
      ensures Valid()
      ensures r.Err? ==> tables == old(tables)
      ensures r.Ok? ==> Plain(tables) == Plain(old(tables)[n := WithRows(old(tables[n]), rows)]) && Durable()
      ensures storage.file.faults >= old(storage.file.faults) && (r.Err? ==> storage.Troubled(old(storage.file.faults)))
    {
      hide Backed, DocsSaved, TablesSaved, TableSaved, Proper, Plain, Durable;
      ghost var was := tables;
      var previous := tables[n];
      OthersSaved(tables, n, WithRows(previous, rows), chains);
      tables := tables[n := WithRows(previous, rows)];
      r := AppendTableRows(n);
      if r.Err? {
        tables := tables[n := previous];
        assert tables == was;
        TablesStaySaved(tables, old(chains), chains);
      }
    }

    /** `INSERT`: the new rows are checked against the constraints, and added. */
    method Insert(session: nat, s: Stmt) returns (r: Result<()>)
      requires Valid() && s.Insert? && Admits(s)
      modifies `tables, `tx, `chains, `published, storage, storage.file
      ensures Valid() && Executes(old(State()), session, s, r.Ok?, State())
      ensures r.Ok? && OutcomeOf(old(State()), s).Writes? ==> Durable()
      ensures r.Err? && OutcomeOf(old(State()), s).Writes? ==> storage.Troubled(old(storage.file.faults))
    {
      hide Backed, DocsSaved, TablesSaved, TableSaved, Proper, Plain, Durable, Executes, OutcomeOf, TablesSized,
        ViewsSized, InsertAllowed, BuiltRows, Mapping, TableOk;
      ghost var db := State();
      PlainKeys(tables);
      OutcomeIs(db, s);
      FailExecutes(db, session, s);
      if s.values.Err? || s.name !in tables {
        return Err;
      }
      var t := tables[s.name];
      TableIs(Current(), s.name);
      var mapping: Option<seq<nat>> := None;
      if s.into.Some? {
        var m := Mapping(t.table.columns, s.into.value);
        if m.Err? {
          return Err;
        }
        mapping := Some(m.value);
      }
      var rows := BuildRows(|t.table.columns|, mapping, s.values.value);
      if rows.Err? {
        return Err;
      }
      TableParts(t.table);
      var ok := CheckInsert(t.table, rows.value);
      if !ok {
        return Err;
      }
      PlainUpdate(tables, s.name, Grown(t, rows.value));
      WritesProper(s, tables[s.name := Grown(t, rows.value)]);
      r := AddRows(s.name, rows.value);
      if r.Err? {
        return;
      }
      if rows.value != [] {
        NoteMutation(session);
      }
      WriteExecutes(db, session, s, State());
    }

    /** `UPDATE` and `DELETE`: the rewritten rows are checked, and replace the old ones. */
    method Rewrite(session: nat, s: Stmt) returns (r: Result<()>)
      requires Valid() && s.Rewrite? && Admits(s)
      modifies `tables, `tx, `chains, `published, storage, storage.file
      ensures Valid() && Executes(old(State()), session, s, r.Ok?, State())
      ensures r.Ok? && OutcomeOf(old(State()), s).Writes? ==> Durable()
      ensures r.Err? && OutcomeOf(old(State()), s).Writes? ==> storage.Troubled(old(storage.file.faults))
    {
      hide Backed, DocsSaved, TablesSaved, TableSaved, Proper, Plain, Durable, Executes, OutcomeOf, TablesSized,
        ViewsSized, ConstraintsHold, Rewritten, AnyHit, TableOk;
      ghost var db := State();
      PlainKeys(tables);
      OutcomeIs(db, s);
      FailExecutes(db, session, s);
      if BuiltIn(s.name) || s.name !in tables {
        return Err;
      }
      var t := tables[s.name];
      TableIs(Current(), s.name);
      TableParts(t.table);
      var rows, matched := RewriteRows(t.table.rows, s.fate);
      if rows.Err? {
        return Err;
      }
      if matched == 0 {
        return Ok(());
      }
      RewrittenFits(t.table, s.fate);
      var ok := CheckConstraints(t.table, rows.value);
      if !ok {
        return Err;
      }
      PlainUpdate(tables, s.name, WithRows(t, rows.value));
      WritesProper(s, tables[s.name := WithRows(t, rows.value)]);
      r := SwapRows(s.name, rows.value);
      if r.Err? {
        return;
      }
      NoteMutation(session);
      WriteExecutes(db, session, s, State());
    }

    // Transactions

    method BeginTransaction(session: nat) returns (r: Result<()>)
      requires Valid()
      modifies `tx
      ensures Valid() && Executes(old(State()), session, Begin, r.Ok?, State())
      ensures r.Ok? ==> tx == Some(TxSnapshot(Current(), session, false))
    {
      hide Saved, HoldsAll, AllDescribed, Storage.Valid;
      if tx.Some? {
        return Err;
      }
      tx := Some(TxSnapshot(Current(), session, false));
      r := Ok(());
    }

    method CommitTransaction(session: nat) returns (r: Result<()>)
      requires Valid()
      modifies `tx
      ensures Valid() && tx == None && Executes(old(State()), session, CommitTx, r.Ok?, State())
    {
      hide Saved, HoldsAll, AllDescribed, Storage.Valid;
      r := if tx.None? then Err else Ok(());
      tx := None;
    }

    /** `rollback_transaction_tables_only`. */
    method RollbackTables(session: nat) returns (r: Result<()>)
      requires Valid()
      modifies `tables, `views, `tx, `chains, `published, storage, storage.file
      ensures Valid() && Executes(old(State()), session, Rollback, r.Ok?, State())
      ensures r.Ok? ==> Durable()
      ensures r.Err? && old(tx).Some? && !old(tx).value.externalWrite ==> storage.Troubled(old(storage.file.faults))
    {
      hide Durable, DocsSaved, TablesSaved, DocsSized, TablesSized, ViewsSized, HashesSized, CatalogOk, HoldsAll, AllDescribed, Storage.Valid;
      if tx.None? {
        return Err;
      }
      var snapshot := tx.value;
      tx := None;
      if snapshot.externalWrite {
        return Err;
      }
      tables := snapshot.before.tables;
      views := snapshot.before.views;
      r := FlushSaved();
    }

    /** `rollback_transaction`: the documents go back as well. */
    method RollbackAll(session: nat) returns (r: Result<()>)
      requires Valid()
      modifies `documents, `hashes, `tables, `views, `tx, `chains, `published, storage, storage.file
      ensures Valid() && Executes(old(State()), session, Rollback, r.Ok?, State())
      ensures if old(tx).Some? && !old(tx).value.externalWrite then
          documents == old(tx).value.before.documents && hashes == old(tx).value.before.hashes
        else r.Err? && documents == old(documents) && hashes == old(hashes)
      ensures r.Ok? ==> Durable()
      ensures r.Err? && old(tx).Some? && !old(tx).value.externalWrite ==> storage.Troubled(old(storage.file.faults))
    {
      hide Durable, DocsSaved, TablesSaved, DocsSized, TablesSized, ViewsSized, HashesSized, CatalogOk, HoldsAll, AllDescribed, Storage.Valid;
      if tx.None? {
        return Err;
      }
      var snapshot := tx.value;
      tx := None;
      if snapshot.externalWrite {
        return Err;
      }
      documents := snapshot.before.documents;
      hashes := snapshot.before.hashes;
      tables := snapshot.before.tables;
      views := snapshot.before.views;
      r := FlushSaved();
    }
  }

  lemma DocAdded(p: Contents, d: Doc, plain: Doc, chains: set<Chain>)
    requires Saved(p, chains) && DocSaved(d, chains) && SameDoc(d, plain) && DocSized(plain) && CC.IsU32(|p.documents| + 1)
    ensures Saved(p.(documents := p.documents + [d]), chains)
  {
    hide DocSaved, BC.BlockFits, CatalogOk, TablesSized, TablesSaved;
    assert DocSized(d);
    assert DocsSized(p.documents + [d]);
  }

  lemma DocReplaced(p: Contents, at: nat, d: Doc, plain: Doc, chains: set<Chain>)
    requires Saved(p, chains) && DocSaved(d, chains) && SameDoc(d, plain) && DocSized(plain) && at < |p.documents|
    ensures Saved(p.(documents := p.documents[at := d]), chains)
  {
    hide DocSaved, BC.BlockFits, CatalogOk, TablesSized, TablesSaved;
    assert DocSized(d);
    forall x | x in p.documents[at := d] ensures x == d || x in p.documents {
    }
    assert DocsSized(p.documents[at := d]);
  }

  lemma IdSized(p: Contents, at: nat)
    requires Proper(p) && at < |p.documents|
    ensures CC.IsU32(p.documents[at].id)
  {
    hide CatalogOk, TablesSized;
    assert p.documents[at] in p.documents && DocSized(p.documents[at]);
  }

  lemma HashAdded(p: Contents, id: nat, hash: nat)
    requires Proper(p) && CC.IsU32(|p.hashes| + 1) && CC.IsU32(id) && hash < Pow256(8)
    ensures Proper(p.(hashes := p.hashes[id := hash])) && |p.hashes[id := hash]| <= |p.hashes| + 1
  {
    hide CatalogOk, TablesSized, DocsSized;
    assert p.hashes[id := hash].Keys == p.hashes.Keys + {id};
  }

  lemma DocRemoved(p: Contents, at: nat, chains: set<Chain>)
    requires Saved(p, chains) && at < |p.documents|
    ensures Saved(p.(documents := p.documents[..at] + p.documents[at + 1..], hashes := p.hashes - {p.documents[at].id}), chains)
  {
    hide DocSaved, BC.BlockFits, CatalogOk, TablesSized, TablesSaved, DocSized;
    var fewer := p.hashes - {p.documents[at].id};
    assert fewer.Keys <= p.hashes.Keys;
    SubsetSize(fewer.Keys, p.hashes.Keys);
  }

  lemma {:induction false} SubsetSize<T>(a: set<T>, b: set<T>)
    requires a <= b
    ensures |a| <= |b|
  {
    if x :| x in a {
      SubsetSize(a - {x}, b - {x});
    }
  }

  /** Rows the statement leaves in its table can be written. */
  ghost predicate Leaves(s: Stmt, tables: map<Name, Table>) {
    (s.CreateTableAs? || s.Insert? || s.Rewrite?) && s.name in tables ==> Writable(tables[s.name])
  }

  lemma FreshHasNoRows(defs: seq<ColumnDef>, cs: seq<TableConstraint>)
    ensures Writable(Fresh(defs, cs))
  {
  }

  lemma NewIsWritable(tables: map<Name, TableState>, n: Name, chains: set<Chain>)
    requires TablesReady(tables, chains) && n in tables && tables[n].firstRowPage == 0 && tables[n].table.rows != []
    ensures Writable(tables[n].table)
  {
    hide HasCell, IsRowChain;
  }

  function WithRows(t: TableState, rows: seq<Row>): TableState {
    t.(table := t.table.(rows := rows))
  }

  function Grown(t: TableState, more: seq<Row>): TableState {
    WithRows(t, t.table.rows + more)
  }

  lemma TableIs(p: Contents, n: Name)
    requires Proper(p) && n in p.tables
    ensures n in Plain(p.tables) && Plain(p.tables)[n] == p.tables[n].table && TableOk(p.tables[n].table)
  {
  }

  lemma TableParts(t: Table)
    requires TableOk(t)
    ensures Declared(t) && Fitting(t, t.rows)
  {
  }

  lemma OthersSaved(tables: map<Name, TableState>, n: Name, t: TableState, chains: set<Chain>)
    requires TablesSaved(tables, chains)
    ensures var now := tables[n := t]; forall k | k in now && k != n :: TableSaved(now[k], chains)
  {
    hide TableSaved;
  }

  /** Taking the new rows off again leaves the old rows, at the front of a chain that may be longer. */
  lemma InsertUndone(was: map<Name, TableState>, now: map<Name, TableState>, n: Name, more: seq<Row>, cut: TableState,
                     before: set<Chain>, chains: set<Chain>)
    requires TablesSaved(was, before) && before <= chains && n in was && n in now
    requires var grown := Grown(was[n], more);
      now == was[n := now[n]] && now[n].table == grown.table && (TableSaved(now[n], chains) || now[n] == grown)
    requires cut == WithRows(now[n], now[n].table.rows[..|now[n].table.rows| - |more|])
    ensures TablesSaved(now[n := cut], chains) && Plain(now[n := cut]) == Plain(was)
  {
    hide TableSaved;
    assert cut.table.rows == was[n].table.rows;
    TablesStaySaved(was, before, chains);
    if TableSaved(now[n], chains) {
      TruncatedSaved(now[n], |was[n].table.rows|, chains);
    } else {
      assert cut == was[n];
    }
    assert now[n := cut] == was[n := cut];
    TableUpdateSaved(was, n, cut, chains);
    PlainSame(was, n, cut);
  }

  lemma ProperUndone(p: Contents, tables: map<Name, TableState>)
    requires Proper(p) && Plain(tables) == Plain(p.tables)
    ensures Proper(p.(tables := tables))
  {
  }

  lemma OutcomeIs(db: Db, s: Stmt)
    requires !Control(s)
    ensures s.CreateTable? ==> OutcomeOf(db, s) == CreateTableOutcome(db, s)
    ensures s.CreateTableAs? ==> OutcomeOf(db, s) == CreateTableAsOutcome(db, s)
    ensures s.CreateView? ==> OutcomeOf(db, s) == CreateViewOutcome(db, s)
    ensures s.DropTables? ==> OutcomeOf(db, s) == DropTablesOutcome(db, s)
    ensures s.DropViews? ==> OutcomeOf(db, s) == DropViewsOutcome(db, s)
    ensures s.Insert? ==> OutcomeOf(db, s) == InsertOutcome(db, s)
    ensures s.Rewrite? ==> OutcomeOf(db, s) == RewriteOutcome(db, s)
  {
  }

  lemma FailExecutes(db: Db, session: nat, s: Stmt)
    requires !Control(s)
    ensures OutcomeOf(db, s).Nothing? ==> Executes(db, session, s, true, db)
    ensures !OutcomeOf(db, s).Nothing? ==> Executes(db, session, s, false, db)
  {
    hide OutcomeOf;
  }

  lemma WriteExecutes(db: Db, session: nat, s: Stmt, next: Db)
    requires !Control(s) && OutcomeOf(db, s).Writes?
    requires var out := OutcomeOf(db, s);
      next == Db(out.tables, out.views, if out.noted then Noted(db.tx, session) else db.tx)
    ensures Executes(db, session, s, true, next)
  {
    hide OutcomeOf;
  }

  lemma PlainKeys(tables: map<Name, TableState>)
    ensures Plain(tables).Keys == tables.Keys
  {
  }

  lemma PlainSame(tables: map<Name, TableState>, n: Name, t: TableState)
    requires n in tables && t.table == tables[n].table
    ensures Plain(tables[n := t]) == Plain(tables)
  {
  }

  lemma RestStaySaved(tables: map<Name, TableState>, n: Name, chains: set<Chain>, more: set<Chain>)
    requires chains <= more && forall k | k in tables && k != n :: TableSaved(tables[k], chains)
    ensures forall k | k in tables && k != n :: TableSaved(tables[k], more)
  {
    hide TableSaved;
    forall k | k in tables && k != n ensures TableSaved(tables[k], more) {
      TableStaysSaved(tables[k], chains, more);
    }
  }

  lemma ReadyWithNew(tables: map<Name, TableState>, chains: set<Chain>, n: Name, t: TableState)
    requires TablesSaved(tables, chains) && Unwritten(t) && Writable(t.table)
    ensures TablesReady(tables[n := t], chains)
  {
    hide TableSaved;
  }

  lemma LogGrows(published: seq<Contents>, log: seq<CP.Attempt>, longer: seq<CP.Attempt>, p: Contents)
    requires AllDescribed(published, log) && |longer| == |log| + 1 && longer[..|log|] == log
    requires Describes(p, longer[|log|])
    ensures AllDescribed(published + [p], longer)
  {
    hide Describes;
    forall i | 0 <= i < |longer| ensures Describes((published + [p])[i], longer[i]) {
      if i < |log| {
        assert longer[i] == log[i] && Describes(published[i], log[i]);
      }
    }
  }
}
