# mq-db, modelled and proved

mq-db is an embedded Markdown database: one file of 8 KB pages, published by overwriting
one of two superblocks; Markdown documents cut into blocks with an interval index; secondary
indexes and zone maps; a SQL engine on top. This project models its core in Dafny and proves
what the core is for. Nothing was executed: the Dafny verifier checks it all.

    dafny verify dfyconfig.toml

## How it is put together

**Bytes to pages.** `Bytes`, `Parsing` (cursor and combinators), `PageFormat` (layout, checksum,
commit records), `PageChain` (chains of pages), `CatalogCodec`, `BlockCodec`, `IndexCodec`,
`ZoneCodec`.

**The commit protocol.** `CommitProtocol` is a state machine: durable pages plus unsynced
writes, with one step per append, sync, commit record, failure, restart and power loss.
`CommitSafety` proves its invariant and what follows for whole runs; `SnapshotReader`
interleaves a lock-free reader with it. `StorageFile` is the code as classes: every method's
effect is a sequence of protocol steps, recorded in a ghost history.

**The store.** `CatalogState` says what each statement means for tables, views and the open
transaction, and proves runs of sessions. `Statements` has the loops of the statements.
`StatementMeaning` says what statements do in terms of the names and cells they give, what
refuses them, and that declared constraints hold over runs. `StoreContents` says when what is
stored matches what is in memory; `Reindexing` what taking in files does to the documents;
`DocumentStore` is the store as a class, each statement proved against `CatalogState` and against the file;
`StoreOpening` closes the circle from any crash back to an open store.

**Blocks and scans.** `SectionIndex` (section tree and numbering), `Tokenizer`,
`SecondaryIndexes`, `TextSearch`, `BlockRows` (a block as a row), `ScanPlan` (hints),
`ZoneMaps`, `BlocksScan` (the planned scan is the full scan).

**Operators.** `SqlValue`, `SqlExpr` (evaluation and constant folding), `SqlMeaning` (each
operator on the values of its sides), `HashJoin`, `OrderBy`,
`RecursiveCte`. **The rest.** `Calendar`, `Csv`, `WriteBack`.

## Where the promise and the code part

Each item names a lemma with an input at which it happens, and one that says exactly when.

- A `BETWEEN` on `pre` with a bound outside 32 bits loses blocks (`WideRangeLosesABlock`), and
  one with its bounds the wrong way round panics (`InvertedRange`). Exactly when: `RangeOkIff`.
- An `IN` list with a computed element loses blocks (`ComputedElementLosesABlock`). Exactly
  when: `ListHintLosesIff`.
- A document with front matter is skipped by its depth or language (`DeepBlockIsSkipped`,
  `ForeignLangIsSkipped`). Exactly when: `SkipsSafelyIff`.
- Folding turns an integral float into an integer (`FoldChangesPredicate`). Exactly when:
  `FoldKeepsConstantIff`.
- A hash join whose keys the combined row finds elsewhere pairs the wrong columns
  (`SwappedKeysLoseARow`). Exactly when: `SameJoinIff`.
- CSV gives a row without fields back with one (`RowWithoutFields`). Exactly when:
  `CsvRoundTrip`.
- `CREATE TABLE t AS VALUES (1)` names no columns, and the row is read back without its cell
  (`ValuesReadBackEmpty`). Exactly when: `TableReadsBackIff`. Writing such rows again panics
  (`HollowRowsHaveNoBytes`). Exactly when: `BytesIffCell`.
- INSERT of several rows at a line beyond the end of the file may reverse them
  (`StalePlaceReverses`). Exactly when: `PlaceOrderIff`.
- Constraints are not part of the catalog: a reopened store accepts what it refused
  (`ReopenedAcceptsDuplicate`). Exactly which tables come back as they were: `ReopenedIff`.

## Assumptions

A disk write of a commit record is whole, absent, or torn so that it does not decode
(`SuperblockWriteIsAtomic` derives all-or-nothing from whole 512-byte sectors). A crash keeps
any of the unsynced writes to other pages, or anything in their place. An append or write may
fail before or after something reached the file, and writes still pending when a sync fails
become durable with a later sync that succeeds, as if issued again. Runs stay below 2^32 - 1
pages. Reads do not fail. Text is sequences of bytes or code points; lower-casing, the
alphanumeric property and UTF-8 of tokens are parameters, and so are float arithmetic and its
notation (`Engine`: all that is asked is that it stays among the doubles and that a double is
read back from what is written of it), the Markdown parser and the predicates and expressions
of UPDATE and DELETE. A catalog statement runs alone, as the store's commit lock makes it.

## Model

| member | source | states |
|---|---|---|
| CommitSafety.EveryCrashRecovers | src/storage.rs:452-498 | from a created file, after any run of page appends, syncs, flushes, I/O failures, restarts and power losses, power may be lost now: opening what is left finds a valid superblock, and loads the catalog of the last flush that returned Ok or of one attempted after it, with every chain its entries point to |
| CommitSafety.EveryReopenRecovers | src/storage.rs:245-274 | the same for opening the file as it stands after any run |
| CommitSafety.StepKeeps | src/storage.rs:452-498 | every step keeps the protocol invariant: each version a commit record has had since the last sync names a whole catalog on stable media, or none, and a record of the last acknowledged catalog or of a later one is always durable |
| CommitSafety.CrashRecovers | src/storage.rs:210-234 | in any state with the invariant, whatever subset of unsynced writes a crash keeps, the newer readable superblock recovers |
| CommitSafety.OpenUnsettled | src/storage.rs:245-274 | a handle opened on a superblock that is itself still unsynced: a crash leaves that one or the one before it, never neither |
| CommitSafety.ReachableIsNeverOverwritten | src/storage/page.rs:229-242 | no step of a run writes a page that a superblock any slot may hold can reach, nor can a crash damage one |
| SnapshotReader.ReaderSeesWholeCatalogs | src/storage.rs:317-319 | a lock-free reader whose page reads interleave with any writer steps: a catalog it loads was published whole by one flush |
| SnapshotReader.ReaderIsUpToDate | src/storage.rs:317-319 | if at most one step writes a commit record while the reader reads the length and the two slots, opening succeeds, and the catalog is that of the last flush acknowledged before the reader began or of one attempted later |
| PageFormat.PageRoundTrip | src/storage/page.rs:69-81 | a page made and read back is itself, padded with zeros |
| PageFormat.OneByteDamageIsCaught | src/storage/page.rs:45-54 | changing any one byte of a page that verifies makes it fail: the additive checksum cannot wrap |
| PageFormat.SuperblockRoundTrip | src/storage.rs:210-234 | a commit record decodes to the superblock it was made from |
| PageFormat.SuperblockWriteIsAtomic | src/storage.rs:196-208 | two commit records differ in their first sector only, so an overwrite torn at sector granularity is one or the other |
| PageFormat.ComputeChecksum | src/storage/page.rs:45-54 | the two wrapping loops compute the sum of all bytes but the checksum field modulo 2^32 |
| PageFormat.MakePage | src/storage/page.rs:69-81 | the buffer filled in place is exactly the page layout, checksum included |
| PageChain.ReadChain | src/storage.rs:392-449 | the loop of every chain reader, with its cycle guard and page-type checks, as a function of the file |
| PageChain.FollowChain | src/storage.rs:392-449 | following a chain written on consecutive pages gives its bodies back, in order |
| PageChain.BlobReadsBack | src/storage/catalog.rs:241-276 | a blob cut into pages and concatenated again is the blob followed by zeros |
| StorageFile.PageFile.AppendPage | src/storage/page.rs:229-242 | the page goes to the logical end and nowhere else; on failure the readable pages are unchanged |
| StorageFile.PageFile.WriteSlot | src/storage/page.rs:218-227 | overwrites one commit record: done, not done or torn, and no page from 3 on changes |
| StorageFile.Storage.Create | src/storage.rs:276-302 | the handle of a new file: its history is a run of the protocol |
| StorageFile.Storage.WriteChain | src/storage.rs:655-664 | page ids predicted, then each page appended once in final form: the chain is where its head says, nothing readable before is overwritten |
| StorageFile.Storage.WriteDocument | src/storage.rs:359-389 | the pages written hold a chain of exactly the document's blocks |
| StorageFile.Storage.WriteIndex | src/storage.rs:510-535 | the pages written hold a chain of exactly the index bytes |
| StorageFile.Storage.WriteTableRows | src/storage.rs:614-646 | the pages written hold a chain of exactly the rows, whatever their widths, or none for no rows |
| StorageFile.BlocksReadBack | src/storage.rs:392-449 | read_blocks on a document's chain gives exactly its blocks |
| StorageFile.RowsReadBackIff | src/storage.rs:678-734 | read_table_rows gives exactly the rows the catalog counts, even on a chain a failed INSERT left longer, iff every row has one cell per column |
| StorageFile.NoColumnsReadBack | src/storage.rs:678-734 | the chain of a table without columns reads back as that many rows without cells |
| StorageFile.BytesIffCell | src/storage/codec.rs:295-304 | the rows to write have bytes, without which the writer panics, iff one of them has a cell |
| StorageFile.IndexBytesReadBack | src/storage.rs:538-578 | an index chain reads back as its bytes and zeros |
| StorageFile.Storage.LoadBlocks | src/storage.rs:392-449 | the reading loop of the handle, tied to the function the read-back lemma is about |
| StorageFile.Storage.LoadRows | src/storage.rs:678-734 | the same for table rows |
| StorageFile.Storage.ReadCatalog | src/storage.rs:501-507 | loads the catalog at the handle's root |
| StorageFile.Storage.PublishRoot | src/storage.rs:452-498 | commit record and sync: its steps are protocol steps, and generation, root and acknowledged attempt change only if both succeed |
| StorageFile.Storage.FlushCatalog | src/storage.rs:452-498 | Ok: the catalog is the acknowledged one and loads from the new root; error: root and generation as before; in either case at most one attempt is logged and nothing readable is overwritten |
| StorageFile.OpenFile | src/storage.rs:245-274 | fails exactly if no slot holds a readable superblock, else continues the run at the newest one |
| StorageFile.HandleSurvivesCrash | src/storage.rs:452-498 | whatever methods of the handle were called, opening after a crash loads the catalog of its last successful flush or of one attempted later |
| BlockCodec.BlockRoundTrip | src/storage/codec.rs:212-245 | an encoded block, properties listed in any order and arrays nested to any depth, followed by anything, decodes to itself, and exactly its bytes are consumed |
| BlockCodec.PropertyRoundTrip | src/storage/codec.rs:148-176 | the same for property values, by induction on their nesting |
| BlockCodec.DecodeBlock | src/storage/codec.rs:247-291 | the decoding loops compute that parser and report the bytes consumed, or an error |
| BlockCodec.RowsRoundTrip | src/storage/codec.rs:306-321 | decoding the first n rows of an encoding of more rows, followed by anything, gives the first n rows |
| BlockCodec.DecodeTableRows | src/storage/codec.rs:306-321 | the row loop computes that decoder |
| CatalogCodec.CatalogRoundTrip | src/storage/catalog.rs:132-197 | a serialized catalog followed by any bytes decodes to itself |
| CatalogCodec.OldBlobDecodes | src/storage/catalog.rs:296-419 | a blob that stops after the custom-table section, followed by any number of zeros, decodes with no hashes, no views and the Word tokenizer |
| CatalogCodec.SerializeCatalog | src/storage/catalog.rs:132-197 | the buffer-building code writes exactly that encoding |
| CatalogCodec.DecodeCatalog | src/storage/catalog.rs:296-419 | the cursor code computes exactly that decoder, errors included |
| IndexCodec.IndexRoundTrip | src/indexes.rs:458-551 | an encoded document index, its maps listed in any order, followed by anything, decodes to itself |
| ZoneCodec.ZonesRoundTrip | src/storage/codec.rs:373-435 | an encoded zone map, sets listed in any order, followed by anything reads back as itself |
| ZoneCodec.OldZonesDecode | src/storage/codec.rs:373-435 | one written before front matter was kept reads back without it |
| ZoneCodec.EncodeZoneMap | src/storage/codec.rs:323-371 | the buffer code writes that encoding, for some order of the sets |
| ZoneCodec.DecodeZoneMap | src/storage/codec.rs:373-435 | the cursor code computes that decoder, errors included |
| IndexCodec.ToBytes | src/indexes.rs:458-551 | writes that encoding, for some listing order of the maps |
| IndexCodec.FromBytes | src/indexes.rs:554-699 | computes that decoder, errors included |
| SectionIndex.BuildTree | src/index.rs:238-280 | the stack loop gives each slot the list of its children, where the parent is the innermost section around a node by the declarative definition |
| SectionIndex.Number | src/index.rs:281-310 | the iterative traversal gives each slot the closed-form entry and exit numbers |
| SectionIndex.BuildBlocks | src/index.rs:238-339 | the emitted blocks are the kept nodes in order, with those numbers and consecutive ids |
| SectionIndex.NumbersAreAll | src/index.rs:281-310 | the entry and exit numbers of the n+1 slots are exactly 0..2n+1 |
| SectionIndex.NumbersDiffer | src/index.rs:281-310 | no two of them are equal |
| SectionIndex.PreIncreases | src/index.rs:281-310 | entry numbers strictly increase in document order |
| SectionIndex.ContainsMeans | src/block.rs:237-239 | contains holds between blocks iff the first is a heading before the second and every heading after it, up to and including the second, is strictly deeper |
| SectionIndex.FirstChildMeans | src/document.rs:123-126 | first_child is the first slot with the block as parent, if there is one and it was not skipped |
| SectionIndex.NextSiblingMeans | src/document.rs:114-117 | next_sibling is the next slot with the same parent, if there is one and it was not skipped |
| SecondaryIndexes.BuildIndex | src/indexes.rs:448-455 | each of the four indexes maps every key to exactly the positions of the blocks with that key, ascending |
| SecondaryIndexes.BuildTerms | src/indexes.rs:353-373 | every distinct term of a block is posted once, in block order, and all tokens are counted |
| SecondaryIndexes.GetAny | src/indexes.rs:76-84 | sorting and deduplicating the union gives exactly the blocks of the types |
| SecondaryIndexes.RangeByPre | src/indexes.rs:134-136 | an entry-number range gives exactly the blocks in it, in block order |
| SecondaryIndexes.MergeIntersect | src/indexes.rs:416-431 | the two-pointer loop on ascending lists gives their intersection, ascending |
| SecondaryIndexes.Intersect | src/indexes.rs:391-412 | exactly the blocks that hold every term; none for no terms |
| SecondaryIndexes.Resolve | src/indexes.rs:772-783 | exactly the blocks a hint is about, in block order; nothing for a full scan |
| Tokenizer.Tokenize | src/indexes.rs:279-334 | the run loop computes the tokens of the text |
| Tokenizer.TokensIff | src/indexes.rs:279-334 | the tokens are exactly the CJK stretches of up to n characters and the maximal stretches of other alphanumerics |
| Tokenizer.CjkSubstringMatches | src/sql/scalar.rs:76-89 | under Bigram and Trigram a non-empty all-CJK query that occurs in a text matches it |
| TextSearch.CjkQueryFindsBlock | src/indexes.rs:391-412 | and the term index returns the block |
| ScanPlan.EqHintSound | src/sql/plan.rs:186-280 | a row that satisfies an equality is a row of the hint read off it |
| ScanPlan.RangeOkIff | src/sql/plan.rs:186-280 | the casts of BETWEEN bounds keep every number between them, without inverting the range, iff the bounds meet a condition that 0 <= lo <= hi < 2^32 implies |
| ScanPlan.InvertedRange | src/sql/plan.rs:186-280 | pre BETWEEN 5 AND 3 gives the inverted range 5 to 3, on which the lookup panics |
| ScanPlan.ListHintLosesIff | src/sql/plan.rs:186-280 | the hint of an IN list loses a block iff a computed element gives the block's type and no literal names it |
| ScanPlan.MatchHintExact | src/sql/plan.rs:186-280 | a match() hint holds on exactly the rows the match() holds on |
| ScanPlan.WhereImpliesHint | src/sql/plan.rs:285-291 | a row that the folded WHERE clause keeps is a row of every hint read off the clause as written |
| ZoneMaps.WideRangeLosesABlock | src/sql/plan.rs:186-280 | a BETWEEN whose upper bound is 2^32 loses a block it is true of |
| ZoneMaps.ComputedElementLosesABlock | src/sql/plan.rs:186-280 | an IN list with a computed element loses a block it is true of |
| ZoneMaps.BuildZones | src/document.rs:139-187 | the zone maps hold exactly the heading contents, the code languages and the deepest heading |
| ZoneMaps.ZoneMapSkip | src/sql/plan.rs:78-152 | the loop keeps the last equality of each kind and skips by them |
| ZoneMaps.SkipSound | src/sql/plan.rs:78-152 | a skipped document has no block whose row the WHERE clause keeps, if the zone maps cover its blocks |
| ZoneMaps.SkipsSafelyIff | src/sql/plan.rs:78-152 | skipping loses no row of any WHERE clause iff no block is deeper than all headings or has a language no code block has |
| ZoneMaps.DeepBlockIsSkipped | src/sql/plan.rs:78-152 | front matter deeper than all headings is skipped by a query for its depth, though its row satisfies it |
| BlocksScan.NumberingAscends | src/sql/scan.rs:154-260 | the numbering of build_blocks meets what the scan relies on: entry numbers ascend and fit 32 bits |
| BlocksScan.ScanDocument | src/sql/scan.rs:162-206 | what is read of one document: nothing if its zone maps rule it out, else the hinted blocks, else all |
| BlocksScan.TableRows | src/sql/scan.rs:162-206 | over all documents, with the ids of a full scan: no other row is read; none that WHERE keeps is missed if IN lists on block_type are all literals, BETWEEN bounds on pre survive the casts and the zone maps of the documents skipped cover their blocks, and for a bare match() the rows are then exactly those |
| BlocksScan.CandidateHints | src/sql/plan.rs:285-291 | exactly the hints the conjuncts give |
| BlocksScan.ChooseBestHint | src/sql/plan.rs:401-406 | the first of the cheapest candidates |
| BlocksScan.SelectBlocks | src/sql/query.rs:245-330 | a single unjoined blocks scan: every row is one that full scan followed by WHERE gives; if IN lists on block_type are all literals, BETWEEN bounds on pre survive the casts and the zone maps of the documents skipped cover their blocks (exact conditions: RangeOkIff, ListHintLosesIff, SkipsSafelyIff), then whatever is skipped, hinted or not filtered again, they are all of those, in the same order and with the same ids |
| HashJoin.FindEquiJoin | src/sql/plan.rs:47-72 | the first conjunct that gives keys of both sides, or none |
| HashJoin.NestedLoopJoin | src/sql/scan.rs:50-77 | the nested loop as a function on rows, unmatched left rows extended with NULL |
| HashJoin.HashEquiJoin | src/sql/join.rs:75-110 | buckets and probes give, per left row, the partners whose join key is equal and that satisfy the predicate, in right order |
| HashJoin.KeyInCombined | src/sql/value.rs:191-210 | on the combined row a key is the value at its place there, on one side or the other; that of its own side if the other has no such name |
| HashJoin.HashJoinIsNestedLoop | src/sql/join.rs:75-110 | if the keys are found in the same places on the combined row, the hash join, inner or left outer, returns exactly the sequence of the nested loop, whatever else ON says |
| HashJoin.SwappedKeysLoseARow | src/sql/plan.rs:47-72 | when both sides have both key names a swapped equality is paired the wrong way round and a row is lost |
| HashJoin.SameJoinIff | src/sql/plan.rs:47-72 | joining on one equality of columns, hash join and nested loop agree on all rows of the two schemas iff the places of the two keys on the combined row are those on their sides |
| HashJoin.ApartIsInPlace | src/sql/value.rs:191-210 | which they are if each key has a short name that only its side has |
| SqlValue.KeysIffEq | src/sql/value.rs:167-182 | two values are SQL-equal iff their join keys are present and equal |
| SqlValue.CompareNumIs | src/sql/value.rs:119-131 | integers and floats compare as their exact values, NaN last, infinities at the ends |
| SqlValue.SortSymmetric | src/sql/value.rs:68-85 | sort_cmp is reflexive, and reversed when the operands are |
| SqlValue.SortTransitive | src/sql/value.rs:68-85 | sort_cmp is transitive, so a total preorder over NULL, booleans, integers, floats and strings |
| SqlValue.SortIsExact | src/sql/value.rs:133-148 | an integer and a float sort by exact value however large |
| SqlValue.CanonicalIff | src/sql/value.rs:151-153 | a string counts as an integer iff it is how that integer prints |
| OrderBy.ApplyPermutation | src/sql/result_ops.rs:44-57 | the in-place cycle swaps terminate with position i holding the old item at order[i] |
| OrderBy.ApplyOrderBy | src/sql/result_ops.rs:19-41 | of two rows that tie on the earlier columns, the later one is not smaller in the next column, not greater if it is DESC, in the order SortCmpIs spells out; rows that tie on all columns keep their order; the rows are those there were |
| OrderBy.KeysAreOk | src/sql/result_ops.rs:19-41 | rows the program can hold give keys of the kind the sort needs |
| OrderBy.StableOrderIsUnique | src/sql/result_ops.rs:19-41 | there is only one such order, so it is what any stable sort gives |
| RecursiveCte.ExecRecursiveCte | src/sql/query.rs:111-172 | the loop over working and seen rows, with its iteration limit and errors, as a function of anchor and branch |
| RecursiveCte.AddedRowsAreNew | src/sql/query.rs:111-172 | under UNION no row an iteration adds repeats an earlier one; the anchor stays as it is |
| RecursiveCte.UnionIsLeastFixedPoint | src/sql/query.rs:111-172 | if the branch distributes over union and evaluation ends Ok, the set of rows is the least fixed point of anchor + step(X) |
| RecursiveCte.UnionAllIsRounds | src/sql/query.rs:111-172 | UNION ALL returns round after round, up to the first empty one |
| SqlExpr.FoldKeepsMeaning | src/sql/rewrite.rs:228-272 | folding does not change what an expression evaluates to on any row, if no constant it replaces evaluates to a float that prints as an integer |
| SqlExpr.FoldKeepsConstantIff | src/sql/rewrite.rs:228-272 | for a constant whose parts are safe, folding keeps the value iff it is not a float that prints as an integer |
| SqlExpr.RereadIff | src/sql/analysis.rs:11-19 | a value written as a literal evaluates to itself iff it is not such a float |
| SqlExpr.EvalHeld | src/sql/expr.rs:16-125 | every expression evaluates to a 64-bit integer, a double or another value the program can hold |
| SqlExpr.LawfulIsPossible | src/sql/value.rs:43-51 | what is asked of float arithmetic and its notation can be had: there is an injective notation of the doubles |
| SqlExpr.FoldChangesPredicate | src/sql/rewrite.rs:228-272 | a predicate that folding turns from false to true: 1.5 + 1.5 = '3' |
| CatalogState.StatementKeepsDb | src/sql/ddl.rs:445-566 | every statement, successful or not, keeps every table within NOT NULL and UNIQUE, every row of a table that has such constraints as wide as the table, and no name both a table and a view, in the open snapshot too |
| CatalogState.RunKeepsDb | src/store.rs:872-961 | so does every run of statements of any sessions |
| CatalogState.InsertKeepsTable | src/sql/ddl.rs:445-566 | the checks of INSERT, on new keys only, keep all of UNIQUE and NOT NULL |
| CatalogState.RollbackRestores | src/store.rs:913-934 | a ROLLBACK that returns Ok brings back tables and views of BEGIN, and every change since was made by the owning session |
| CatalogState.RollbackRefuses | src/store.rs:913-934 | if another session changed the catalog since BEGIN, ROLLBACK returns an error and alters no table or view |
| Statements.CheckConstraints | src/sql/dml.rs:205-235 | accepts exactly if the rows meet NOT NULL and UNIQUE |
| Statements.CheckInsert | src/sql/ddl.rs:445-566 | accepts exactly if the new rows repeat no key, among themselves or of the rows there, and hold no missing cell in a NOT NULL column |
| Statements.BuildRows | src/sql/ddl.rs:445-566 | the rows an INSERT builds, by position or into the named columns |
| Statements.RewriteRows | src/sql/dml.rs:112-178 | the row loop of UPDATE and DELETE; reports whether any row was hit |
| Statements.DropNames | src/sql/ddl.rs:568-624 | fails exactly if a name is missing without IF EXISTS, before removing any; else removes exactly the names, and what was removed can be put back |
| DocumentStore.DocumentStore.PersistUnsaved | src/store.rs:110-132 | writes every table that has rows and no chain; tables change in their page ids only |
| DocumentStore.DocumentStore.Flush | src/store.rs:966-980 | Ok: what is published lists exactly the documents, tables, views and hashes in memory, and every chain holds what its entry stands for |
| DocumentStore.DocumentStore.AppendTableRows | src/store.rs:988-1033 | rewrites one table's chain and publishes, touching no other table |
| DocumentStore.DocumentStore.DoAppend | src/store.rs:491-535 | the document is added with the next id, or on any failure, a failed flush included, documents are as they were |
| DocumentStore.DocumentStore.DoReplaceAt | src/store.rs:579-622 | the document keeps id and place, or on any failure documents are as they were |
| DocumentStore.DocumentStore.IndexOne | src/store.rs:655-694 | one file: unchanged exactly if the map knows its path and the hash noted is its own; else updated in place if the path is known, added behind if not, with its hash noted, or failed with nothing changed; the map still locates every path |
| DocumentStore.DocumentStore.Prune | src/store.rs:695-711 | removing back to front leaves exactly the documents without a path or at a path seen, in order, and reports the paths of the others |
| DocumentStore.DocumentStore.Reindex | src/store.rs:636-718 | Ok: no file at the path of a stored document is added; a file whose hash was noted, the first of the call at its path, is unchanged; every file last reported added or updated is stored, its hash noted; paths and ids that differed still do; without pruning nothing outside the files is lost, with it only documents without a path or at a path of the files are left and the removed paths are exactly those of the others; all is published; error: documents and hashes are as before, and something on the file failed or left no room |
| DocumentStore.DocumentStore.LocatePaths | src/store.rs:649-654 | the map has exactly the paths of documents, each with id and position of the last document there |
| DocumentStore.DocumentStore.IndexAll | src/store.rs:655-694 | the loop over the files is a run of such steps |
| Reindexing.KnownIsNotAdded | src/store.rs:655-694 | over any number of files: one at the path of an earlier document is never added |
| Reindexing.NotedIsUnchanged | src/store.rs:655-694 | one whose hash was noted before, the first at its path, is unchanged |
| Reindexing.IndexedIsNoted | src/store.rs:655-694 | the hash of one that did not fail, the last at its path, is noted in the end |
| Reindexing.IndexedThenPruned | src/store.rs:695-718 | with all files taken in and pruning done, documents, hashes and report are as Reindex promises |
| DocumentStore.DocumentStore.CreateTable | src/sql/ddl.rs:195-310 | does to tables, views and transaction exactly what the statement means; a statement that fails, a failed flush included, changes none of them; one that means a write fails only if something on the file failed or left no room; everything published stays readable |
| DocumentStore.DocumentStore.CreateTableAs | src/sql/ddl.rs:195-310 | the same for CREATE TABLE AS, of VALUES and of an empty result too |
| DocumentStore.DocumentStore.CreateView | src/sql/ddl.rs:312-385 | the same for CREATE VIEW |
| DocumentStore.DocumentStore.DropTables | src/sql/ddl.rs:568-624 | the same for DROP TABLE |
| DocumentStore.DocumentStore.DropViews | src/sql/ddl.rs:387-443 | the same for DROP VIEW |
| DocumentStore.DocumentStore.Insert | src/sql/ddl.rs:445-566 | the same for INSERT; rows taken back after a failed flush leave the table readable though its chain is longer |
| DocumentStore.DocumentStore.Rewrite | src/sql/dml.rs:112-178 | the same for UPDATE and DELETE |
| DocumentStore.DocumentStore.NoteMutation | src/store.rs:905-911 | marks an open transaction of another session, and changes nothing else |
| DocumentStore.DocumentStore.BeginTransaction | src/store.rs:872-890 | takes the snapshot; an error if one is open |
| DocumentStore.DocumentStore.CommitTransaction | src/store.rs:892-897 | drops the snapshot |
| DocumentStore.DocumentStore.RollbackTables | src/store.rs:913-934 | restores tables and views, or refuses, as the specification of ROLLBACK says |
| DocumentStore.DocumentStore.RollbackAll | src/store.rs:936-961 | restores documents and hashes too exactly if no other session wrote |
| StoreContents.DocReadsBack | src/storage.rs:392-449 | read_blocks of every published entry gives that document's blocks |
| StoreContents.IndexReadsBack | src/store.rs:808-825 | the stored index of every published entry decodes to that document's index |
| StoreContents.TableReadsBackIff | src/storage.rs:678-734 | read_table_rows of every published entry gives exactly the table's rows iff every row has one cell per column |
| StoreContents.ValuesReadBackEmpty | src/sql/ddl.rs:195-310 | the table of CREATE TABLE t AS VALUES (1) reads back as one row without cells |
| StoreContents.ReopenedIff | src/store.rs:1217-1285 | reopening gives a readable table as it was iff it has no constraint, and columns if a row has a cell |
| StoreContents.ReopenedAcceptsDuplicate | src/store.rs:1217-1285 | a duplicate of a UNIQUE column that INSERT refuses is accepted after reopening |
| StoreContents.BuildCatalog | src/store.rs:831-843 | the catalog lists exactly what is in memory |
| StoreOpening.OpenStore | src/store.rs:1217-1285 | after any run of a store and any crash, opening finds what the last acknowledged flush or one attempted later published: documents with blocks and indexes, views and hashes, and if every table there is without columns or has one cell per column in every row it succeeds with all tables; the next id is 0 without documents, else one above the largest, or the largest 32-bit number |
| Calendar.DaysRoundTrip | src/sql/datetime.rs:32-44 | every day count is a valid date, and that date has that day count |
| Calendar.DateRoundTrip | src/sql/datetime.rs:46-54 | every valid proleptic Gregorian date (section 3.2.1 of ISO 8601:2004) comes back from its day count |
| Calendar.DaysFollowTheCalendar | src/sql/datetime.rs:46-54 | the next day of the calendar has the next day count, and day 0 is 1 January 1970 |
| Calendar.AddMonthsIs | src/sql/datetime.rs:151-158 | adding n months gives a valid date at month difference exactly n, with day min(d, days in month) |
| Csv.ToCsv | src/sql/output.rs:76-85 | the loops write the header, if any, and the rows, each field quoted as FieldStands says |
| Csv.ParseCsv | src/sql/external.rs:44-81 | the character loop computes the records of a text |
| Csv.CsvRoundTrip | src/sql/external.rs:44-81 | reading what was written gives header and rows back, whatever the cells hold (section 2 of RFC 4180), iff every row has a field |
| WriteBack.SpliceEdits | src/sql/write_back.rs:216-244 | the bottom-up loop as a function of the spans, which it cuts to the file; for line-disjoint spans inside the file it is one simultaneous substitution of every span |
| WriteBack.SpliceInsertions | src/sql/write_back.rs:479-507 | original lines survive in order, only blank lines are added to the rows, and those only where written lines would touch (unless rows are blank), no row touches written lines, and if all rows go inside the file each stands at its line |
| WriteBack.SpliceDeletes | src/sql/write_back.rs:216-244 | for line-disjoint spans inside the file that end on a written line, exactly the written lines outside them are left, in order, and at most one blank line goes with each span; no two blank lines are brought together |
| WriteBack.PlaceOrderIff | src/sql/write_back.rs:487-507 | two or more rows at one place come out in VALUES order iff, when the first is inserted, the place is inside the lines there are or next after them with the last one written on |
| WriteBack.RowsInOrder | src/sql/write_back.rs:487-489 | rows that share a line stand in VALUES order |
| WriteBack.StalePlaceReverses | src/sql/write_back.rs:491-507 | a place beyond the end of the file is cut to the end, and then two rows come out in reverse |
| SecondaryIndexes.BuildBitmap | src/indexes.rs:60-68 | every block type maps to exactly the positions of its blocks, ascending |
| SecondaryIndexes.BuildBTree | src/indexes.rs:113-121 | every entry and exit number maps to the last block that has it, nothing else does |
| SecondaryIndexes.BuildHash | src/indexes.rs:164-189 | every lower-cased content, language and depth maps to exactly the positions of its blocks |
| SecondaryIndexes.GetByPre | src/indexes.rs:124-126 | with ascending entry numbers, exactly the block with the number |
| BlocksScan.Where | src/sql/query.rs:301-330 | the row loop keeps exactly the rows whose folded predicate is true, in order |
| BlocksScan.EstimateHintCost | src/sql/plan.rs:388-396 | how many blocks, over all documents, the hint would read |
| StoreOpening.LoadDocs | src/store.rs:1217-1285 | the document loop reads back exactly the documents the catalog lists, zone maps decoded, blocks and indexes loaded |
| StoreOpening.LoadTables | src/store.rs:1217-1285 | the table loop reads back exactly the readable tables, without their constraints, and without cells if they have no columns |
| StoreOpening.NextId | src/store.rs:1217-1285 | the next document id is 0 in an empty store, else one above the largest id there is, or the largest 32-bit number |
| DocumentStore.DocumentStore.WriteTable | src/storage.rs:583-585 | the chain written stores the whole table; an empty table has none |
| DocumentStore.DocumentStore.WriteDoc | src/store.rs:491-535 | the chains of a document version: its blocks and its index, both readable; nothing already stored is lost |
| DocumentStore.DocumentStore.AddRows | src/sql/ddl.rs:445-566 | the rows are added and published, or tables are as they were but for page ids |
| DocumentStore.DocumentStore.SwapRows | src/sql/dml.rs:112-178 | the rows are replaced and published, or tables are as they were, page ids included |
| DocumentStore.DocumentStore.UpdateFile | src/store.rs:655-694 | a changed file: document replaced in place and hash noted, or neither |
| DocumentStore.DocumentStore.AddFile | src/store.rs:655-694 | a new file: document appended and hash noted, or neither |
| Parsing.Decoder.ReadExact | src/storage/codec.rs:39-50 | the cursor takes exactly the bytes asked for, or reports that they are not there |
| Parsing.Decoder.ReadInt | src/storage/catalog.rs:104-110 | a little-endian integer of the width, or an error |
| Parsing.Decoder.ReadText | src/storage/codec.rs:92-97 | a length-prefixed string, or an error if it is cut short or no UTF-8 |
| Statements.CheckNotNull | src/sql/dml.rs:205-235 | accepts exactly if no row has a missing cell, empty or the text NULL, in a NOT NULL column |
| Statements.Disjoint | src/sql/ddl.rs:445-566 | inserting the keys of the rows one by one hits none already there exactly if all are new and distinct |
| Statements.PlaceCells | src/sql/ddl.rs:445-566 | the row built from a column list: each cell in its column, the last one if a column is named twice, and empty cells elsewhere |
| PageFormat.ReservedSlotIsNoSuperblock | src/storage.rs:276-302 | the second commit record of a new file, still empty, does not decode |
| SectionIndex.ContainsIffUnder | src/block.rs:237-239 | on all slots the comparison of the numbers is lying in the section, skipped nodes included |
| ZoneMaps.ForeignLangIsSkipped | src/sql/plan.rs:78-152 | front matter with a language no code block has is skipped by a query for it, though its row satisfies it |
| RecursiveCte.FilterNew | src/sql/query.rs:111-172 | the filter keeps the first occurrence of every row not seen before, and marks all as seen |
| Bytes.ValidUtf8Iff | src/storage/codec.rs:92-97 | the byte strings that pass the check of every decoder are exactly the spellings of sequences of Unicode scalar values (section 3 of RFC 3629) |
| Bytes.EqIgnoreCaseMeans | src/sql/value.rs:191-210 | names are equal ignoring case iff they differ in the case of ASCII letters only |
| SqlMeaning.IntegersCompare | src/sql/expr.rs:267-310 | =, <>, <, <=, >, >= on integers are the integer comparisons |
| SqlMeaning.TextsCompare | src/sql/expr.rs:312-319 | on strings they go by the first byte that differs, or the proper prefix |
| SqlMeaning.CellsCompare | src/sql/value.rs:87-99 | a string compares with an integer as the integer it spells; if it spells none, nothing but <> holds |
| SqlMeaning.FloatsCompare | src/sql/expr.rs:312-319 | doubles compare by value, zeros alike, and NaN with nothing |
| SqlMeaning.NullCompares | src/sql/value.rs:87-99 | NULL equals NULL only, nothing is below or above it, and IS NULL finds it |
| SqlMeaning.IntegersCompute | src/sql/expr.rs:338-353 | +, - and * on integers, or strings that hold one, are the integer results modulo 2^64, / is cut toward zero, and division by zero is NULL |
| SqlMeaning.FloatsCompute | src/sql/expr.rs:338-353 | with a double on either side they are the operations on doubles |
| SqlMeaning.LogicMeans | src/sql/expr.rs:267-310 | AND, OR and NOT are those of the truth of their sides |
| SqlMeaning.NamesMean | src/sql/value.rs:191-210 | a name is the first column with the whole name, else the first with its last part, else NULL |
| SqlValue.ParseI64Iff | src/sql/value.rs:151-153 | a string is read as an integer iff it is a sign or none, any zeros, and a 64-bit integer in decimal |
| SqlValue.CompareTextIs | src/sql/value.rs:87-99 | texts compare by the first byte that differs, or the proper prefix |
| SqlValue.SortCmpIs | src/sql/value.rs:68-85 | the order of ORDER BY spelled out: NULL, false, true, numbers and strings that spell integers by value with NaN last, then the other strings by their bytes |
| OrderBy.CompareMeans | src/sql/result_ops.rs:19-41 | comparing two rows is comparing the first column in which they do not tie, turned round for DESC |
| ScanPlan.EqHintExact | src/sql/plan.rs:186-280 | an equality of pre, lang, depth or block_type with a literal the column can hold gives a hint that holds on exactly the blocks whose rows satisfy it |
| BlockRows.CellsAre | src/sql/scan.rs:154-260 | what each of the eleven columns of a block is, looked up by name |
| BlockRows.TablesApart | src/sql/value.rs:191-210 | in the combined row of two block tables a qualified name is the cell of its own table |
| BlocksScan.RowsAreCounted | src/sql/scan.rs:162-206 | row ids count the blocks of all documents from 0, and each row is of its block and document |
| BlocksScan.PreTestKeeps | src/sql/query.rs:301-330 | WHERE with a comparison of pre and a number keeps a row exactly if its number compares so |
| BlocksScan.PreTestSelects | src/sql/query.rs:245-330 | so the scan returns exactly the blocks whose number compares so, in order |
| Tokenizer.GramSizes | src/indexes.rs:279-334 | a text in Japanese or Chinese script has its single characters and pairs as tokens under Bigram, its triples too under Trigram, and nothing else |
| Tokenizer.ScriptsMatch | src/sql/scalar.rs:76-89 | a query in these scripts, given by code points, matches every text it occurs in |
| Tokenizer.WordsStayWhole | src/indexes.rs:279-334 | under Word, and below the Hangul letters under any tokenizer, the tokens are the maximal stretches of alphanumerics |
| StatementMeaning.FreshColumns | src/sql/ddl.rs:25-69 | a column of a new table forbids missing cells iff its definition says NOT NULL or PRIMARY KEY or a PRIMARY KEY constraint names it |
| StatementMeaning.FreshGroups | src/sql/ddl.rs:25-69 | the groups that must be unique are each column defined UNIQUE or PRIMARY KEY, and the columns each such constraint names |
| StatementMeaning.DeclaredConstraintsHold | src/sql/ddl.rs:195-310 | over runs: from a CREATE TABLE until that name is dropped, replaced or rolled back, no cell of the table is missing and no two rows agree where that CREATE TABLE forbids it |
| StatementMeaning.CreateTableMeans | src/sql/ddl.rs:195-310 | Ok: an empty table as declared, under a name that is neither reserved nor a view, or IF NOT EXISTS found one |
| StatementMeaning.DropMeans | src/sql/ddl.rs:568-624 | Ok: exactly the names listed are gone, and without IF EXISTS all were there |
| StatementMeaning.InsertMeans | src/sql/ddl.rs:445-566 | Ok: one row behind the others for each of VALUES, each cell in the column its name is of |
| StatementMeaning.InsertRefused | src/sql/ddl.rs:445-566 | error: only if VALUES is one, there is no such table or column, a row has the wrong number of cells, or the table with these rows would not keep its constraints |
| StatementMeaning.RewriteMeans | src/sql/dml.rs:112-178 | Ok: the rows WHERE misses stay, the others are dropped or have exactly the cells changed that SET gives, in place |
| StatementMeaning.RewriteRefused | src/sql/dml.rs:112-178 | error: only for the table, an expression in error, or rows that would not keep the constraints |
| StatementMeaning.CreateRefused | src/sql/ddl.rs:195-310 | a CREATE is refused only for its name, a clash no clause allows, a table without columns, or a query or view text in error |
| CatalogState.RollbackIsGranted | src/store.rs:913-934 | if no other session wrote the catalog since BEGIN, ROLLBACK brings tables and views back |
| Csv.FieldStands | src/sql/output.rs:21-27 | a field without comma, quote or line break stands as it is; one with them stands in quotes |
| Csv.CrlfReadsAsLf | src/sql/external.rs:44-81 | text with CRLF line ends reads as the same text with LF |
| SecondaryIndexes.DepthIs | src/indexes.rs:164-189 | a block's depth is the low byte of its depth property |

## Left out

- StorageFile.Storage.WriteTableRows: rows without any cell, on which the original panics (`BytesIffCell`), are excluded; so are statements that would leave a table with only such rows.
- StoreOpening.OpenStore: what opening does with a table whose rows have another number of cells than its columns, as `SELECT 1 AS a UNION ALL VALUES (1, 2)` makes one, is not modelled beyond `TableReadsBackIff`: an error, or other rows.
- DocumentStore.DocumentStore.WriteDoc: the index comes with the blocks from the parser; that it is the index of those blocks is proved of `SecondaryIndexes.BuildIndex`.
- DocumentStore.DocumentStore.Reindex: the messages of failed files are not modelled.
- BlocksScan.SelectBlocks: covers one unjoined scan without a subquery in WHERE; joined scans get no hint in the model. Ids of blocks stay below 2^32. Clauses with an inverted BETWEEN on `pre`, on which the original panics (`InvertedRange`), are excluded.
- ZoneMaps.SkipSound: heading contents, depth and languages are modelled; the rest of the zone maps, which skipping does not look at, is modelled in `ZoneCodec` only.
- WriteBack.SpliceDeletes: overlapping spans, or spans that end on a blank line, have the loop as their only specification.
- SqlExpr.FoldKeepsMeaning: the operators of the fragment that folding, joins and WHERE need; CASE, LIKE, CAST, functions and subqueries are left out. Integer arithmetic wraps as in a release build; dividing the least integer by -1 is not modelled as a panic.
- HashJoin.HashJoinIsNestedLoop: the keys are column names, as the planner chooses them.
- OrderBy.ApplyOrderBy: the library sort is modelled by an insertion sort; `StableOrderIsUnique` shows that any stable sort gives the same.
- RecursiveCte.UnionIsLeastFixedPoint: rows are compared as the source compares them, by value; the branch is a function of its input rows.
- CatalogState.StatementKeepsDb: identifiers compare by ASCII case; SELECT inside CREATE TABLE AS and INSERT is its result rows.
- Write-in-place formats before version 8, `vacuum`, `save`, `migrate`, file locks and inode identity: operating-system behaviour or outside the version-8 protocol.
- In-memory stores, attached databases, registered virtual tables.
- Relevance scoring, vector functions, other scalar functions, aggregates, window functions, set operations, JSON extraction: long tables of easy cases.
- Anchors of headings (`block_anchors`) are not unique and carry no theorem.
- Time-of-day in date arithmetic, `strftime`.
- Terminal interface, command line, HTTP server, EXPLAIN, table and HTML rendering.
