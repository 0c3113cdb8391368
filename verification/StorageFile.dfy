/** The storage handle: page file, chain writers and readers, commit and open.
    `if *` stands for an I/O operation that may fail. */
module StorageFile {
  import opened Bytes
  import opened Parsing
  import opened PageFormat
  import opened PageChain
  import opened CatalogCodec
  import opened CommitProtocol
  import CommitSafety
  import BC = BlockCodec

  /** Any sequence of steps from a created file. */
  ghost predicate History(h: seq<Sys>) {
    |h| > 0 && Init(h[0]) && forall i | 0 <= i < |h| - 1 :: Step(h[i], h[i + 1])
  }

  /** Nothing but the two commit records has been overwritten. */
  ghost predicate Extends(before: File, after: File) {
    |before| <= |after| && forall id | 3 <= id < |before| :: after[id] == before[id]
  }

  class PageFile {
    var disk: Disk
    var numPages: nat
    /** How many operations on the file have failed, and reservations found no room. */
    ghost var faults: nat

    constructor (disk: Disk, numPages: nat)
      ensures this.disk == disk && this.numPages == numPages
    {
      this.disk := disk;
      this.numPages := numPages;
      faults := 0;
    }

    ghost predicate Valid()
      reads this
    {
      3 <= numPages <= |View(disk)| && numPages < U32
    }

    /** The pages this handle can read. */
    function Pages(): File
      requires numPages <= |View(disk)|
      reads this
    {
      View(disk)[..numPages]
    }

    method AppendPage(page: Page) returns (r: Result<nat>)
      requires Valid()
      modifies this
      ensures Valid()
      ensures r.Ok? ==> (r.value == old(numPages) && numPages == old(numPages) + 1 < U32 &&
        disk == Add(old(disk), Write(old(numPages), Some(page))) && Pages() == old(Pages()) + [Some(page)])
      ensures r.Err? ==> (numPages == old(numPages) && Pages() == old(Pages()) &&
        (disk == old(disk) || exists p: Option<Page> :: disk == Add(old(disk), Write(numPages, p))))
      ensures faults == old(faults) + if r.Err? then 1 else 0
    {
      hide Written;
      ghost var before := disk;
      var torn: Option<Page> :| true;
      if * {
        if * {
          disk := Add(disk, Write(numPages, torn));
          ViewAdd(before, Write(numPages, torn));
        }
        faults := faults + 1;
        return Err;
      }
      disk := Add(disk, Write(numPages, Some(page)));
      ViewAdd(before, Write(numPages, Some(page)));
      if numPages + 1 >= U32 {
        faults := faults + 1;
        return Err;
      }
      r := Ok(numPages);
      numPages := numPages + 1;
    }

    /** Whether there are page ids for `count` more pages. */
    method HasRoom(count: nat) returns (room: bool)
      requires Valid()
      modifies `faults
      ensures Valid() && (room <==> numPages + count <= U32) && faults == old(faults) + if room then 0 else 1
    {
      room := numPages + count <= U32;
      if !room {
        faults := faults + 1;
      }
    }

    /** `write_page` on a commit record: done, not done, or torn. */
    method WriteSlot(slot: nat, page: Page) returns (r: Result<()>)
      requires Valid() && IsSlot(slot)
      modifies `disk, `faults
      ensures faults == old(faults) + if r.Err? then 1 else 0
      ensures Valid() && |View(disk)| == |old(View(disk))|
      ensures r.Ok? ==> disk == Add(old(disk), Write(slot, Some(page)))
      ensures r.Err? ==> disk == old(disk) || exists p: Option<Page> ::
        (p == Some(page) || ReadSlot(slot, p) == None) && disk == Add(old(disk), Write(slot, p))
      ensures forall id | 3 <= id < |View(disk)| :: View(disk)[id] == old(View(disk))[id]
    {
      hide Written, SuperblockOf;
      ghost var before := disk;
      ViewAdd(before, Write(slot, Some(page)));
      ViewAdd(before, Write(slot, None));
      if * {
        if * {
          disk := Add(disk, Write(slot, Some(page)));
        } else if * {
          disk := Add(disk, Write(slot, None));
        }
        faults := faults + 1;
        return Err;
      }
      disk := Add(disk, Write(slot, Some(page)));
      r := Ok(());
    }

    method SyncAll() returns (r: Result<()>)
      requires Valid()
      modifies `disk, `faults
      ensures Valid() && View(disk) == old(View(disk)) && faults == old(faults) + if r.Err? then 1 else 0
      ensures r.Ok? ==> disk == Disk(old(View(disk)), [])
      ensures r.Err? ==> disk == old(disk)
    {
      if * {
        faults := faults + 1;
        return Err;
      }
      disk := Disk(View(disk), []);
      r := Ok(());
    }
  }

  // What is stored where

  function EncBlocks(blocks: seq<BC.Block>, keys: seq<seq<BC.Text>>): seq<Byte>
    requires |keys| == |blocks|
    requires forall i | 0 <= i < |blocks| :: BC.Enumerates(keys[i], blocks[i].properties)
  {
    if |blocks| == 0 then []
    else
      assert BC.Enumerates(keys[0], blocks[0].properties);
      BC.EncBlock(blocks[0], keys[0]) + EncBlocks(blocks[1..], keys[1..])
  }

  /** The chain that stores a document's blocks. */
  ghost predicate IsBlockChain(c: Chain, first: nat, blocks: seq<BC.Block>) {
    c.head == PAGE_TYPE_BLOCK_DATA && c.tail == PAGE_TYPE_OVERFLOW && c.first == first &&
    (forall b | b in blocks :: BC.BlockFits(b)) &&
    exists keys: seq<seq<BC.Text>> :: ListsKeys(keys, blocks) && c.bodies == BlobChunks(EncBlocks(blocks, keys))
  }

  predicate ListsKeys(keys: seq<seq<BC.Text>>, blocks: seq<BC.Block>) {
    |keys| == |blocks| && forall i | 0 <= i < |blocks| :: BC.Enumerates(keys[i], blocks[i].properties)
  }

  const TABLE_ROW_PAGE_CAPACITY: nat := PAGE_BODY_SIZE - 2

  /** Each page of a row chain starts with the length of its own chunk. */
  function RowBodies(chunks: seq<seq<Byte>>): (b: seq<seq<Byte>>)
    ensures |b| == |chunks|
  {
    seq(|chunks|, i requires 0 <= i < |chunks| => LE(|chunks[i]|, 2) + chunks[i])
  }

  function RowChunks(rows: seq<seq<BC.Text>>): seq<seq<Byte>> {
    Chunks(EncMany(BC.EncRow, rows), TABLE_ROW_PAGE_CAPACITY)
  }

  predicate CellsFit(row: seq<BC.Text>) { BC.RowFits(row, |row|) }

  predicate HasCell(rows: seq<seq<BC.Text>>) { exists r :: r in rows && r != [] }

  /** The stored rows are the table's, perhaps with more behind them; a table without
      columns that was read back has lost all cells. */
  predicate StandFor(stored: seq<seq<BC.Text>>, rows: seq<seq<BC.Text>>, cols: nat) {
    rows <= stored || (cols == 0 && forall r | r in rows :: r == [])
  }

  /** A chain that stores a table's rows. Nothing on it says how wide a row is. */
  ghost predicate IsRowChain(c: Chain, first: nat, rows: seq<seq<BC.Text>>, cols: nat) {
    c.head == PAGE_TYPE_TABLE_DATA && c.tail == PAGE_TYPE_OVERFLOW && c.first == first &&
    exists stored: seq<seq<BC.Text>> :: StandFor(stored, rows, cols) && HasCell(stored) &&
      (forall r | r in stored :: CellsFit(r)) && c.bodies == RowBodies(RowChunks(stored))
  }

  // Reading it back

  /** `read_blocks`. */
  function ReadBlocks(f: File, first: nat, n: nat): Result<seq<BC.Block>> {
    if n == 0 then Ok([])
    else
      match Follow(f, PAGE_TYPE_BLOCK_DATA, PAGE_TYPE_OVERFLOW, first, {}) case Err => Err case Ok(bodies) =>
      match Many(n, BC.TakeBlock, Concat(bodies)) case Err => Err case Ok((blocks, _)) => Ok(blocks)
  }

  function Unwrap(body: seq<Byte>): Result<seq<Byte>> {
    if |body| < 2 || FromLE(body[0..2]) + 2 > |body| then Err else Ok(body[2..FromLE(body[0..2]) + 2])
  }

  function UnwrapAll(bodies: seq<seq<Byte>>): Result<seq<Byte>> {
    if |bodies| == 0 then Ok([])
    else
      match Unwrap(bodies[0]) case Err => Err case Ok(chunk) =>
      match UnwrapAll(bodies[1..]) case Err => Err case Ok(rest) => Ok(chunk + rest)
  }

  /** `read_table_rows`. */
  function ReadRows(f: File, first: nat, n: nat, cols: nat): Result<seq<seq<BC.Text>>> {
    if first == 0 || n == 0 then Ok([])
    else
      match Follow(f, PAGE_TYPE_TABLE_DATA, PAGE_TYPE_OVERFLOW, first, {}) case Err => Err case Ok(bodies) =>
      match UnwrapAll(bodies) case Err => Err case Ok(bytes) => BC.DecodeRows(bytes, n, cols)
  }

  lemma {:induction false} BlocksDecode(blocks: seq<BC.Block>, keys: seq<seq<BC.Text>>, tail: seq<Byte>)
    requires ListsKeys(keys, blocks) && forall b | b in blocks :: BC.BlockFits(b)
    ensures Many(|blocks|, BC.TakeBlock, EncBlocks(blocks, keys) + tail) == Ok((blocks, tail))
  {
    hide BC.TakeBlock, BC.EncBlock, BC.BlockFits;
    if |blocks| == 0 {
      assert EncBlocks(blocks, keys) + tail == tail;
    } else {
      var rest := EncBlocks(blocks[1..], keys[1..]) + tail;
      Regroup(BC.EncBlock(blocks[0], keys[0]), EncBlocks(blocks[1..], keys[1..]), tail);
      BC.BlockRoundTrip(blocks[0], keys[0], rest);
      BlocksDecode(blocks[1..], keys[1..], tail);
      assert [blocks[0]] + blocks[1..] == blocks;
    }
  }

  /** A document's page chain reads back as exactly its blocks. */
  lemma BlocksReadBack(f: File, c: Chain, blocks: seq<BC.Block>)
    requires Holds(f, c) && IsBlockChain(c, c.first, blocks)
    ensures ReadBlocks(f, c.first, |blocks|) == Ok(blocks)
  {
    hide BC.TakeBlock, BC.BlockFits, Many, BlobChunks, Follow;
    var keys :| ListsKeys(keys, blocks) && c.bodies == BlobChunks(EncBlocks(blocks, keys));
    var bytes := EncBlocks(blocks, keys);
    FollowChain(f, c.head, c.tail, c.first, c.bodies);
    BlobReadsBack(bytes);
    var n: nat :| Concat(Padded(BlobChunks(bytes))) == bytes + Zeros(n);
    BlocksDecode(blocks, keys, Zeros(n));
  }

  /** `read_index_bytes`. */
  function ReadIndex(f: File, first: nat): Result<seq<Byte>> {
    match Follow(f, PAGE_TYPE_INDEX, PAGE_TYPE_OVERFLOW, first, {}) case Err => Err case Ok(bodies) => Ok(Concat(bodies))
  }

  /** An index chain reads back as its bytes, with the padding of the last page. */
  lemma IndexBytesReadBack(f: File, c: Chain, bytes: seq<Byte>)
    requires Holds(f, c) && c.head == PAGE_TYPE_INDEX && c.tail == PAGE_TYPE_OVERFLOW && c.bodies == BlobChunks(bytes)
    ensures exists n: nat :: ReadIndex(f, c.first) == Ok(bytes + Zeros(n))
  {
    hide BlobChunks, Follow;
    FollowChain(f, c.head, c.tail, c.first, c.bodies);
    BlobReadsBack(bytes);
  }

  lemma {:induction false} UnwrapChunks(chunks: seq<seq<Byte>>)
    requires forall i | 0 <= i < |chunks| :: |chunks[i]| <= TABLE_ROW_PAGE_CAPACITY
    ensures UnwrapAll(Padded(RowBodies(chunks))) == Ok(Concat(chunks))
  {
    if |chunks| > 0 {
      Widths();
      var body := LE(|chunks[0]|, 2) + chunks[0];
      assert Padded(RowBodies(chunks))[0] == Pad(body);
      assert Pad(body)[0..2] == body[0..2] == LE(|chunks[0]|, 2);
      LERoundTrip(|chunks[0]|, 2);
      assert Pad(body)[2..|chunks[0]| + 2] == body[2..] == chunks[0];
      assert Padded(RowBodies(chunks))[1..] == Padded(RowBodies(chunks[1..]));
      UnwrapChunks(chunks[1..]);
    }
  }

  /** Rows have bytes exactly if one of them has a cell. Without any, the writer panics. */
  lemma {:induction false} BytesIffCell(rows: seq<seq<BC.Text>>)
    ensures |EncMany(BC.EncRow, rows)| > 0 <==> HasCell(rows)
  {
    if |rows| > 0 {
      BytesIffCell(rows[1..]);
      RowBytes(rows[0]);
      assert HasCell(rows) <==> rows[0] != [] || HasCell(rows[1..]) by {
        assert rows == [rows[0]] + rows[1..] && rows[0] in rows;
        assert forall r :: r in rows <==> r == rows[0] || r in rows[1..];
      }
    }
  }

  lemma RowBytes(row: seq<BC.Text>)
    ensures |BC.EncRow(row)| > 0 <==> row != []
  {
  }

  lemma {:induction false} DecodedWidth(s: seq<Byte>, n: nat, cols: nat)
    ensures match Many(n, BC.TakeRow(cols), s) case Err => true case Ok((rows, _)) => forall r | r in rows :: |r| == cols
    decreases n
  {
    if n > 0 {
      forall t: seq<Byte> ensures match BC.TakeRow(cols)(t) case Err => true case Ok((r, _)) => |r| == cols {
        ManyLength(cols, BC.TakeCell, t);
      }
      match BC.TakeRow(cols)(s)
      case Err =>
      case Ok((_, rest)) => DecodedWidth(rest, n - 1, cols);
    }
  }

  lemma {:induction false} ManyLength<T>(n: nat, take: seq<Byte> -> Parsed<T>, s: seq<Byte>)
    ensures match Many(n, take, s) case Err => true case Ok((xs, _)) => |xs| == n
  {
    if n > 0 && take(s).Ok? {
      ManyLength(n - 1, take, take(s).value.1);
    }
  }

  /** Reading a row chain decodes the stored bytes in rows of the table's width. */
  lemma RowsDecoded(f: File, c: Chain, stored: seq<seq<BC.Text>>, n: nat, cols: nat)
    requires Holds(f, c) && c.head == PAGE_TYPE_TABLE_DATA && c.tail == PAGE_TYPE_OVERFLOW && n > 0
    requires HasCell(stored) && c.bodies == RowBodies(RowChunks(stored))
    ensures ReadRows(f, c.first, n, cols) == BC.DecodeRows(EncMany(BC.EncRow, stored), n, cols)
  {
    hide BC.DecodeRows, Follow, Chunks, BC.EncRow, UnwrapAll, HasCell;
    BytesIffCell(stored);
    FollowChain(f, c.head, c.tail, c.first, c.bodies);
    UnwrapChunks(RowChunks(stored));
    ConcatChunks(EncMany(BC.EncRow, stored), TABLE_ROW_PAGE_CAPACITY);
  }

  /** The rows in front of the stored ones decode if they have the width they are read with. */
  lemma FrontDecodes(stored: seq<seq<BC.Text>>, rows: seq<seq<BC.Text>>, cols: nat)
    requires StandFor(stored, rows, cols) && (forall r | r in stored :: CellsFit(r)) && forall r | r in rows :: |r| == cols
    ensures BC.DecodeRows(EncMany(BC.EncRow, stored), |rows|, cols) == Ok(rows)
  {
    hide BC.EncRow, EncMany;
    if rows <= stored {
      var n := |rows|;
      BC.EncManySplit(BC.EncRow, stored, n);
      assert stored[..n] == rows && rows[..n] == rows;
      assert forall r | r in rows :: r in stored;
      BC.RowsRoundTrip(rows, n, cols, EncMany(BC.EncRow, stored[n..]));
    } else {
      NoCells(EncMany(BC.EncRow, stored), |rows|);
      assert forall i | 0 <= i < |rows| :: rows[i] in rows;
      assert rows == Hollow(|rows|);
    }
  }

  /** A row chain reads back as exactly the rows the catalog counts, even if a failed
      INSERT left more rows behind them, exactly if every row has one cell per column. */
  lemma RowsReadBackIff(f: File, c: Chain, rows: seq<seq<BC.Text>>, cols: nat)
    requires Holds(f, c) && IsRowChain(c, c.first, rows, cols)
    ensures ReadRows(f, c.first, |rows|, cols) == Ok(rows) <==> forall r | r in rows :: |r| == cols
  {
    hide Follow, Chunks, BC.EncRow, UnwrapAll, StandFor, HasCell, CellsFit, RowBodies, Many;
    if |rows| > 0 {
      var stored :| StandFor(stored, rows, cols) && HasCell(stored) && (forall r | r in stored :: CellsFit(r)) &&
        c.bodies == RowBodies(RowChunks(stored));
      RowsDecoded(f, c, stored, |rows|, cols);
      if forall r | r in rows :: |r| == cols {
        FrontDecodes(stored, rows, cols);
      } else {
        DecodedWidth(EncMany(BC.EncRow, stored), |rows|, cols);
      }
    }
  }

  /** `n` rows without cells. */
  function Hollow(n: nat): (rows: seq<seq<BC.Text>>)
    ensures |rows| == n && forall r | r in rows :: r == []
  {
    seq(n, _ => [])
  }

  lemma {:induction false} NoCells(s: seq<Byte>, n: nat)
    ensures Many(n, BC.TakeRow(0), s) == Ok((Hollow(n), s))
  {
    if n > 0 {
      NoCells(s, n - 1);
      var none: seq<BC.Text> := [];
      assert BC.TakeRow(0)(s) == Ok((none, s));
      assert Hollow(n) == [none] + Hollow(n - 1);
    }
  }

  /** Rows read back without cells have no bytes: writing them again panics. */
  lemma HollowRowsHaveNoBytes()
    ensures |EncMany(BC.EncRow, Hollow(1))| == 0
  {
    BytesIffCell(Hollow(1));
  }

  /** A table without columns reads back as that many rows without cells. */
  lemma NoColumnsReadBack(f: File, c: Chain, rows: seq<seq<BC.Text>>)
    requires Holds(f, c) && IsRowChain(c, c.first, rows, 0)
    ensures ReadRows(f, c.first, |rows|, 0) == Ok(Hollow(|rows|))
  {
    hide Follow, Chunks, BC.EncRow, UnwrapAll, StandFor, HasCell, CellsFit, RowBodies, Many;
    if |rows| > 0 {
      var stored :| StandFor(stored, rows, 0) && HasCell(stored) && (forall r | r in stored :: CellsFit(r)) &&
        c.bodies == RowBodies(RowChunks(stored));
      RowsDecoded(f, c, stored, |rows|, 0);
      NoCells(EncMany(BC.EncRow, stored), |rows|);
    }
  }

  lemma ExtendsChain(before: File, after: File, head: nat, tail: nat, first: nat, bodies: seq<seq<Byte>>)
    requires Extends(before, after) && first >= 3 && ChainAt(before, head, tail, first, bodies)
    ensures ChainAt(after, head, tail, first, bodies)
  {
    ChainKept(before, after, head, tail, first, bodies);
  }

  /** Once its pages are synced, a catalog is ready to be published. */
  lemma SyncedIsPrepared(s: Sys, before: File, c: Catalog, chains: set<Chain>, root: nat)
    requires s.inFlight == None && s.disk.pending == [] && s.generation + 1 < U64
    requires s.numPages <= |View(s.disk)| && s.numPages < U32
    requires HoldsAll(before, chains) && Extends(before, View(s.disk)[..s.numPages])
    requires Fits(c) && 3 <= root && root + |BlobChunks(Encode(c))| <= s.numPages
    requires CatalogAt(View(s.disk)[..s.numPages], root, c)
    ensures Prepared(s, Attempt(c, chains, Superblock(s.generation + 1, root, s.numPages)))
  {
    hide View, Fits, Encode, BlobChunks, HoldsAll, Within;
    var committed := View(s.disk)[..s.numPages];
    CleanDisk(s.disk);
    ChainKept(committed, s.disk.durable, PAGE_TYPE_CATALOG, PAGE_TYPE_CATALOG, root, BlobChunks(Encode(c)));
    HeldIsWithin(before, chains);
    WithinKept(before, s.disk.durable, |before|, chains);
    WithinMore(s.disk.durable, |before|, s.numPages, chains);
  }

  lemma HeldIsWithin(f: File, chains: set<Chain>)
    requires HoldsAll(f, chains)
    ensures Within(f, |f|, chains)
  {
  }

  lemma WithinMore(f: File, n: nat, m: nat, chains: set<Chain>)
    requires Within(f, n, chains) && n <= m <= |f|
    ensures Within(f, m, chains)
  {
  }

  lemma HistoryGrows(h: seq<Sys>, s: Sys)
    requires History(h) && Step(h[|h| - 1], s)
    ensures History(h + [s])
  {
    hide Step, Init;
    forall i | 0 <= i < |h + [s]| - 1 ensures Step((h + [s])[i], (h + [s])[i + 1]) {
      if i < |h| - 1 {
        assert Step(h[i], h[i + 1]);
      }
    }
  }

  /** The steps of a commit are steps. */
  lemma CommitIsStep(s: Sys, t: Sys)
    requires Publish(s, t) || PublishFailed(s, t) || Commit(s, t) || CommitFailed(s, t)
    ensures Step(s, t)
  {
    hide Publish, PublishFailed, Commit, CommitFailed, AppendOk, AppendFailed, SyncOk, Restart, PowerLoss;
  }

  lemma CommitGrows(h: seq<Sys>, t: Sys)
    requires |h| > 0 && History(h)
    requires var s := h[|h| - 1]; Publish(s, t) || PublishFailed(s, t) || Commit(s, t) || CommitFailed(s, t)
    ensures History(h + [t])
  {
    hide Publish, PublishFailed, Commit, CommitFailed, Step, History;
    CommitIsStep(h[|h| - 1], t);
    HistoryGrows(h, t);
  }

  lemma IsPublish(s: Sys, a: Attempt)
    requires Prepared(s, a)
    ensures var page := Some(SuperblockPage(SlotOf(a.sb.generation), a.sb));
      Publish(s, s.(disk := Add(s.disk, Write(SlotOf(a.sb.generation), page)), inFlight := Some(|s.log|), log := s.log + [a]))
  {
    hide Prepared;
  }

  lemma PreparedGeneration(s: Sys, a: Attempt)
    requires Prepared(s, a)
    ensures a.sb.generation == s.generation + 1 && a.sb.root >= 3
  {
  }

  lemma IsCommit(s: Sys, a: Attempt)
    requires |s.log| > 0 && s.inFlight == Some(|s.log| - 1) && s.log[|s.log| - 1] == a
    ensures Commit(s, s.(disk := Disk(View(s.disk), []), generation := a.sb.generation, root := a.sb.root,
                         inFlight := None, lastOk := |s.log| - 1))
  {
    hide View;
  }

  lemma IsCommitFailed(s: Sys)
    requires s.inFlight.Some?
    ensures CommitFailed(s, s.(inFlight := None))
  {
  }

  lemma IsPublishFailed(s: Sys, a: Attempt, page: Option<Page>)
    requires Prepared(s, a)
    requires page == Some(SuperblockPage(SlotOf(a.sb.generation), a.sb)) || ReadSlot(SlotOf(a.sb.generation), page) == None
    ensures PublishFailed(s, s)
    ensures PublishFailed(s, s.(disk := Add(s.disk, Write(SlotOf(a.sb.generation), page)), log := s.log + [a]))
  {
    hide Prepared, ReadSlot, SuperblockPage, Add;
    assert PublishFailedBy(s, s, a, page);
    assert PublishFailedBy(s, s.(disk := Add(s.disk, Write(SlotOf(a.sb.generation), page)), log := s.log + [a]), a, page);
  }

  /** A failed record write that left no trace is no attempt. */
  ghost function LogAfter(s: Sys, a: Attempt, disk: Disk): seq<Attempt> {
    if disk == s.disk then s.log else s.log + [a]
  }

  lemma RecordFailed(s: Sys, a: Attempt, disk: Disk)
    requires Prepared(s, a)
    requires var slot := SlotOf(a.sb.generation);
      disk == s.disk || exists p: Option<Page> ::
        (p == Some(SuperblockPage(slot, a.sb)) || ReadSlot(slot, p) == None) && disk == Add(s.disk, Write(slot, p))
    ensures PublishFailed(s, s.(disk := disk, log := LogAfter(s, a, disk)))
  {
    hide Prepared, ReadSlot, SuperblockPage, Add, PublishFailed;
    var slot := SlotOf(a.sb.generation);
    if disk == s.disk {
      IsPublishFailed(s, a, Some(SuperblockPage(slot, a.sb)));
    } else {
      var p: Option<Page> :| (p == Some(SuperblockPage(slot, a.sb)) || ReadSlot(slot, p) == None) && disk == Add(s.disk, Write(slot, p));
      IsPublishFailed(s, a, p);
    }
  }

  /** A chain written page by page in one go is where its head is. */
  lemma ChainGrows(f: File, head: nat, tail: nat, first: nat, bodies: seq<seq<Byte>>, i: nat)
    requires i < |bodies| && |f| == first + i
    requires forall k | 0 <= k < i :: f[first + k] == Some(ChainPage(head, tail, first, bodies, k))
    ensures var g := f + [Some(ChainPage(head, tail, first, bodies, i))];
      forall k | 0 <= k < i + 1 :: g[first + k] == Some(ChainPage(head, tail, first, bodies, k))
  {
  }

  lemma {:induction false} EncBlocksAppend(blocks: seq<BC.Block>, keys: seq<seq<BC.Text>>, b: BC.Block, k: seq<BC.Text>)
    requires ListsKeys(keys, blocks) && BC.Enumerates(k, b.properties)
    ensures ListsKeys(keys + [k], blocks + [b])
    ensures EncBlocks(blocks + [b], keys + [k]) == EncBlocks(blocks, keys) + BC.EncBlock(b, k)
  {
    hide BC.EncBlock;
    if |blocks| > 0 {
      EncBlocksAppend(blocks[1..], keys[1..], b, k);
      assert (blocks + [b])[1..] == blocks[1..] + [b] && (keys + [k])[1..] == keys[1..] + [k];
    } else {
      assert (blocks + [b])[1..] == [] && (keys + [k])[1..] == [];
      assert BC.EncBlock(b, k) + [] == [] + BC.EncBlock(b, k);
    }
  }

  lemma EmptyCatalogIsSmall()
    ensures |BlobChunks(Encode(EMPTY_CATALOG))| == 1
  {
    assert |EncSection(EncEntry, EMPTY_CATALOG.entries)| == 4 && |EncSection(EncTable, EMPTY_CATALOG.tables)| == 4;
    assert |EncSection(EncHash, EMPTY_CATALOG.hashes)| == 4 && |EncSection(EncView, EMPTY_CATALOG.views)| == 4;
    assert |Encode(EMPTY_CATALOG)| == 17;
  }

  class Storage {
    const file: PageFile
    var catalogRoot: nat
    var generation: nat
    ghost var log: seq<Attempt>
    ghost var lastOk: nat
    /** The steps of the commit protocol since the file was created. */
    ghost var history: seq<Sys>

    ghost function State(): Sys
      reads this, file
    {
      Sys(file.disk, file.numPages, generation, catalogRoot, None, log, lastOk)
    }

    ghost predicate Valid()
      reads this, file
      ensures Valid() ==> 3 <= file.numPages <= |View(file.disk)| && file.numPages < U32
    {
      file.Valid() && generation < U64 && catalogRoot > 0 &&
      |history| > 0 && history[|history| - 1] == State() && History(history)
    }

    function Pages(): File
      requires file.numPages <= |View(file.disk)|
      reads this, file
    {
      file.Pages()
    }

    /** Something failed since, or there is no further generation. */
    ghost predicate Troubled(since: nat)
      reads this, file
    {
      file.faults > since || generation + 1 >= U64
    }

    /** `create`, once all of it has reached the disk: header, two commit records, an empty catalog. */
    constructor Create()
      ensures Valid() && fresh(file) && history == [State()]
      ensures log == [Attempt(EMPTY_CATALOG, {}, Superblock(1, 3, file.numPages))] && lastOk == 0
    {
      var bodies := BlobChunks(Encode(EMPTY_CATALOG));
      EmptyCatalogIsSmall();
      var chain := ChainPages(PAGE_TYPE_CATALOG, PAGE_TYPE_CATALOG, 3, bodies);
      var n := 3 + |bodies|;
      var sb := Superblock(1, 3, n);
      var durable := [Some(FileHeader()), Some(SuperblockPage(SUPERBLOCK_A, sb)),
                      Some(Page(PAGE_TYPE_SUPERBLOCK, SUPERBLOCK_B, 0, Pad([])))]
                     + seq(|chain|, i requires 0 <= i < |chain| => Some(chain[i]));
      file := new PageFile(Disk(durable, []), n);
      catalogRoot := 3;
      generation := 1;
      log := [Attempt(EMPTY_CATALOG, {}, sb)];
      lastOk := 0;
      history := [Sys(Disk(durable, []), n, 1, 3, None, [Attempt(EMPTY_CATALOG, {}, sb)], 0)];
    }

    /** A handle on a file as it stands, opened at the superblock `sb`. */
    constructor At(disk: Disk, sb: Superblock, ghost prior: seq<Sys>)
      requires 3 <= |View(disk)| < U32 && sb.generation < U64 && sb.root > 0
      requires |prior| > 0
      requires History(prior + [Sys(disk, |View(disk)|, sb.generation, sb.root, None, prior[|prior| - 1].log, prior[|prior| - 1].lastOk)])
      ensures Valid() && fresh(file) && history == prior + [State()]
      ensures file.disk == disk && file.numPages == |View(disk)| && catalogRoot == sb.root && generation == sb.generation
      ensures log == prior[|prior| - 1].log && lastOk == prior[|prior| - 1].lastOk
    {
      file := new PageFile(disk, |View(disk)|);
      catalogRoot := sb.root;
      generation := sb.generation;
      log := prior[|prior| - 1].log;
      lastOk := prior[|prior| - 1].lastOk;
      history := prior + [Sys(disk, |View(disk)|, sb.generation, sb.root, None, prior[|prior| - 1].log, prior[|prior| - 1].lastOk)];
    }

    /** `load_catalog`. */
    method ReadCatalog() returns (r: Result<Catalog>)
      requires Valid()
      ensures r == LoadCatalog(Pages(), catalogRoot)
    {
      if catalogRoot == 0 || catalogRoot >= file.numPages {
        return Err;
      }
      var bodies := ReadChain(Pages(), PAGE_TYPE_CATALOG, PAGE_TYPE_CATALOG, catalogRoot);
      if bodies.Err? {
        return Err;
      }
      r := DecodeCatalog(Concat(bodies.value));
    }

    /** `read_blocks`. */
    method LoadBlocks(first: nat, n: nat) returns (r: Result<seq<BC.Block>>)
      requires Valid()
      ensures r == ReadBlocks(Pages(), first, n)
    {
      hide BC.TakeBlock, Many, Written, History;
      if n == 0 {
        return Ok([]);
      }
      var bodies := ReadChain(Pages(), PAGE_TYPE_BLOCK_DATA, PAGE_TYPE_OVERFLOW, first);
      if bodies.Err? {
        return Err;
      }
      var bytes := Concat(bodies.value);
      ghost var want := Many(n, BC.TakeBlock, bytes);
      LoopStart(n, BC.TakeBlock, bytes);
      var blocks := [];
      var offset: nat := 0;
      for i := 0 to n
        invariant offset <= |bytes| && Loop(blocks, n - i, BC.TakeBlock, bytes[offset..], want)
      {
        var b := BC.DecodeBlock(bytes[offset..]);
        ghost var rest := if b.Ok? then bytes[offset..][b.value.1..] else [];
        LoopStep(blocks, n - i, BC.TakeBlock, bytes[offset..], want, if b.Ok? then Ok(b.value.0) else Err, rest);
        if b.Err? {
          return Err;
        }
        offset := offset + b.value.1;
        blocks := blocks + [b.value.0];
      }
      LoopEnd(blocks, BC.TakeBlock, bytes[offset..], want);
      r := Ok(blocks);
    }

    /** `read_index_bytes`. */
    method LoadIndex(first: nat) returns (r: Result<seq<Byte>>)
      requires Valid()
      ensures r == ReadIndex(Pages(), first)
    {
      var bodies := ReadChain(Pages(), PAGE_TYPE_INDEX, PAGE_TYPE_OVERFLOW, first);
      r := if bodies.Err? then Err else Ok(Concat(bodies.value));
    }

    /** `read_table_rows`. */
    method LoadRows(first: nat, n: nat, cols: nat) returns (r: Result<seq<seq<BC.Text>>>)
      requires Valid()
      ensures r == ReadRows(Pages(), first, n, cols)
    {
      if first == 0 || n == 0 {
        return Ok([]);
      }
      var bodies := ReadChain(Pages(), PAGE_TYPE_TABLE_DATA, PAGE_TYPE_OVERFLOW, first);
      if bodies.Err? {
        return Err;
      }
      var bytes := UnwrapAll(bodies.value);
      if bytes.Err? {
        return Err;
      }
      r := BC.DecodeTableRows(bytes.value, n, cols);
    }

    method AppendPage(page: Page) returns (r: Result<nat>)
      requires Valid()
      modifies this`history, file
      ensures Valid() && old(history) <= history
      ensures r.Ok? ==> (r.value == old(file.numPages) && file.numPages == old(file.numPages) + 1 &&
        Pages() == old(Pages()) + [Some(page)])
      ensures r.Err? ==> Pages() == old(Pages())
      ensures file.faults == old(file.faults) + if r.Err? then 1 else 0
    {
      hide Written, Publish, PublishFailed, SyncOk, Restart, PowerLoss, Commit, CommitFailed, Init;
      ghost var before := State();
      r := file.AppendPage(page);
      if r.Ok? {
        assert AppendOk(before, State());
      } else {
        assert AppendFailed(before, State());
      }
      HistoryGrows(history, State());
      history := history + [State()];
    }

    /** The writing loop of every chain: its page ids are predicted, then each page is appended once in final form. */
    method WriteChain(head: nat, tail: nat, bodies: seq<seq<Byte>>) returns (r: Result<nat>)
      requires Valid() && |bodies| > 0
      modifies this`history, file
      ensures Valid() && old(history) <= history && Extends(old(Pages()), Pages())
      ensures r.Ok? ==> (r.value == old(file.numPages) && r.value + |bodies| == file.numPages &&
        ChainAt(Pages(), head, tail, r.value, bodies))
      ensures file.faults == old(file.faults) + if r.Err? then 1 else 0
    {
      hide Written, View, History;
      var first := file.numPages;
      ghost var was := State();
      var room := file.HasRoom(|bodies|);
      assert State() == was;
      if !room {
        return Err;
      }
      ghost var start := Pages();
      for i := 0 to |bodies|
        invariant Valid() && old(history) <= history
        invariant file.numPages == first + i && Extends(start, Pages()) && file.faults == old(file.faults)
        invariant forall k | 0 <= k < i :: Pages()[first + k] == Some(ChainPage(head, tail, first, bodies, k))
      {
        var next := if i + 1 < |bodies| then first + i + 1 else 0;
        var page := Page(if i == 0 then head else tail, first + i, next, Pad(bodies[i]));
        ChainGrows(Pages(), head, tail, first, bodies, i);
        var appended := this.AppendPage(page);
        if appended.Err? {
          return Err;
        }
      }
      r := Ok(first);
    }

    /** `write_document`: all blocks as one blob. */
    method WriteDocument(blocks: seq<BC.Block>) returns (r: Result<nat>)
      requires Valid() && forall b | b in blocks :: BC.BlockFits(b)
      modifies this`history, file
      ensures Valid() && old(history) <= history && Extends(old(Pages()), Pages())
      ensures r.Ok? ==> (r.value < file.numPages &&
        exists c: Chain :: IsBlockChain(c, r.value, blocks) && Holds(Pages(), c))
      ensures file.faults == old(file.faults) + if r.Err? then 1 else 0
    {
      hide Written, View, History, BC.BlockFits, BC.EncBlock;
      var bytes: seq<Byte> := [];
      ghost var keys: seq<seq<BC.Text>> := [];
      assert blocks[..0] == [];
      for i := 0 to |blocks|
        invariant ListsKeys(keys, blocks[..i]) && bytes == EncBlocks(blocks[..i], keys)
        modifies {}
      {
        var k := ListKeys(blocks[i].properties);
        assert blocks[..i + 1] == blocks[..i] + [blocks[i]];
        EncBlocksAppend(blocks[..i], keys, blocks[i], k);
        bytes := bytes + BC.EncBlock(blocks[i], k);
        keys := keys + [k];
      }
      assert blocks[..|blocks|] == blocks;
      var chunks := if |bytes| == 0 then [[]] else Chunks(bytes, PAGE_BODY_SIZE);
      assert chunks == BlobChunks(EncBlocks(blocks, keys));
      r := WriteChain(PAGE_TYPE_BLOCK_DATA, PAGE_TYPE_OVERFLOW, chunks);
      if r.Ok? {
        assert IsBlockChain(Chain(PAGE_TYPE_BLOCK_DATA, PAGE_TYPE_OVERFLOW, r.value, chunks), r.value, blocks);
      }
    }

    method WriteIndex(bytes: seq<Byte>) returns (r: Result<nat>)
      requires Valid()
      modifies this`history, file
      ensures Valid() && old(history) <= history && Extends(old(Pages()), Pages())
      ensures r.Ok? ==>
        (r.value < file.numPages && Holds(Pages(), Chain(PAGE_TYPE_INDEX, PAGE_TYPE_OVERFLOW, r.value, BlobChunks(bytes))))
      ensures file.faults == old(file.faults) + if r.Err? then 1 else 0
    {
      var chunks := if |bytes| == 0 then [[]] else Chunks(bytes, PAGE_BODY_SIZE);
      r := WriteChain(PAGE_TYPE_INDEX, PAGE_TYPE_OVERFLOW, chunks);
    }

    /** `write_table_rows`: the whole table as one chain, or no chain for no rows.
        Rows without any cell make the original panic. */
    method WriteTableRows(rows: seq<seq<BC.Text>>) returns (r: Result<(nat, nat)>)
      requires Valid() && (rows == [] || HasCell(rows)) && forall row | row in rows :: CellsFit(row)
      modifies this`history, file
      ensures Valid() && old(history) <= history && Extends(old(Pages()), Pages())
      ensures r.Ok? && rows == [] ==> r.value == (0, 0)
      ensures r.Ok? && rows != [] ==> (3 <= r.value.0 <= r.value.1 < file.numPages &&
        exists c: Chain :: (forall cols: nat :: IsRowChain(c, r.value.0, rows, cols)) && Holds(Pages(), c))
      ensures file.faults == old(file.faults) + if r.Err? then 1 else 0
    {
      hide Written, View, History, BC.EncRow, Chunks, CellsFit, HasCell;
      if rows == [] {
        return Ok((0, 0));
      }
      var bytes := EncMany(BC.EncRow, rows);
      BytesIffCell(rows);
      var chunks := Chunks(bytes, TABLE_ROW_PAGE_CAPACITY);
      var bodies: seq<seq<Byte>> := [];
      for i := 0 to |chunks|
        invariant bodies == RowBodies(chunks)[..i]
      {
        bodies := bodies + [LE(|chunks[i]|, 2) + chunks[i]];
      }
      assert bodies == RowBodies(RowChunks(rows));
      var first := WriteChain(PAGE_TYPE_TABLE_DATA, PAGE_TYPE_OVERFLOW, bodies);
      if first.Err? {
        return Err;
      }
      ghost var c := Chain(PAGE_TYPE_TABLE_DATA, PAGE_TYPE_OVERFLOW, first.value, bodies);
      forall cols: nat ensures IsRowChain(c, first.value, rows, cols) {
        assert StandFor(rows, rows, cols) && HasCell(rows) && c.bodies == RowBodies(RowChunks(rows));
      }
      assert Holds(Pages(), c);
      r := Ok((first.value, first.value + |bodies| - 1));
    }

    method Sync() returns (r: Result<()>)
      requires Valid()
      modifies this`history, file`disk, file`faults
      ensures Valid() && old(history) <= history && View(file.disk) == old(View(file.disk))
      ensures file.faults == old(file.faults) + if r.Err? then 1 else 0
      ensures r.Ok? ==> file.disk.pending == []
    {
      hide Written, Publish, PublishFailed, AppendOk, AppendFailed, Restart, PowerLoss, Commit, CommitFailed, Init;
      ghost var before := State();
      r := file.SyncAll();
      if r.Ok? {
        assert SyncOk(before, State());
        HistoryGrows(history, State());
        history := history + [State()];
      }
    }

    /** The sync after a commit record, which makes its attempt the acknowledged one. */
    method SettleRoot(ghost a: Attempt, root: nat) returns (r: Result<()>)
      requires file.Valid() && generation + 1 < U64 && catalogRoot > 0 && root > 0
      requires |log| > 0 && log[|log| - 1] == a && a.sb.generation == generation + 1 && a.sb.root == root
      requires |history| > 0 && History(history) && history[|history| - 1] == State().(inFlight := Some(|log| - 1))
      modifies this, file`disk, file`faults
      ensures Valid() && old(history) <= history && log == old(log) && View(file.disk) == old(View(file.disk))
      ensures r.Ok? ==> generation == old(generation) + 1 && catalogRoot == root && lastOk == |log| - 1
      ensures r.Err? ==> generation == old(generation) && catalogRoot == old(catalogRoot) && lastOk == old(lastOk)
      ensures file.faults == old(file.faults) + if r.Err? then 1 else 0
    {
      hide View, Publish, PublishFailed, Commit, CommitFailed, Step, History;
      ghost var flying := State().(inFlight := Some(|log| - 1));
      var synced := file.SyncAll();
      if synced.Err? {
        assert CommitFailed(flying, State()) by { IsCommitFailed(flying); }
        CommitGrows(history, State());
        history := history + [State()];
        return Err;
      }
      catalogRoot := root;
      generation := generation + 1;
      lastOk := |log| - 1;
      IsCommit(flying, a);
      CommitGrows(history, State());
      history := history + [State()];
      r := Ok(());
    }

    /** The commit record of a prepared attempt, its sync, and the handle's new root. */
    method PublishRoot(ghost c: Catalog, ghost chains: set<Chain>, root: nat) returns (r: Result<()>)
      requires Valid() && generation + 1 < U64
      requires Prepared(State(), Attempt(c, chains, Superblock(generation + 1, root, file.numPages)))
      modifies this, file`disk, file`faults
      ensures file.faults == old(file.faults) + if r.Err? then 1 else 0
      ensures Valid() && old(history) <= history && Extends(old(Pages()), Pages())
      ensures log == old(log) || log == old(log) + [Attempt(c, chains, Superblock(old(generation) + 1, root, file.numPages))]
      ensures r.Ok? ==> generation == old(generation) + 1 && catalogRoot == root && log != old(log) && lastOk == |old(log)|
      ensures r.Err? ==> generation == old(generation) && catalogRoot == old(catalogRoot) && lastOk == old(lastOk)
    {
      hide View, Add, ReadSlot, SuperblockPage, Prepared, Publish, PublishFailed, Commit, CommitFailed, Step, History, HoldsAll, Open,
        LoadCatalog, CatalogAt, Encode, Fits;
      ghost var before := State();
      ghost var a := Attempt(c, chains, Superblock(generation + 1, root, file.numPages));
      var next := generation + 1;
      var slot := SlotOf(next);
      PreparedGeneration(before, a);
      var commit := SuperblockPage(slot, Superblock(next, root, file.numPages));
      var written := file.WriteSlot(slot, commit);
      if written.Err? {
        RecordFailed(before, a, file.disk);
        log := LogAfter(before, a, file.disk);
        CommitGrows(history, State());
        history := history + [State()];
        return Err;
      }
      IsPublish(before, a);
      log := log + [a];
      ghost var flying := State().(inFlight := Some(|before.log|));
      CommitGrows(history, flying);
      history := history + [flying];
      r := SettleRoot(a, root);
    }

    /** `flush_catalog`: append the catalog, sync, write the commit record, sync. */
    method FlushCatalog(c: Catalog, ghost chains: set<Chain>) returns (r: Result<()>)
      requires Valid() && Fits(c) && HoldsAll(Pages(), chains)
      modifies this, file
      ensures Valid() && old(history) <= history && Extends(old(Pages()), Pages())
      ensures log == old(log) || (|log| == |old(log)| + 1 && log[..|old(log)|] == old(log) &&
        log[|old(log)|].catalog == c && log[|old(log)|].chains == chains)
      ensures r.Ok? ==> |log| == |old(log)| + 1 && lastOk == |old(log)| && LoadCatalog(Pages(), catalogRoot) == Ok(c)
      ensures r.Err? ==> lastOk == old(lastOk) && catalogRoot == old(catalogRoot) && generation == old(generation)
      ensures file.faults >= old(file.faults) && (r.Err? ==> Troubled(old(file.faults)))
    {
      hide View, SuperblockOf, Step, Init, Fits, Follow, History, Encode, HoldsAll, Within, Prepared, ChainAt, LoadCatalog;
      ghost var before := Pages();
      var bytes := SerializeCatalog(c);
      var chunks := if |bytes| == 0 then [[]] else Chunks(bytes, PAGE_BODY_SIZE);
      var root := WriteChain(PAGE_TYPE_CATALOG, PAGE_TYPE_CATALOG, chunks);
      if root.Err? {
        return Err;
      }
      var synced := Sync();
      if synced.Err? || generation + 1 >= U64 {
        return Err;
      }
      ghost var committed := Pages();
      SyncedIsPrepared(State(), before, c, chains, root.value);
      r := PublishRoot(c, chains, root.value);
      if r.Ok? {
        ExtendsChain(committed, Pages(), PAGE_TYPE_CATALOG, PAGE_TYPE_CATALOG, root.value, chunks);
        LoadsWhatWasAppended(Pages(), root.value, c);
      }
    }
  }

  /** `open_with_lock`: the newest commit record that reads and decodes, or an error.
      `prior` is what happened to the file before: the file is as it was left, or
      what a power loss made of it. */
  method OpenFile(disk: Disk, ghost prior: seq<Sys>) returns (r: Result<Storage>)
    requires History(prior)
    requires disk == prior[|prior| - 1].disk || (disk.pending == [] && CrashImage(prior[|prior| - 1].disk, disk.durable))
    ensures r.Err? <==> Open(View(disk)).None?
    ensures r.Ok? ==> (fresh(r.value) && fresh(r.value.file) && r.value.Valid() &&
      r.value.history == prior + [r.value.State()] && r.value.Pages() == View(disk) &&
      r.value.log == prior[|prior| - 1].log && r.value.lastOk == prior[|prior| - 1].lastOk &&
      Open(View(disk)) == Some(Superblock(r.value.generation, r.value.catalogRoot, Open(View(disk)).value.committed)))
  {
    hide Written, SuperblockOf, Publish, PublishFailed, AppendOk, AppendFailed, Commit, CommitFailed, SyncOk, Init, Candidate;
    var f := View(disk);
    if |f| == 0 || |f| >= U32 || f[0] != Some(FileHeader()) {
      return Err;
    }
    var best: Option<Superblock> := None;
    var slots := [SUPERBLOCK_A, SUPERBLOCK_B];
    for i := 0 to 2
      invariant i == 0 ==> best == None
      invariant i == 1 ==> best == Candidate(f, SUPERBLOCK_A)
      invariant i == 2 ==> best == Newest(Candidate(f, SUPERBLOCK_A), Candidate(f, SUPERBLOCK_B))
    {
      best := Newest(best, Candidate(f, slots[i]));
    }
    if best.None? {
      return Err;
    }
    var sb := best.value;
    CandidateFits(f, SUPERBLOCK_A);
    CandidateFits(f, SUPERBLOCK_B);
    ghost var s := prior[|prior| - 1];
    ghost var t := Sys(disk, |f|, sb.generation, sb.root, None, s.log, s.lastOk);
    assert Step(s, t) by {
      if disk == s.disk {
        assert Restart(s, t);
      } else {
        assert View(disk) == disk.durable by { CleanDisk(disk); }
        assert PowerLoss(s, t);
      }
    }
    HistoryGrows(prior, t);
    var handle := new Storage.At(disk, sb, prior);
    r := Ok(handle);
  }

  lemma CleanDisk(d: Disk)
    requires d.pending == []
    ensures View(d) == d.durable
  {
  }

  lemma CandidateFits(f: File, slot: nat)
    ensures Candidate(f, slot).Some? ==>
      Candidate(f, slot).value.generation < U64 && 3 <= Candidate(f, slot).value.root < |f|
  {
    Widths();
  }

  /** Whatever the handle has done, power may be lost now: opening what is left loads
      the catalog of its last successful flush or of one it attempted later, with its chains. */
  lemma HandleSurvivesCrash(s: Storage, image: File)
    requires s.Valid() && CrashImage(s.file.disk, image)
    requires forall i | 0 <= i < |s.history| :: s.history[i].numPages + 1 < U32
    ensures Open(image).Some?
    ensures exists k :: s.lastOk <= k < |s.log| && Recovers(image, Open(image).value.root, s.log[k])
  {
    hide Step, Init, Open, Recovers, Written, CrashImage;
    assert CommitSafety.Run(s.history);
    CommitSafety.EveryCrashRecovers(s.history, image);
  }
}
