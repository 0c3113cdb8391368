/** The commit protocol as a state machine: what is on stable media, what is
    written but not yet synced, and what the writer's handle believes. A step is
    one I/O operation, one failure, one crash or one reopen. */
module CommitProtocol {
  import opened Bytes
  import opened PageFormat
  import opened PageChain
  import opened CatalogCodec

  datatype Write = Write(id: nat, page: Option<Page>)

  /** Stable media, and the writes since the last completed sync in order. */
  datatype Disk = Disk(durable: File, pending: seq<Write>)

  function Put(f: File, w: Write): File {
    if w.id < |f| then f[w.id := w.page] else if w.id == |f| then f + [w.page] else f
  }

  function Written(f: File, ws: seq<Write>): File {
    if |ws| == 0 then f else Put(Written(f, ws[..|ws| - 1]), ws[|ws| - 1])
  }

  /** The file as any process sees it. */
  function View(d: Disk): File { Written(d.durable, d.pending) }

  function Add(d: Disk, w: Write): Disk { Disk(d.durable, d.pending + [w]) }

  predicate IsSlot(id: nat) { id == SUPERBLOCK_A || id == SUPERBLOCK_B }

  function SlotOf(generation: nat): nat {
    if generation % 2 == 0 then SUPERBLOCK_B else SUPERBLOCK_A
  }

  ghost predicate Dirty(d: Disk, id: nat) {
    exists w :: w in d.pending && w.id == id
  }

  /** A content page `id` has had since it was last known to be durable. */
  ghost predicate IsVersion(d: Disk, id: nat, page: Option<Page>) {
    (id < |d.durable| && d.durable[id] == page) || Write(id, page) in d.pending
  }

  function ReadSlot(slot: nat, page: Option<Page>): Option<Superblock> {
    match page case None => None case Some(p) => SuperblockOf(slot, p)
  }

  /** What stable media may hold after power is lost: untouched pages as they were;
      a commit record in any version it had, or torn so that it does not decode;
      any other page written since the last sync holds anything; and the file has
      any length it had since. */
  ghost predicate CrashImage(d: Disk, image: File) {
    |d.durable| <= |image| <= |View(d)| &&
    forall id {:trigger image[id]} | 0 <= id < |image| :: CrashPage(d, id, image[id])
  }

  ghost predicate CrashPage(d: Disk, id: nat, page: Option<Page>) {
    if !Dirty(d, id) then id < |d.durable| && page == d.durable[id]
    else IsSlot(id) ==> IsVersion(d, id, page) || ReadSlot(id, page) == None
  }

  // Opening

  function FileHeader(): Page {
    Page(1, 0, 0, Pad(LE(0x4D51_4442, 4) + LE(8, 4) + LE(PAGE_SIZE, 4) + LE(1, 4) + LE(1, 4)))
  }

  function Candidate(f: File, slot: nat): Option<Superblock> {
    if slot >= |f| || f[slot].None? then None else DecodeSuperblock(slot, f[slot].value, |f|)
  }

  /** `max_by_key` on the candidates of the two slots, in that order. */
  function Newest(a: Option<Superblock>, b: Option<Superblock>): Option<Superblock> {
    if a.None? then b
    else if b.None? then a
    else if a.value.generation > b.value.generation then a else b
  }

  /** `open`/`open_read_only` of a version-8 file: the selected superblock, or an error. */
  function Open(f: File): Option<Superblock> {
    if |f| == 0 || |f| >= U32 || f[0] != Some(FileHeader()) then None
    else Newest(Candidate(f, SUPERBLOCK_A), Candidate(f, SUPERBLOCK_B))
  }

  /** `load_catalog` from the root a superblock names. */
  function LoadCatalog(f: File, root: nat): Result<Catalog> {
    if root == 0 || root >= |f| then Err
    else
      match Follow(f, PAGE_TYPE_CATALOG, PAGE_TYPE_CATALOG, root, {})
      case Err => Err
      case Ok(bodies) => Decode(Concat(bodies))
  }

  ghost predicate CatalogAt(f: File, root: nat, c: Catalog) {
    ChainAt(f, PAGE_TYPE_CATALOG, PAGE_TYPE_CATALOG, root, BlobChunks(Encode(c)))
  }

  lemma LoadsWhatWasAppended(f: File, root: nat, c: Catalog)
    requires root > 0 && Fits(c) && CatalogAt(f, root, c)
    ensures LoadCatalog(f, root) == Ok(c)
  {
    FollowChain(f, PAGE_TYPE_CATALOG, PAGE_TYPE_CATALOG, root, BlobChunks(Encode(c)));
    BlobReadsBack(Encode(c));
    var n: nat :| Concat(Padded(BlobChunks(Encode(c)))) == Encode(c) + Zeros(n);
    CatalogRoundTrip(c, Zeros(n));
  }

  // The system

  /** A flush that got as far as writing its commit record: its catalog, and the
      chains of documents and rows its entries point to. */
  datatype Attempt = Attempt(catalog: Catalog, chains: set<Chain>, sb: Superblock)

  /** Opened at `root`, the file gives what the flush published. */
  ghost predicate Recovers(f: File, root: nat, a: Attempt) {
    LoadCatalog(f, root) == Ok(a.catalog) && HoldsAll(f, a.chains)
  }

  /** `log` lists all attempts, `lastOk` the last one whose flush returned Ok;
      `inFlight` is the attempt whose commit record is written but not yet synced. */
  datatype Sys = Sys(
    disk: Disk, numPages: nat, generation: nat, root: nat,
    inFlight: Option<nat>, log: seq<Attempt>, lastOk: nat)

  /** The state in which `Storage::create` returns. */
  ghost predicate Init(s: Sys) {
    var sb := Superblock(1, 3, s.numPages);
    s.disk.pending == [] && s.numPages == |s.disk.durable| && 4 <= s.numPages &&
    s.disk.durable[0] == Some(FileHeader()) &&
    s.disk.durable[SUPERBLOCK_A] == Some(SuperblockPage(SUPERBLOCK_A, sb)) &&
    s.disk.durable[SUPERBLOCK_B] == Some(Page(PAGE_TYPE_SUPERBLOCK, SUPERBLOCK_B, 0, Pad([]))) &&
    CatalogAt(s.disk.durable, 3, EMPTY_CATALOG) && SuperblockFits(sb) &&
    s.generation == 1 && s.root == 3 && s.inFlight == None &&
    s.log == [Attempt(EMPTY_CATALOG, {}, sb)] && s.lastOk == 0
  }

  /** `append_page` succeeds: a new page of any kind at the logical end. */
  ghost predicate AppendOk(s: Sys, t: Sys) {
    s.inFlight == None && s.numPages + 1 < U32 &&
    exists page: Page ::
      t == s.(disk := Add(s.disk, Write(s.numPages, Some(page))), numPages := s.numPages + 1)
  }

  /** `append_page` fails, before or after something reached the file. */
  ghost predicate AppendFailed(s: Sys, t: Sys) {
    s.inFlight == None &&
    (t == s || exists page: Option<Page> :: t == s.(disk := Add(s.disk, Write(s.numPages, page))))
  }

  /** `sync_all` succeeds outside a commit. A failed one tells nothing: stay put. */
  ghost predicate SyncOk(s: Sys, t: Sys) {
    s.inFlight == None && t == s.(disk := Disk(View(s.disk), []))
  }

  /** The attempt `flush_catalog` makes once its catalog pages are synced. */
  ghost predicate Prepared(s: Sys, a: Attempt) {
    s.inFlight == None && s.disk.pending == [] && s.generation + 1 < U64 && s.numPages < U32 &&
    a.sb.generation == s.generation + 1 && a.sb.committed == s.numPages && 3 <= a.sb.root &&
    Fits(a.catalog) && CatalogAt(s.disk.durable, a.sb.root, a.catalog) &&
    a.sb.root + |BlobChunks(Encode(a.catalog))| <= s.numPages && Within(s.disk.durable, s.numPages, a.chains)
  }

  /** The commit record is written. */
  ghost predicate Publish(s: Sys, t: Sys) {
    exists a: Attempt :: Prepared(s, a) &&
      t == s.(disk := Add(s.disk, Write(SlotOf(a.sb.generation), Some(SuperblockPage(SlotOf(a.sb.generation), a.sb)))),
              inFlight := Some(|s.log|), log := s.log + [a])
  }

  /** Writing the commit record fails, with the slot as it was, as it should be, or torn. */
  ghost predicate PublishFailed(s: Sys, t: Sys) {
    exists a: Attempt, page: Option<Page> :: PublishFailedBy(s, t, a, page)
  }

  ghost predicate PublishFailedBy(s: Sys, t: Sys, a: Attempt, page: Option<Page>) {
    Prepared(s, a) &&
    (page == Some(SuperblockPage(SlotOf(a.sb.generation), a.sb)) || ReadSlot(SlotOf(a.sb.generation), page) == None) &&
    (t == s || t == s.(disk := Add(s.disk, Write(SlotOf(a.sb.generation), page)), log := s.log + [a]))
  }

  /** The second sync succeeds: the flush returns Ok. */
  ghost predicate Commit(s: Sys, t: Sys) {
    s.inFlight.Some? && s.inFlight.value < |s.log| &&
    var sb := s.log[s.inFlight.value].sb;
    t == s.(disk := Disk(View(s.disk), []), generation := sb.generation, root := sb.root,
            inFlight := None, lastOk := s.inFlight.value)
  }

  /** The second sync fails: the flush returns an error. */
  ghost predicate CommitFailed(s: Sys, t: Sys) {
    s.inFlight.Some? && t == s.(inFlight := None)
  }

  /** The writing process ends anywhere and another opens the file as it stands. */
  ghost predicate Restart(s: Sys, t: Sys) {
    Open(View(s.disk)).Some? &&
    var sb := Open(View(s.disk)).value;
    t == s.(numPages := |View(s.disk)|, generation := sb.generation, root := sb.root, inFlight := None)
  }

  /** Power is lost anywhere; a writer opens what is left. */
  ghost predicate PowerLoss(s: Sys, t: Sys) {
    CrashImage(s.disk, t.disk.durable) && Open(t.disk.durable).Some? &&
    var sb := Open(t.disk.durable).value;
    t == s.(disk := Disk(t.disk.durable, []), numPages := |t.disk.durable|,
            generation := sb.generation, root := sb.root, inFlight := None)
  }

  ghost predicate Step(s: Sys, t: Sys) {
    AppendOk(s, t) || AppendFailed(s, t) || SyncOk(s, t) || Publish(s, t) || PublishFailed(s, t) ||
    Commit(s, t) || CommitFailed(s, t) || Restart(s, t) || PowerLoss(s, t)
  }

  // The invariant

  /** `sb` names a whole catalog and all it points to on stable media, that of an attempt from index `lo` on. */
  ghost predicate Backed(durable: File, log: seq<Attempt>, lo: nat, sb: Superblock) {
    exists k :: lo <= k < |log| && Names(durable, log[k], sb)
  }

  ghost predicate Names(durable: File, a: Attempt, sb: Superblock) {
    a.sb == sb && Fits(a.catalog) && CatalogAt(durable, sb.root, a.catalog) &&
    3 <= sb.root && sb.root + |BlobChunks(Encode(a.catalog))| <= sb.committed &&
    Within(durable, sb.committed, a.chains)
  }

  /** All that `sb` may reach lies on stable media, below the logical end and out of the way of pending writes. */
  ghost predicate Sheltered(s: Sys, sb: Superblock) {
    sb.committed <= |s.disk.durable| && sb.committed <= s.numPages &&
    (forall w | w in s.disk.pending :: IsSlot(w.id) || w.id >= sb.committed) &&
    Backed(s.disk.durable, s.log, 0, sb)
  }

  ghost predicate SlotsSheltered(s: Sys) {
    forall slot, page | IsSlot(slot) && IsVersion(s.disk, slot, page) && ReadSlot(slot, page).Some? ::
      Sheltered(s, ReadSlot(slot, page).value)
  }

  /** Every version of `slot` is no superblock, an older one than `g`, or generation `h` from index `lastOk` on. */
  ghost predicate VersionsWithin(s: Sys, slot: nat, g: nat, h: nat) {
    forall page | IsVersion(s.disk, slot, page) && ReadSlot(slot, page).Some? ::
      var sb := ReadSlot(slot, page).value;
      sb.generation < g || (sb.generation == h && Backed(s.disk.durable, s.log, s.lastOk, sb))
  }

  /** The superblock the handle was opened with or last committed, on stable media. */
  ghost predicate Settled(s: Sys) {
    var home, other := SlotOf(s.generation), SlotOf(s.generation + 1);
    !Dirty(s.disk, home) && VersionsWithin(s, other, s.generation, s.generation + 1)
  }

  /** The handle was opened on a superblock that is itself still unsynced: the one before it is on stable media. */
  ghost predicate Unsettled(s: Sys) {
    var home, other := SlotOf(s.generation), SlotOf(s.generation + 1);
    s.inFlight == None && !Dirty(s.disk, other) &&
    other < |s.disk.durable| && ReadSlot(other, s.disk.durable[other]).Some? &&
    var prev := ReadSlot(other, s.disk.durable[other]).value;
    prev.generation + 1 == s.generation && Backed(s.disk.durable, s.log, s.lastOk, prev) &&
    VersionsWithin(s, home, s.generation - 1, s.generation)
  }

  ghost predicate Shape(s: Sys) {
    3 <= |s.disk.durable| && s.disk.durable[0] == Some(FileHeader()) && !Dirty(s.disk, 0) &&
    s.numPages <= |View(s.disk)| <= s.numPages + 1 && 3 <= s.numPages && s.lastOk < |s.log|
  }

  /** The page in the home slot is the handle's superblock. */
  ghost predicate AtHome(s: Sys) {
    var home := SlotOf(s.generation);
    home < |View(s.disk)| && ReadSlot(home, View(s.disk)[home]).Some? &&
    var sb := ReadSlot(home, View(s.disk)[home]).value;
    sb.generation == s.generation && sb.root == s.root && Backed(s.disk.durable, s.log, s.lastOk, sb)
  }

  ghost predicate InFlightOk(s: Sys) {
    s.inFlight.Some? ==>
      var slot := SlotOf(s.generation + 1);
      s.lastOk <= s.inFlight.value < |s.log| && Settled(s) && slot < |View(s.disk)| &&
      var a := s.log[s.inFlight.value];
      ReadSlot(slot, View(s.disk)[slot]) == Some(a.sb) && a.sb.generation == s.generation + 1 &&
      Names(s.disk.durable, a, a.sb)
  }

  ghost predicate Inv(s: Sys) {
    Shape(s) && SlotsSheltered(s) && AtHome(s) && InFlightOk(s) && (Settled(s) || Unsettled(s))
  }

  // Facts about the disk

  lemma ViewAdd(d: Disk, w: Write)
    ensures View(Add(d, w)) == Put(View(d), w)
  {
    assert (d.pending + [w])[..|d.pending|] == d.pending;
  }

  lemma {:induction false} ViewLength(d: Disk)
    ensures |d.durable| <= |View(d)|
    decreases |d.pending|
  {
    if |d.pending| > 0 {
      ViewLength(Disk(d.durable, d.pending[..|d.pending| - 1]));
    }
  }

  lemma {:induction false} ViewOfVersion(d: Disk, id: nat)
    requires id < |View(d)|
    ensures IsVersion(d, id, View(d)[id])
    decreases |d.pending|
  {
    if |d.pending| > 0 {
      var n := |d.pending| - 1;
      var e := Disk(d.durable, d.pending[..n]);
      var w := d.pending[n];
      assert w in d.pending;
      if w.id != id || id >= |View(d)| {
        assert id < |View(e)| && View(d)[id] == View(e)[id];
        ViewOfVersion(e, id);
      }
    }
  }

  lemma {:induction false} ViewOfClean(d: Disk, id: nat)
    requires id < |d.durable| && !Dirty(d, id)
    ensures id < |View(d)| && View(d)[id] == d.durable[id]
    decreases |d.pending|
  {
    ViewLength(d);
    if |d.pending| > 0 {
      var n := |d.pending| - 1;
      assert d.pending[n] in d.pending;
      var e := Disk(d.durable, d.pending[..n]);
      assert forall w | w in e.pending :: w in d.pending;
      ViewOfClean(e, id);
    }
  }

  lemma ViewOfSlot(s: Sys, slot: nat)
    requires Shape(s) && IsSlot(slot)
    ensures slot < |View(s.disk)| && slot < |s.disk.durable|
    ensures IsVersion(s.disk, slot, View(s.disk)[slot])
  {
    ViewLength(s.disk);
    ViewOfVersion(s.disk, slot);
  }

  lemma BackedKept(d: File, e: File, log: seq<Attempt>, more: seq<Attempt>, lo: nat, sb: Superblock)
    requires Backed(d, log, lo, sb) && log <= more
    requires sb.committed <= |e| && sb.committed <= |d|
    requires forall i | 3 <= i < sb.committed :: e[i] == d[i]
    ensures Backed(e, more, lo, sb)
  {
    hide Fits, Encode, BlobChunks, Within;
    var k :| lo <= k < |log| && Names(d, log[k], sb);
    ChainKept(d, e, PAGE_TYPE_CATALOG, PAGE_TYPE_CATALOG, sb.root, BlobChunks(Encode(log[k].catalog)));
    WithinKept(d, e, sb.committed, log[k].chains);
    assert Names(e, more[k], sb);
  }

  lemma ShelteredIsClean(s: Sys, sb: Superblock, i: nat)
    requires Sheltered(s, sb) && 3 <= i < sb.committed
    ensures !Dirty(s.disk, i) && i < |View(s.disk)| && View(s.disk)[i] == s.disk.durable[i]
  {
    ViewOfClean(s.disk, i);
  }

  lemma PreparedFits(s: Sys, a: Attempt)
    requires Prepared(s, a)
    ensures SuperblockFits(a.sb) && Names(s.disk.durable, a, a.sb)
    ensures ReadSlot(SlotOf(a.sb.generation), Some(SuperblockPage(SlotOf(a.sb.generation), a.sb))) == Some(a.sb)
  {
    SuperblockRoundTrip(SlotOf(a.sb.generation), a.sb);
  }
}
