/** A reader without a lock, interleaved step by step with the writer: it reads
    the file's length, then the two commit records, then a catalog chain, each at
    its own moment of the writer's run. */
module SnapshotReader {
  import opened Bytes
  import opened PageFormat
  import opened PageChain
  import opened CatalogCodec
  import opened CommitProtocol
  import opened CommitSafety

  /** The writer does anything but lose power, which would end the reader too. */
  ghost predicate LiveStep(s: Sys, t: Sys) {
    AppendOk(s, t) || AppendFailed(s, t) || SyncOk(s, t) || Publish(s, t) || PublishFailed(s, t) ||
    Commit(s, t) || CommitFailed(s, t) || Restart(s, t)
  }

  ghost predicate LiveRun(run: seq<Sys>) {
    |run| > 0 && Inv(run[0]) &&
    (forall i | 0 <= i < |run| :: run[i].numPages + 1 < U32) &&
    forall i | 0 <= i < |run| - 1 :: LiveStep(run[i], run[i + 1])
  }

  /** What later states owe to earlier ones. */
  ghost predicate Grown(s: Sys, t: Sys) {
    s.numPages <= t.numPages && |View(s.disk)| <= |View(t.disk)| && s.log <= t.log && s.lastOk <= t.lastOk &&
    s.numPages <= |View(s.disk)| &&
    forall id | 3 <= id < s.numPages :: View(t.disk)[id] == View(s.disk)[id]
  }

  ghost predicate SameSlotPages(s: Sys, t: Sys) {
    2 < |View(s.disk)| && 2 < |View(t.disk)| &&
    View(t.disk)[SUPERBLOCK_A] == View(s.disk)[SUPERBLOCK_A] && View(t.disk)[SUPERBLOCK_B] == View(s.disk)[SUPERBLOCK_B]
  }

  lemma AddedGrows(s: Sys, t: Sys, w: Write)
    requires Inv(s) && t.disk == Add(s.disk, w) && (w.id == s.numPages || IsSlot(w.id))
    requires s.numPages <= t.numPages && s.log <= t.log && s.lastOk == t.lastOk
    ensures Grown(s, t) && (w.id >= 3 ==> SameSlotPages(s, t))
  {
    hide Written, View, SlotsSheltered, AtHome, InFlightOk, Settled, Unsettled;
    ViewAdd(s.disk, w);
  }

  lemma LiveStepGrows(s: Sys, t: Sys)
    requires Inv(s) && LiveStep(s, t)
    ensures Grown(s, t)
    ensures SameSlotPages(s, t) || HomeKept(s, t)
  {
    hide View, Add, SlotsSheltered, AtHome, Settled, Unsettled, Prepared, Open, Grown, SameSlotPages, HomeKept, Publish, PublishFailed;
    CleanView(Disk(View(s.disk), []));
    if AppendOk(s, t) {
      var page: Page :|
        t == s.(disk := Add(s.disk, Write(s.numPages, Some(page))), numPages := s.numPages + 1);
      AddedGrows(s, t, Write(s.numPages, Some(page)));
    } else if AppendFailed(s, t) {
      if t != s {
        var page: Option<Page> :| t == s.(disk := Add(s.disk, Write(s.numPages, page)));
        AddedGrows(s, t, Write(s.numPages, page));
      } else {
        SameViewGrows(s, t);
      }
    } else if Publish(s, t) || PublishFailed(s, t) {
      RecordGrows(s, t);
      if t == s {
        SameViewGrows(s, t);
      }
    } else {
      SameViewGrows(s, t);
    }
  }

  lemma SameViewGrows(s: Sys, t: Sys)
    requires Inv(s) && View(t.disk) == View(s.disk)
    requires s.numPages <= t.numPages && s.log <= t.log && s.lastOk <= t.lastOk
    ensures Grown(s, t) && SameSlotPages(s, t)
  {
    hide View, SlotsSheltered, AtHome, InFlightOk, Settled, Unsettled;
    ViewLength(s.disk);
  }

  ghost predicate HomeKept(s: Sys, t: Sys) {
    Settled(s) && Settled(t) && t.generation == s.generation && t.lastOk == s.lastOk &&
    2 < |View(s.disk)| && 2 < |View(t.disk)| &&
    View(t.disk)[SlotOf(s.generation)] == View(s.disk)[SlotOf(s.generation)]
  }

  lemma WrittenRecordGrows(s: Sys, t: Sys, a: Attempt, page: Option<Page>)
    requires Inv(s) && WritesRecord(s, t, a, page)
    ensures Grown(s, t) && HomeKept(s, t)
  {
    hide View, Add, SlotsSheltered, AtHome, InFlightOk, Settled, Unsettled, ReadSlot, Prepared, Grown, Shape, SameSlotPages;
    var other := SlotOf(s.generation + 1);
    CleanIsSettled(s) by { assert s.disk.pending == [] by { PreparedIsClean(s, a); } }
    RecordLeavesSettled(s, t, a, page);
    AddedGrows(s, t, Write(other, page));
    RecordInView(s, t, a, page);
  }

  lemma PreparedIsClean(s: Sys, a: Attempt)
    requires Prepared(s, a)
    ensures s.disk.pending == []
  {
  }

  lemma RecordGrows(s: Sys, t: Sys)
    requires Inv(s) && (Publish(s, t) || PublishFailed(s, t))
    ensures Grown(s, t) && (t == s || HomeKept(s, t))
  {
    hide Inv, Prepared, Grown, HomeKept, ReadSlot;
    if Publish(s, t) {
      var a: Attempt :| Prepared(s, a) &&
        t == s.(disk := Add(s.disk, Write(SlotOf(a.sb.generation), Some(SuperblockPage(SlotOf(a.sb.generation), a.sb)))),
                inFlight := Some(|s.log|), log := s.log + [a]);
      PreparedFits(s, a);
      PreparedNext(s, a);
      WrittenRecordGrows(s, t, a, Some(SuperblockPage(SlotOf(a.sb.generation), a.sb)));
    } else if t != s {
      var a: Attempt, page: Option<Page> :| PublishFailedBy(s, t, a, page);
      PreparedFits(s, a);
      PreparedNext(s, a);
      WrittenRecordGrows(s, t, a, page);
    } else {
      GrownSelf(s);
    }
  }

  lemma {:induction false} LiveKeepsInv(run: seq<Sys>, i: nat)
    requires LiveRun(run) && i < |run|
    ensures Inv(run[i])
  {
    hide Inv, LiveStep, Step;
    if i > 0 {
      LiveKeepsInv(run, i - 1);
      assert LiveStep(run[i - 1], run[i]);
      assert Step(run[i - 1], run[i]) by { LiveIsStep(run[i - 1], run[i]); }
      StepKeeps(run[i - 1], run[i]);
    }
  }

  lemma LiveIsStep(s: Sys, t: Sys)
    requires LiveStep(s, t)
    ensures Step(s, t)
  {
    hide AppendOk, AppendFailed, SyncOk, Publish, PublishFailed, Commit, CommitFailed, Restart, PowerLoss;
  }

  lemma GrownTransitive(s: Sys, t: Sys, u: Sys)
    requires Grown(s, t) && Grown(t, u)
    ensures Grown(s, u)
  {
    hide Written, View;
  }

  lemma {:induction false} RunGrows(run: seq<Sys>, i: nat, j: nat)
    requires LiveRun(run) && i <= j < |run|
    ensures Grown(run[i], run[j])
    decreases j - i
  {
    hide Inv, LiveStep, Written, View, Grown;
    LiveKeepsInv(run, i);
    if i < j {
      LiveKeepsInv(run, j - 1);
      RunGrows(run, i, j - 1);
      assert LiveStep(run[j - 1], run[j]);
      LiveStepGrows(run[j - 1], run[j]);
      GrownTransitive(run[i], run[j - 1], run[j]);
    } else {
      GrownSelf(run[i]);
    }
  }

  lemma GrownSelf(s: Sys)
    requires Inv(s)
    ensures Grown(s, s)
  {
    hide SlotsSheltered, AtHome, InFlightOk, Settled, Unsettled, Written, View;
  }

  // The reader

  /** What the reader gets for a commit record at moment `t`: its page, or, if the
      page is being overwritten just then, possibly a torn one. */
  ghost predicate SeesSlot(run: seq<Sys>, t: nat, slot: nat, page: Option<Page>)
    requires t < |run|
  {
    slot < |View(run[t].disk)| &&
    (page == View(run[t].disk)[slot] ||
     (t + 1 < |run| && slot < |View(run[t + 1].disk)| &&
      View(run[t + 1].disk)[slot] != View(run[t].disk)[slot] && ReadSlot(slot, page) == None))
  }

  function SeenCandidate(slot: nat, page: Option<Page>, physicalPages: nat): Option<Superblock> {
    if page.None? then None else DecodeSuperblock(slot, page.value, physicalPages)
  }

  /** The length read at `t0`, slot A at `t1`, slot B at `t2`, and `f` for the pages read after that. */
  datatype Reading = Reading(t0: nat, t1: nat, t2: nat, a: Option<Page>, b: Option<Page>, f: File)

  ghost predicate IsReading(run: seq<Sys>, r: Reading) {
    r.t0 <= r.t1 <= r.t2 < |run| && |r.f| == |View(run[r.t0].disk)| &&
    SeesSlot(run, r.t1, SUPERBLOCK_A, r.a) && SeesSlot(run, r.t2, SUPERBLOCK_B, r.b) &&
    forall id {:trigger r.f[id]} | 0 <= id < |r.f| :: SeenLater(run, r.t2, id, r.f[id])
  }

  ghost predicate SeenLater(run: seq<Sys>, from: nat, id: nat, page: Option<Page>) {
    exists t :: from <= t < |run| && id < |View(run[t].disk)| && View(run[t].disk)[id] == page
  }

  /** `open_read_only`, with each page as it was seen. */
  function Opened(r: Reading): Option<Superblock> {
    if |r.f| == 0 || |r.f| >= U32 || r.f[0] != Some(FileHeader()) then None
    else Newest(SeenCandidate(SUPERBLOCK_A, r.a, |r.f|), SeenCandidate(SUPERBLOCK_B, r.b, |r.f|))
  }

  /** Pages below the logical end at moment `i` read the same ever after. */
  lemma BackedForReader(run: seq<Sys>, r: Reading, i: nat, lo: nat, sb: Superblock)
    requires LiveRun(run) && IsReading(run, r) && i <= r.t2
    requires Sheltered(run[i], sb) && Backed(run[i].disk.durable, run[i].log, lo, sb) && sb.committed <= |r.f|
    ensures exists k :: lo <= k < |run[r.t2].log| && Recovers(r.f, sb.root, run[r.t2].log[k])
  {
    hide Inv, LiveStep, Written, View, ReadSlot, CatalogAt, Fits, Recovers, SeesSlot;
    forall id: nat | 3 <= id < sb.committed ensures r.f[id] == run[i].disk.durable[id] {
      ShelteredIsClean(run[i], sb, id);
      assert SeenLater(run, r.t2, id, r.f[id]);
      var t :| r.t2 <= t < |run| && id < |View(run[t].disk)| && View(run[t].disk)[id] == r.f[id];
      RunGrows(run, i, t);
    }
    RunGrows(run, i, r.t2);
    BackedKept(run[i].disk.durable, r.f, run[i].log, run[r.t2].log, lo, sb);
    BackedLoads(r.f, run[r.t2].log, lo, sb);
  }

  lemma SeenIsSheltered(run: seq<Sys>, t: nat, slot: nat, page: Option<Page>)
    requires LiveRun(run) && t < |run| && IsSlot(slot) && SeesSlot(run, t, slot, page) && ReadSlot(slot, page).Some?
    ensures Sheltered(run[t], ReadSlot(slot, page).value) && IsVersion(run[t].disk, slot, page)
  {
    hide LiveStep, Written, View, ReadSlot, Backed, AtHome, InFlightOk, Settled, Unsettled;
    LiveKeepsInv(run, t);
    ViewOfSlot(run[t], slot);
  }

  /** Whatever the interleaving: a catalog a reader loads was written whole by one flush. */
  lemma ReaderSeesWholeCatalogs(run: seq<Sys>, r: Reading)
    requires LiveRun(run) && IsReading(run, r) && Opened(r).Some?
    ensures exists k :: 0 <= k < |run[r.t2].log| && Recovers(r.f, Opened(r).value.root, run[r.t2].log[k])
  {
    hide LiveStep, Inv, LiveRun, Written, View, SuperblockOf, Recovers, SeesSlot;
    var sb := Opened(r).value;
    if SeenCandidate(SUPERBLOCK_A, r.a, |r.f|) == Some(sb) {
      SeenIsSheltered(run, r.t1, SUPERBLOCK_A, r.a);
      BackedForReader(run, r, r.t1, 0, sb);
    } else {
      SeenIsSheltered(run, r.t2, SUPERBLOCK_B, r.b);
      BackedForReader(run, r, r.t2, 0, sb);
    }
  }

  /** No commit record is written while the reader reads the length and the slots, except in step `c`. */
  ghost predicate OnlyStepWrites(run: seq<Sys>, r: Reading, c: nat)
    requires IsReading(run, r)
  {
    r.t0 <= c <= r.t2 &&
    forall i | r.t0 <= i <= r.t2 && i + 1 < |run| && i != c :: SameSlotPages(run[i], run[i + 1])
  }

  lemma {:induction false} SlotsStay(run: seq<Sys>, i: nat, j: nat)
    requires LiveRun(run) && i <= j < |run|
    requires forall k | i <= k < j :: SameSlotPages(run[k], run[k + 1])
    ensures SameSlotPages(run[i], run[j])
    decreases j - i
  {
    hide LiveStep, Written, View, SlotsSheltered, AtHome, InFlightOk, Settled, Unsettled;
    if i < j {
      SlotsStay(run, i, j - 1);
    } else {
      LiveKeepsInv(run, i);
      ViewOfSlot(run[i], SUPERBLOCK_A);
    }
  }

  /** The handle's home page at step `c` is what both ends of the window hold. */
  lemma HomeStays(run: seq<Sys>, r: Reading, c: nat, t: nat)
    requires LiveRun(run) && IsReading(run, r) && OnlyStepWrites(run, r, c) && r.t0 <= t <= r.t2
    ensures 2 < |View(run[t].disk)| && 2 < |View(run[c].disk)|
    ensures View(run[t].disk)[SlotOf(run[c].generation)] == View(run[c].disk)[SlotOf(run[c].generation)]
    ensures t <= c ==> SameSlotPages(run[t], run[c])
    ensures t > c ==> SameSlotPages(run[c + 1], run[t])
  {
    hide LiveStep, Inv, Written, View, SeesSlot;
    if t <= c {
      SlotsStay(run, t, c);
    } else {
      LiveKeepsInv(run, c);
      assert LiveStep(run[c], run[c + 1]);
      LiveStepGrows(run[c], run[c + 1]);
      SlotsStay(run, c + 1, t);
    }
  }

  /** The page beside home is no superblock, an older one, or the next one. */
  lemma BesideHome(s: Sys)
    requires Inv(s)
    ensures var other := SlotOf(s.generation + 1);
      other < |View(s.disk)| &&
      (ReadSlot(other, View(s.disk)[other]).Some? ==>
        var sb := ReadSlot(other, View(s.disk)[other]).value;
        Sheltered(s, sb) &&
        (sb.generation < s.generation || (sb.generation == s.generation + 1 && Backed(s.disk.durable, s.log, s.lastOk, sb))))
  {
    hide View, ReadSlot, Backed, AtHome, InFlightOk, Shape, IsVersion, Dirty, Sheltered;
    var other := SlotOf(s.generation + 1);
    ViewOfSlot(s, other);
    if !Settled(s) {
      ViewOfClean(s.disk, other);
    }
  }

  /** Home is readable at every moment of the window, with what it held at step `c`. */
  lemma HomeIsSeen(run: seq<Sys>, r: Reading, c: nat, t: nat, page: Option<Page>) returns (cur: Superblock)
    requires LiveRun(run) && IsReading(run, r) && OnlyStepWrites(run, r, c) && r.t0 <= t <= r.t2
    requires SeesSlot(run, t, SlotOf(run[c].generation), page)
    ensures ReadSlot(SlotOf(run[c].generation), page) == Some(cur)
    ensures cur.generation == run[c].generation && cur.committed <= |r.f|
    ensures Sheltered(run[c], cur) && Backed(run[c].disk.durable, run[c].log, run[c].lastOk, cur)
  {
    hide LiveStep, Written, View, ReadSlot, Backed, InFlightOk, Settled, Unsettled, SlotsSheltered, Shape, Grown;
    var home := SlotOf(run[c].generation);
    LiveKeepsInv(run, c);
    LiveKeepsInv(run, r.t0);
    HomeStays(run, r, c, t);
    HomeStays(run, r, c, r.t0);
    if t == c && c + 1 < |run| {
      assert LiveStep(run[c], run[c + 1]);
      LiveStepGrows(run[c], run[c + 1]);
    }
    cur := ReadSlot(home, View(run[c].disk)[home]).value;
    HomeIsSheltered(run[c], home);
    HomeIsSheltered(run[r.t0], home);
  }

  lemma HomeIsSheltered(s: Sys, slot: nat)
    requires Inv(s) && IsSlot(slot)
    ensures slot < |View(s.disk)| && (ReadSlot(slot, View(s.disk)[slot]).Some? ==>
      Sheltered(s, ReadSlot(slot, View(s.disk)[slot]).value) &&
      ReadSlot(slot, View(s.disk)[slot]).value.committed <= |View(s.disk)|)
  {
    hide Written, View, ReadSlot, Backed, AtHome, InFlightOk, Settled, Unsettled;
    ViewOfSlot(s, slot);
    ViewLength(s.disk);
  }

  /** What may be seen beside home: nothing, an older superblock, or the next one with a backed catalog. */
  lemma OtherIsSeen(run: seq<Sys>, r: Reading, c: nat, t: nat, page: Option<Page>) returns (i: nat)
    requires LiveRun(run) && IsReading(run, r) && OnlyStepWrites(run, r, c) && r.t0 <= t <= r.t2
    requires SeesSlot(run, t, SlotOf(run[c].generation + 1), page)
    requires ReadSlot(SlotOf(run[c].generation + 1), page).Some?
    ensures i <= r.t2
    ensures var sb := ReadSlot(SlotOf(run[c].generation + 1), page).value;
      sb.generation < run[c].generation ||
      (sb.generation == run[c].generation + 1 && Sheltered(run[i], sb) &&
       Backed(run[i].disk.durable, run[i].log, run[c].lastOk, sb))
  {
    hide LiveStep, Inv, Written, View, ReadSlot, Backed, Settled, Grown;
    LiveKeepsInv(run, c);
    HomeStays(run, r, c, t);
    BesideHome(run[c]);
    i := c;
    if t > c {
      LiveKeepsInv(run, c + 1);
      assert LiveStep(run[c], run[c + 1]);
      LiveStepGrows(run[c], run[c + 1]);
      if !SameSlotPages(run[c], run[c + 1]) {
        BesideHome(run[c + 1]);
        i := c + 1;
      }
    }
  }

  /** No step writes the file header. */
  lemma HeaderIsSeen(run: seq<Sys>, r: Reading)
    requires LiveRun(run) && IsReading(run, r)
    ensures 0 < |r.f| < U32 && r.f[0] == Some(FileHeader())
  {
    hide LiveStep, Written, View, SlotsSheltered, AtHome, InFlightOk, Settled, Unsettled, SeesSlot, FileHeader;
    LiveKeepsInv(run, r.t0);
    ViewLength(run[r.t0].disk);
    assert SeenLater(run, r.t2, 0, r.f[0]);
    var t :| r.t2 <= t < |run| && 0 < |View(run[t].disk)| && View(run[t].disk)[0] == r.f[0];
    LiveKeepsInv(run, t);
    ViewOfClean(run[t].disk, 0);
  }

  /** Of two readable slots the newer one is opened, unless its pages are not all there. */
  lemma OpenedIs(r: Reading, g: nat, cur: Superblock, sb: Superblock)
    requires 0 < |r.f| < U32 && r.f[0] == Some(FileHeader())
    requires ReadSlot(SlotOf(g), if SlotOf(g) == SUPERBLOCK_A then r.a else r.b) == Some(cur)
    requires cur.generation == g && cur.committed <= |r.f|
    requires var next := ReadSlot(SlotOf(g + 1), if SlotOf(g) == SUPERBLOCK_A then r.b else r.a);
      (next.Some? ==> next.value.generation != g) &&
      sb == if next.Some? && next.value.generation > g && next.value.committed <= |r.f| then next.value else cur
    ensures Opened(r) == Some(sb)
  {
    hide SuperblockOf, FileHeader;
  }

  /** If at most one commit record is written meanwhile, a reader always finds a
      superblock, and its catalog is that of the last flush acknowledged before the
      reader began or of one attempted later. */
  lemma ReaderIsUpToDate(run: seq<Sys>, r: Reading, c: nat)
    requires LiveRun(run) && IsReading(run, r) && OnlyStepWrites(run, r, c)
    ensures Opened(r).Some?
    ensures exists k :: run[r.t0].lastOk <= k < |run[r.t2].log| && Recovers(r.f, Opened(r).value.root, run[r.t2].log[k])
  {
    hide LiveRun, Inv, View, ReadSlot, Backed, Sheltered, Recovers, SeesSlot, Opened;
    var sb, i := OpensBacked(run, r, c);
    LastOkGrows(run, r.t0, c);
    BackedForReader(run, r, i, run[c].lastOk, sb);
  }

  /** The superblock opened, and a moment at which it is sheltered. */
  lemma OpensBacked(run: seq<Sys>, r: Reading, c: nat) returns (sb: Superblock, i: nat)
    requires LiveRun(run) && IsReading(run, r) && OnlyStepWrites(run, r, c)
    ensures Opened(r) == Some(sb) && sb.committed <= |r.f|
    ensures i <= r.t2 && Sheltered(run[i], sb) && Backed(run[i].disk.durable, run[i].log, run[c].lastOk, sb)
  {
    hide LiveStep, LiveRun, Inv, View, ReadSlot, Backed, Sheltered, Recovers, Grown, SeesSlot, Opened;
    var home := SlotOf(run[c].generation);
    var (th, hp) := if home == SUPERBLOCK_A then (r.t1, r.a) else (r.t2, r.b);
    var (to, op) := if home == SUPERBLOCK_A then (r.t2, r.b) else (r.t1, r.a);
    var cur := HomeIsSeen(run, r, c, th, hp);
    sb, i := cur, c;
    if ReadSlot(SlotOf(run[c].generation + 1), op).Some? {
      var at := OtherIsSeen(run, r, c, to, op);
      var next := ReadSlot(SlotOf(run[c].generation + 1), op).value;
      if next.generation > cur.generation && next.committed <= |r.f| {
        sb, i := next, at;
      }
    }
    HeaderIsSeen(run, r);
    OpenedIs(r, run[c].generation, cur, sb);
  }

  lemma LastOkGrows(run: seq<Sys>, i: nat, j: nat)
    requires LiveRun(run) && i <= j < |run|
    ensures run[i].lastOk <= run[j].lastOk
  {
    hide LiveRun;
    RunGrows(run, i, j);
  }
}
