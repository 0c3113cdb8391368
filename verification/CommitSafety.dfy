/** Safety of the commit protocol over whole runs: what every step keeps, what a
    crash at any moment leaves readable, and which pages are never written again. */
module CommitSafety {
  import opened Bytes
  import opened PageFormat
  import opened PageChain
  import opened CatalogCodec
  import opened CommitProtocol

  lemma InitKeeps(s: Sys)
    requires Init(s)
    ensures Inv(s)
  {
    hide SuperblockOf, CatalogAt;
    var sb := Superblock(1, 3, s.numPages);
    SuperblockRoundTrip(SUPERBLOCK_A, sb);
    ReservedSlotIsNoSuperblock(SUPERBLOCK_B);
    assert Fits(EMPTY_CATALOG) by { Widths(); }
    assert Names(s.disk.durable, s.log[0], sb);
    assert ReadSlot(SUPERBLOCK_A, s.disk.durable[SUPERBLOCK_A]) == Some(sb);
    assert ReadSlot(SUPERBLOCK_B, s.disk.durable[SUPERBLOCK_B]) == None;
  }

  /** The versions of a slot do not change when another page is written. */
  lemma OtherPageWritten(d: Disk, w: Write, slot: nat)
    requires w.id != slot
    ensures forall page :: IsVersion(Add(d, w), slot, page) <==> IsVersion(d, slot, page)
    ensures Dirty(Add(d, w), slot) <==> Dirty(d, slot)
  {
    var e := Add(d, w);
    forall page ensures IsVersion(e, slot, page) <==> IsVersion(d, slot, page) {
      assert Write(slot, page) in e.pending <==> Write(slot, page) in d.pending;
    }
    assert forall x :: x in e.pending <==> x in d.pending || x == w;
  }

  lemma WrittenPageVersions(d: Disk, w: Write)
    requires w.id < |d.durable|
    ensures forall page :: IsVersion(Add(d, w), w.id, page) <==> IsVersion(d, w.id, page) || page == w.page
  {
    var e := Add(d, w);
    assert forall x :: x in e.pending <==> x in d.pending || x == w;
    forall page ensures IsVersion(e, w.id, page) <==> IsVersion(d, w.id, page) || page == w.page {
      assert Write(w.id, page) in e.pending <==> Write(w.id, page) in d.pending || page == w.page;
    }
  }

  /** Home page and commit-record versions are what they were. */
  ghost predicate SameSlots(s: Sys, t: Sys) {
    (forall slot, page | IsSlot(slot) :: IsVersion(t.disk, slot, page) <==> IsVersion(s.disk, slot, page)) &&
    (forall slot: nat | IsSlot(slot) :: Dirty(t.disk, slot) <==> Dirty(s.disk, slot)) &&
    (forall slot: nat | IsSlot(slot) ::
      slot < |View(s.disk)| && slot < |View(t.disk)| && View(t.disk)[slot] == View(s.disk)[slot]) &&
    t.disk.durable == s.disk.durable && t.log == s.log && t.lastOk == s.lastOk &&
    t.generation == s.generation && t.root == s.root && t.inFlight == s.inFlight
  }

  lemma SameSlotsKeep(s: Sys, t: Sys)
    requires Inv(s) && SameSlots(s, t) && Shape(t) && SlotsSheltered(t)
    ensures Inv(t)
  {
    hide ReadSlot, Backed, Names, IsVersion, Dirty, View, Shape, SlotsSheltered;
    if Settled(s) {
      assert Settled(t);
    } else {
      assert Unsettled(t);
    }
  }

  lemma AddPageKeeps(s: Sys, t: Sys, page: Option<Page>)
    requires Inv(s) && s.inFlight == None
    requires t == s.(disk := Add(s.disk, Write(s.numPages, page)), numPages := t.numPages)
    requires t.numPages == s.numPages || t.numPages == s.numPages + 1
    ensures Inv(t)
  {
    hide ReadSlot, AtHome, InFlightOk, Settled, Unsettled, IsVersion, Dirty, View, Add, SlotsSheltered;
    var w := Write(s.numPages, page);
    ViewAdd(s.disk, w);
    OtherPageWritten(s.disk, w, 0);
    OtherPageWritten(s.disk, w, SUPERBLOCK_A);
    OtherPageWritten(s.disk, w, SUPERBLOCK_B);
    AddPageShelters(s, t, w);
    assert t.disk.durable == s.disk.durable by { AddedDurable(s.disk, w); }
    SameSlotsKeep(s, t);
  }

  lemma AddedDurable(d: Disk, w: Write)
    ensures Add(d, w).durable == d.durable
    ensures forall x :: x in Add(d, w).pending <==> x in d.pending || x == w
  {
  }

  lemma AddPageShelters(s: Sys, t: Sys, w: Write)
    requires SlotsSheltered(s) && w.id == s.numPages >= 3
    requires t.disk == Add(s.disk, w) && t.numPages >= s.numPages && t.log == s.log
    ensures SlotsSheltered(t)
  {
    hide ReadSlot, Backed, IsVersion, Dirty, View, Add;
    AddedDurable(s.disk, w);
    OtherPageWritten(s.disk, w, SUPERBLOCK_A);
    OtherPageWritten(s.disk, w, SUPERBLOCK_B);
    forall slot, p | IsSlot(slot) && IsVersion(t.disk, slot, p) && ReadSlot(slot, p).Some?
      ensures Sheltered(t, ReadSlot(slot, p).value)
    {
      assert Sheltered(s, ReadSlot(slot, p).value);
    }
  }

  /** After a sync every page has the content it was seen to have. */
  lemma SyncedVersions(s: Sys, slot: nat, page: Option<Page>)
    requires Shape(s) && IsSlot(slot)
    requires IsVersion(Disk(View(s.disk), []), slot, page)
    ensures page == View(s.disk)[slot] && IsVersion(s.disk, slot, page)
  {
    ViewOfSlot(s, slot);
  }

  lemma BackedAfterSync(s: Sys, lo: nat, sb: Superblock)
    requires Sheltered(s, sb) && Backed(s.disk.durable, s.log, lo, sb)
    ensures Backed(View(s.disk), s.log, lo, sb)
  {
    ViewLength(s.disk);
    forall i | 3 <= i < sb.committed ensures View(s.disk)[i] == s.disk.durable[i] {
      ShelteredIsClean(s, sb, i);
    }
    BackedKept(s.disk.durable, View(s.disk), s.log, s.log, lo, sb);
  }

  lemma ShelteredAfterSync(s: Sys, t: Sys)
    requires Shape(s) && SlotsSheltered(s)
    requires t.disk == Disk(View(s.disk), []) && t.numPages == s.numPages && t.log == s.log
    ensures SlotsSheltered(t)
  {
    hide ReadSlot, Backed;
    forall slot, p | IsSlot(slot) && IsVersion(t.disk, slot, p) && ReadSlot(slot, p).Some?
      ensures Sheltered(t, ReadSlot(slot, p).value)
    {
      SyncedVersions(s, slot, p);
      var sb := ReadSlot(slot, p).value;
      BackedAfterSync(s, 0, sb);
      ViewLength(s.disk);
    }
  }

  lemma ShapeAfterSync(s: Sys, t: Sys)
    requires Shape(s) && t.disk == Disk(View(s.disk), []) && t.numPages == s.numPages
    requires t.lastOk < |t.log|
    ensures Shape(t)
  {
    ViewLength(s.disk);
    ViewOfClean(s.disk, 0);
  }

  /** With nothing unsynced the handle's superblock is on stable media. */
  lemma CleanIsSettled(s: Sys)
    requires Inv(s) && s.disk.pending == []
    ensures Settled(s)
  {
    hide ReadSlot, Backed;
  }

  lemma SyncedWithin(s: Sys, t: Sys)
    requires Inv(s) && SyncOk(s, t)
    ensures VersionsWithin(t, SlotOf(s.generation + 1), s.generation, s.generation + 1)
  {
    hide ReadSlot, Backed, IsVersion, Dirty, View, InFlightOk, AtHome, Shape;
    var other := SlotOf(s.generation + 1);
    forall p | IsVersion(t.disk, other, p) && ReadSlot(other, p).Some?
      ensures var sb := ReadSlot(other, p).value;
              sb.generation < s.generation || (sb.generation == s.generation + 1 && Backed(t.disk.durable, t.log, t.lastOk, sb))
    {
      SyncedVersions(s, other, p);
      var sb := ReadSlot(other, p).value;
      if Settled(s) {
        if sb.generation >= s.generation {
          BackedAfterSync(s, s.lastOk, sb);
        }
      } else {
        ViewOfClean(s.disk, other);
      }
    }
  }

  lemma SyncKeeps(s: Sys, t: Sys)
    requires Inv(s) && SyncOk(s, t)
    ensures Inv(t)
  {
    hide ReadSlot, Backed, IsVersion, Dirty, View, InFlightOk, VersionsWithin;
    var home := SlotOf(s.generation);
    assert s.lastOk < |s.log|;
    ShapeAfterSync(s, t);
    ShelteredAfterSync(s, t);
    ViewOfSlot(s, home);
    BackedAfterSync(s, s.lastOk, ReadSlot(home, View(s.disk)[home]).value);
    SyncedWithin(s, t);
    NothingDirty(t.disk, home);
    NothingInFlight(t);
    CleanView(t.disk);
    assert Settled(t);
  }

  lemma BackedInLongerLog(durable: File, log: seq<Attempt>, a: Attempt, lo: nat, sb: Superblock)
    requires Backed(durable, log, lo, sb)
    ensures Backed(durable, log + [a], lo, sb)
  {
    var k :| lo <= k < |log| && Names(durable, log[k], sb);
    assert (log + [a])[k] == log[k];
  }

  lemma CleanView(d: Disk)
    requires d.pending == []
    ensures View(d) == d.durable
  {
  }

  ghost predicate WritesRecord(s: Sys, t: Sys, a: Attempt, page: Option<Page>) {
    var slot := SlotOf(s.generation + 1);
    Prepared(s, a) &&
    (ReadSlot(slot, page) == Some(a.sb) || ReadSlot(slot, page) == None) &&
    t == s.(disk := Add(s.disk, Write(slot, page)), log := s.log + [a], inFlight := t.inFlight) &&
    (t.inFlight == None || (t.inFlight == Some(|s.log|) && ReadSlot(slot, page) == Some(a.sb)))
  }

  /** The new record is backed by its own attempt, all other versions by theirs. */
  lemma RecordIsSheltered(s: Sys, t: Sys, a: Attempt, page: Option<Page>)
    requires Inv(s) && WritesRecord(s, t, a, page)
    ensures SlotsSheltered(t) && Names(t.disk.durable, a, a.sb) && Backed(t.disk.durable, t.log, s.lastOk, a.sb)
  {
    hide ReadSlot, AtHome, InFlightOk, Settled, Unsettled, Names, View, Add, IsVersion, Dirty, Sheltered, Prepared, Shape, Backed;
    var w := Write(SlotOf(s.generation + 1), page);
    NewIsBacked(s, t, a, w);
    ViewOfSlot(s, w.id);
    WrittenPageVersions(s.disk, w);
    OtherPageWritten(s.disk, w, SlotOf(s.generation));
    forall slot, p | IsSlot(slot) && IsVersion(t.disk, slot, p) && ReadSlot(slot, p).Some?
      ensures Sheltered(t, ReadSlot(slot, p).value)
    {
      var sb := ReadSlot(slot, p).value;
      if IsVersion(s.disk, slot, p) {
        StaysSheltered(s, t, a, w, sb);
      } else {
        NewIsSheltered(s, t, a, w);
      }
    }
  }

  lemma NewIsBacked(s: Sys, t: Sys, a: Attempt, w: Write)
    requires Prepared(s, a) && Shape(s) && t.disk == Add(s.disk, w) && t.log == s.log + [a]
    ensures Names(t.disk.durable, a, a.sb) && Backed(t.disk.durable, t.log, s.lastOk, a.sb)
  {
    hide Names, View;
    PreparedFits(s, a);
    assert Names(t.disk.durable, t.log[|s.log|], a.sb);
  }

  lemma StaysSheltered(s: Sys, t: Sys, a: Attempt, w: Write, sb: Superblock)
    requires Sheltered(s, sb) && IsSlot(w.id)
    requires t.disk == Add(s.disk, w) && t.numPages == s.numPages && t.log == s.log + [a]
    ensures Sheltered(t, sb)
  {
    hide Backed;
    BackedInLongerLog(s.disk.durable, s.log, a, 0, sb);
  }

  lemma NewIsSheltered(s: Sys, t: Sys, a: Attempt, w: Write)
    requires Prepared(s, a) && IsSlot(w.id) && Shape(s)
    requires t.disk == Add(s.disk, w) && t.numPages == s.numPages && t.log == s.log + [a]
    ensures Sheltered(t, a.sb)
  {
    hide Names, View, Backed;
    NewIsBacked(s, t, a, w);
    CleanView(s.disk);
    BackedFrom(t.disk.durable, t.log, s.lastOk, a.sb);
  }

  lemma BackedFrom(durable: File, log: seq<Attempt>, lo: nat, sb: Superblock)
    requires Backed(durable, log, lo, sb)
    ensures Backed(durable, log, 0, sb)
  {
    hide Names;
  }

  lemma RecordLeavesSettled(s: Sys, t: Sys, a: Attempt, page: Option<Page>)
    requires Inv(s) && WritesRecord(s, t, a, page)
    ensures Settled(t)
  {
    hide ReadSlot, View, Add, AtHome, InFlightOk, Unsettled, Names, Backed, SlotsSheltered, CatalogAt, Fits, Shape, IsVersion, Dirty;
    var home, other := SlotOf(s.generation), SlotOf(s.generation + 1);
    var w := Write(other, page);
    CleanIsSettled(s);
    OtherPageWritten(s.disk, w, home);
    RecordIsSheltered(s, t, a, page);
    AddedDurable(s.disk, w);
    ViewOfSlot(s, other);
    WrittenPageVersions(s.disk, w);
    forall p | IsVersion(t.disk, other, p) && ReadSlot(other, p).Some?
      ensures var sb := ReadSlot(other, p).value;
        sb.generation < s.generation || (sb.generation == s.generation + 1 && Backed(t.disk.durable, t.log, t.lastOk, sb))
    {
      var sb := ReadSlot(other, p).value;
      if IsVersion(s.disk, other, p) {
        if sb.generation >= s.generation {
          BackedInLongerLog(s.disk.durable, s.log, a, s.lastOk, sb);
        }
      } else {
        assert sb == a.sb;
      }
    }
  }

  lemma PreparedNext(s: Sys, a: Attempt)
    requires Prepared(s, a)
    ensures a.sb.generation == s.generation + 1 && s.inFlight == None
  {
  }

  lemma RecordInView(s: Sys, t: Sys, a: Attempt, page: Option<Page>)
    requires Inv(s) && WritesRecord(s, t, a, page)
    ensures Shape(t) && 2 < |View(s.disk)| && 2 < |View(t.disk)|
    ensures View(t.disk)[SlotOf(s.generation)] == View(s.disk)[SlotOf(s.generation)]
    ensures View(t.disk)[SlotOf(s.generation + 1)] == page
  {
    hide ReadSlot, Unsettled, SlotsSheltered, IsVersion, Dirty, View, Add, Settled, Prepared, AtHome, InFlightOk, Shape;
    var w := Write(SlotOf(s.generation + 1), page);
    SlotWrittenKeepsShape(s, t, w);
    ViewOfSlot(s, w.id);
    ViewOfSlot(s, SlotOf(s.generation));
    ViewAdd(s.disk, w);
  }

  lemma SlotWrittenKeepsShape(s: Sys, t: Sys, w: Write)
    requires Shape(s) && IsSlot(w.id) && t.disk == Add(s.disk, w)
    requires t.numPages == s.numPages && t.lastOk == s.lastOk && |t.log| >= |s.log|
    ensures Shape(t)
  {
    hide IsVersion, Dirty, View, Add, FileHeader;
    ViewLength(s.disk);
    ViewAdd(s.disk, w);
    OtherPageWritten(s.disk, w, 0);
    AddedDurable(s.disk, w);
  }

  /** Writing the commit record of a prepared attempt, whole or torn. */
  lemma RecordWritten(s: Sys, t: Sys, a: Attempt, page: Option<Page>)
    requires Inv(s) && WritesRecord(s, t, a, page)
    ensures Inv(t)
  {
    hide ReadSlot, Unsettled, Backed, Names, SlotsSheltered, VersionsWithin, IsVersion, Dirty, View, Add, Settled, Shape, Prepared;
    var home := SlotOf(s.generation);
    RecordIsSheltered(s, t, a, page);
    RecordLeavesSettled(s, t, a, page);
    RecordInView(s, t, a, page);
    BackedInLongerLog(s.disk.durable, s.log, a, s.lastOk, ReadSlot(home, View(s.disk)[home]).value);
    AddedDurable(s.disk, Write(SlotOf(s.generation + 1), page));
    assert AtHome(t);
    assert t.log[|s.log|] == a;
    assert InFlightOk(t) by { PreparedFits(s, a); PreparedNext(s, a); }
  }

  lemma PublishKeeps(s: Sys, t: Sys)
    requires Inv(s) && (Publish(s, t) || PublishFailed(s, t))
    ensures Inv(t)
  {
    hide ReadSlot, Backed;
    if Publish(s, t) {
      var a: Attempt :| Prepared(s, a) &&
        t == s.(disk := Add(s.disk, Write(SlotOf(a.sb.generation), Some(SuperblockPage(SlotOf(a.sb.generation), a.sb)))),
                inFlight := Some(|s.log|), log := s.log + [a]);
      PreparedFits(s, a);
      assert WritesRecord(s, t, a, Some(SuperblockPage(SlotOf(a.sb.generation), a.sb)));
      RecordWritten(s, t, a, Some(SuperblockPage(SlotOf(a.sb.generation), a.sb)));
    } else if t != s {
      var a: Attempt, page: Option<Page> :| PublishFailedBy(s, t, a, page);
      PreparedFits(s, a);
      RecordWritten(s, t, a, page);
    }
  }

  /** The record in flight is on its page, and its catalog is on stable media after the sync. */
  lemma InFlightBacked(s: Sys)
    requires Inv(s) && s.inFlight.Some?
    ensures var a := s.log[s.inFlight.value];
            Backed(View(s.disk), s.log, s.inFlight.value, a.sb)
  {
    hide ReadSlot, Written, Unsettled, Settled, CatalogAt, Fits, Encode, BlobChunks, AtHome, Shape;
    var other := SlotOf(s.generation + 1);
    var a := s.log[s.inFlight.value];
    assert IsVersion(s.disk, other, View(s.disk)[other]) by { ViewOfSlot(s, other); }
    assert Sheltered(s, a.sb);
    assert Backed(s.disk.durable, s.log, s.inFlight.value, a.sb);
    BackedAfterSync(s, s.inFlight.value, a.sb);
  }

  lemma CommitIsHome(s: Sys, t: Sys)
    requires Inv(s) && Commit(s, t)
    ensures AtHome(t) && SlotsSheltered(t) && Shape(t)
  {
    hide ReadSlot, Written, Unsettled, Settled, Backed, Names, SlotsSheltered, AtHome, View;
    ShapeAfterSync(s, t);
    ShelteredAfterSync(s, t);
    InFlightBacked(s);
    CleanView(t.disk);
    assert AtHome(t) by { CommittedAtHome(s, t); }
  }

  lemma CommittedAtHome(s: Sys, t: Sys)
    requires Inv(s) && Commit(s, t)
    requires View(t.disk) == View(s.disk) && Backed(t.disk.durable, t.log, t.lastOk, s.log[s.inFlight.value].sb)
    ensures AtHome(t)
  {
    hide ReadSlot, Written, Unsettled, Settled, Backed, Names, SlotsSheltered, View, Shape;
  }

  lemma CommitKeeps(s: Sys, t: Sys)
    requires Inv(s) && Commit(s, t)
    ensures Inv(t)
  {
    hide ReadSlot, Unsettled, Backed, Names, SlotsSheltered, Shape, IsVersion, Dirty, View;
    var home := SlotOf(s.generation);
    CommitIsHome(s, t);
    NothingDirty(t.disk, SlotOf(t.generation));
    forall p | IsVersion(t.disk, home, p) && ReadSlot(home, p).Some?
      ensures ReadSlot(home, p).value.generation < t.generation
    {
      SyncedVersions(s, home, p);
    }
    assert Settled(t);
  }

  lemma NothingDirty(d: Disk, slot: nat)
    requires d.pending == []
    ensures !Dirty(d, slot)
  {
  }

  lemma CommitFailedKeeps(s: Sys, t: Sys)
    requires Inv(s) && CommitFailed(s, t)
    ensures Inv(t)
  {
    hide ReadSlot, Backed, Names, IsVersion, Dirty, View, SlotsSheltered, Settled, Unsettled, VersionsWithin;
    ShelteredSameDisk(s, t);
    SettledSameDisk(s, t);
  }

  lemma ShelteredSameDisk(s: Sys, t: Sys)
    requires SlotsSheltered(s) && t.disk == s.disk && t.numPages >= s.numPages && t.log == s.log
    ensures SlotsSheltered(t)
  {
    hide ReadSlot, Backed, IsVersion, Dirty;
    forall slot, p | IsSlot(slot) && IsVersion(t.disk, slot, p) && ReadSlot(slot, p).Some?
      ensures Sheltered(t, ReadSlot(slot, p).value)
    {
      assert Sheltered(s, ReadSlot(slot, p).value);
    }
  }

  lemma SettledSameDisk(s: Sys, t: Sys)
    requires Settled(s) && t.disk == s.disk && t.generation == s.generation && t.log == s.log && t.lastOk == s.lastOk
    ensures Settled(t)
  {
    hide Dirty, VersionsWithin;
    WithinSameDisk(s, t, SlotOf(s.generation + 1), s.generation, s.generation + 1);
  }

  // Reopening

  lemma ViewIsCrashImage(d: Disk)
    ensures CrashImage(d, View(d))
  {
    ViewLength(d);
    forall id | 0 <= id < |View(d)| ensures CrashPage(d, id, View(d)[id]) {
      ViewOfVersion(d, id);
      if !Dirty(d, id) {
        assert Write(id, View(d)[id]) !in d.pending;
      }
    }
  }

  /** A superblock found in a slot after a crash is a version that slot had. */
  lemma ImageSlot(s: Sys, image: File, slot: nat)
    requires Shape(s) && IsSlot(slot) && CrashImage(s.disk, image)
    ensures slot < |image| && slot < |s.disk.durable|
    ensures ReadSlot(slot, image[slot]).Some? ==> IsVersion(s.disk, slot, image[slot])
    ensures !Dirty(s.disk, slot) ==> image[slot] == s.disk.durable[slot]
  {
    assert CrashPage(s.disk, slot, image[slot]);
  }

  lemma ImageKeepsPages(s: Sys, image: File, sb: Superblock)
    requires Sheltered(s, sb) && CrashImage(s.disk, image)
    ensures forall i | 3 <= i < sb.committed :: i < |image| && image[i] == s.disk.durable[i]
  {
    forall i | 3 <= i < sb.committed ensures i < |image| && image[i] == s.disk.durable[i] {
      ShelteredIsClean(s, sb, i);
      assert CrashPage(s.disk, i, image[i]);
    }
  }

  lemma BackedInImage(s: Sys, image: File, lo: nat, sb: Superblock)
    requires Sheltered(s, sb) && CrashImage(s.disk, image) && Backed(s.disk.durable, s.log, lo, sb)
    ensures Backed(image, s.log, lo, sb) && sb.committed <= |image|
  {
    ImageKeepsPages(s, image, sb);
    BackedKept(s.disk.durable, image, s.log, s.log, lo, sb);
  }

  /** A superblock the crash left in a slot, as a candidate for opening. */
  lemma ImageCandidate(s: Sys, image: File, slot: nat)
    requires Shape(s) && SlotsSheltered(s) && IsSlot(slot) && CrashImage(s.disk, image)
    ensures slot < |image| && Candidate(image, slot) == ReadSlot(slot, image[slot])
  {
    hide SuperblockOf, Written, Backed;
    ImageSlot(s, image, slot);
    if ReadSlot(slot, image[slot]).Some? {
      assert Sheltered(s, ReadSlot(slot, image[slot]).value);
    }
  }

  lemma OpenIsNewest(s: Sys, image: File)
    requires Shape(s) && SlotsSheltered(s) && CrashImage(s.disk, image) && |image| < U32
    ensures 2 < |image|
    ensures Open(image) == Newest(ReadSlot(SUPERBLOCK_A, image[SUPERBLOCK_A]), ReadSlot(SUPERBLOCK_B, image[SUPERBLOCK_B]))
  {
    hide SuperblockOf, Written, Backed, Candidate, ReadSlot;
    ImageCandidate(s, image, SUPERBLOCK_A);
    ImageCandidate(s, image, SUPERBLOCK_B);
    assert CrashPage(s.disk, 0, image[0]);
  }

  /** What opening finds if the handle's superblock is settled: that one, or the one in flight after it. */
  lemma OpenSettled(s: Sys, image: File) returns (sb: Superblock)
    requires Inv(s) && Settled(s) && CrashImage(s.disk, image) && |image| < U32
    ensures 2 < |image| && Open(image) == Some(sb)
    ensures ReadSlot(SlotOf(sb.generation), image[SlotOf(sb.generation)]) == Some(sb)
    ensures Backed(s.disk.durable, s.log, s.lastOk, sb)
    ensures sb.generation == s.generation || sb.generation == s.generation + 1
    ensures ReadSlot(SlotOf(s.generation), image[SlotOf(s.generation)]).Some?
    ensures var cur := ReadSlot(SlotOf(s.generation), image[SlotOf(s.generation)]).value;
            cur.generation == s.generation && Backed(s.disk.durable, s.log, s.lastOk, cur)
  {
    hide SuperblockOf, Backed, Candidate, ReadSlot, Open, SlotsSheltered, Shape, IsVersion, Dirty, View, CrashImage;
    var home, other := SlotOf(s.generation), SlotOf(s.generation + 1);
    OpenIsNewest(s, image);
    ImageSlot(s, image, home);
    ImageSlot(s, image, other);
    ViewOfSlot(s, home);
    ViewOfClean(s.disk, home);
    sb := ReadSlot(home, image[home]).value;
    var next := ReadSlot(other, image[other]);
    if next.Some? && next.value.generation > s.generation {
      sb := next.value;
    }
  }

  /** What it finds otherwise: the handle's superblock if it got to stable media, else the one before it. */
  lemma OpenUnsettled(s: Sys, image: File) returns (sb: Superblock)
    requires Inv(s) && Unsettled(s) && CrashImage(s.disk, image) && |image| < U32
    ensures 2 < |image| && Open(image) == Some(sb)
    ensures ReadSlot(SlotOf(sb.generation), image[SlotOf(sb.generation)]) == Some(sb)
    ensures Backed(s.disk.durable, s.log, s.lastOk, sb)
    ensures sb.generation == s.generation || sb.generation + 1 == s.generation
    ensures sb.generation + 1 == s.generation ==>
      var late := ReadSlot(SlotOf(s.generation), image[SlotOf(s.generation)]);
      late.Some? ==> late.value.generation < sb.generation
  {
    hide SuperblockOf, Backed, Candidate, ReadSlot, Open, SlotsSheltered, AtHome, InFlightOk, Settled, View, Shape;
    hide IsVersion, Dirty, CrashImage;
    var home, other := SlotOf(s.generation), SlotOf(s.generation + 1);
    OpenIsNewest(s, image);
    ImageSlot(s, image, home);
    ImageSlot(s, image, other);
    sb := ReadSlot(other, image[other]).value;
    var late := ReadSlot(home, image[home]);
    if late.Some? && late.value.generation == s.generation {
      sb := late.value;
    }
  }

  // Main results

  /** Whatever a crash leaves, opening succeeds and loads the catalog of the last
      acknowledged flush or of one attempted after it, with all it points to. */
  lemma CrashRecovers(s: Sys, image: File)
    requires Inv(s) && CrashImage(s.disk, image) && |image| < U32
    ensures Open(image).Some?
    ensures exists k :: s.lastOk <= k < |s.log| && Recovers(image, Open(image).value.root, s.log[k])
  {
    hide *;
    var sb := OpenedIsBacked(s, image);
    BackedLoads(image, s.log, s.lastOk, sb);
  }

  lemma OpenedIsBacked(s: Sys, image: File) returns (sb: Superblock)
    requires Inv(s) && CrashImage(s.disk, image) && |image| < U32
    ensures Open(image) == Some(sb) && Backed(image, s.log, s.lastOk, sb)
  {
    hide Written, View, ReadSlot, Open, Backed, SlotsSheltered, AtHome, InFlightOk, Settled, Unsettled, Shape, CrashImage;
    if Settled(s) {
      sb := OpenSettled(s, image);
    } else {
      sb := OpenUnsettled(s, image);
    }
    OpenedIsSheltered(s, image, sb);
    BackedInImage(s, image, s.lastOk, sb);
  }

  lemma BackedLoads(image: File, log: seq<Attempt>, lo: nat, sb: Superblock)
    requires Backed(image, log, lo, sb)
    ensures exists k :: lo <= k < |log| && Recovers(image, sb.root, log[k])
  {
    hide LoadCatalog, CatalogAt, Fits, Encode;
    var k :| lo <= k < |log| && Names(image, log[k], sb);
    LoadsWhatWasAppended(image, sb.root, log[k].catalog);
    assert Recovers(image, sb.root, log[k]);
  }

  lemma OpenedIsSheltered(s: Sys, image: File, sb: Superblock)
    requires Shape(s) && SlotsSheltered(s) && CrashImage(s.disk, image) && 2 < |image|
    requires ReadSlot(SlotOf(sb.generation), image[SlotOf(sb.generation)]) == Some(sb)
    ensures Sheltered(s, sb)
  {
    hide SuperblockOf, Written, ReadSlot;
    ImageSlot(s, image, SlotOf(sb.generation));
  }

  // Reopening keeps the invariant

  lemma ShelteredInImage(s: Sys, t: Sys)
    requires Shape(s) && SlotsSheltered(s) && CrashImage(s.disk, t.disk.durable)
    requires t.disk.pending == [] && t.log == s.log && t.numPages == |t.disk.durable|
    ensures SlotsSheltered(t)
  {
    hide ReadSlot, Written;
    forall slot, p | IsSlot(slot) && IsVersion(t.disk, slot, p) && ReadSlot(slot, p).Some?
      ensures Sheltered(t, ReadSlot(slot, p).value)
    {
      ImageSlot(s, t.disk.durable, slot);
      BackedInImage(s, t.disk.durable, 0, ReadSlot(slot, p).value);
    }
  }

  lemma ShapeInImage(s: Sys, t: Sys)
    requires Shape(s) && CrashImage(s.disk, t.disk.durable)
    requires t.disk.pending == [] && t.log == s.log && t.lastOk == s.lastOk && t.numPages == |t.disk.durable|
    ensures Shape(t)
  {
    assert CrashPage(s.disk, 0, t.disk.durable[0]);
  }

  /** After power is lost each slot has one version, one it had before. */
  lemma WithinInImage(s: Sys, t: Sys, slot: nat, g: nat, h: nat)
    requires Shape(s) && SlotsSheltered(s) && CrashImage(s.disk, t.disk.durable) && IsSlot(slot)
    requires t.disk.pending == [] && t.log == s.log && t.lastOk == s.lastOk
    requires VersionsWithin(s, slot, g, h)
    ensures VersionsWithin(t, slot, g, h)
  {
    hide ReadSlot, Written, Backed;
    ImageSlot(s, t.disk.durable, slot);
    forall p | IsVersion(t.disk, slot, p) && ReadSlot(slot, p).Some?
      ensures var sb := ReadSlot(slot, p).value;
        sb.generation < g || (sb.generation == h && Backed(t.disk.durable, t.log, t.lastOk, sb))
    {
      var sb := ReadSlot(slot, p).value;
      if sb.generation >= g {
        BackedInImage(s, t.disk.durable, s.lastOk, sb);
      }
    }
  }

  lemma PowerLossHome(s: Sys, t: Sys, sb: Superblock)
    requires Inv(s) && PowerLoss(s, t) && Open(t.disk.durable) == Some(sb) && 2 < |t.disk.durable|
    requires ReadSlot(SlotOf(sb.generation), t.disk.durable[SlotOf(sb.generation)]) == Some(sb)
    requires Backed(s.disk.durable, s.log, s.lastOk, sb)
    ensures Shape(t) && SlotsSheltered(t) && AtHome(t)
  {
    hide ReadSlot, Written, Backed, SlotsSheltered, Shape, Settled, Unsettled, InFlightOk, Open;
    ShapeInImage(s, t);
    ShelteredInImage(s, t);
    OpenedIsSheltered(s, t.disk.durable, sb);
    BackedInImage(s, t.disk.durable, s.lastOk, sb);
    CleanView(t.disk);
  }

  lemma PowerLossSettled(s: Sys, t: Sys)
    requires Inv(s) && Settled(s) && PowerLoss(s, t) && |t.disk.durable| < U32
    ensures Inv(t)
  {
    hide ReadSlot, Written, Backed, SlotsSheltered, Shape, AtHome, InFlightOk, Open, VersionsWithin;
    var home, other := SlotOf(s.generation), SlotOf(s.generation + 1);
    var sb := OpenSettled(s, t.disk.durable);
    PowerLossHome(s, t, sb);
    WithinInImage(s, t, other, s.generation, s.generation + 1);
    var cur := ReadSlot(home, t.disk.durable[home]).value;
    OpenedIsSheltered(s, t.disk.durable, cur);
    BackedInImage(s, t.disk.durable, s.lastOk, cur);
    assert InFlightOk(t) by { assert t.inFlight == None; NothingInFlight(t); }
    if sb.generation == s.generation {
      assert Settled(t);
    } else {
      assert Unsettled(t);
    }
  }

  lemma NothingInFlight(s: Sys)
    requires s.inFlight == None
    ensures InFlightOk(s)
  {
  }

  lemma PowerLossUnsettled(s: Sys, t: Sys)
    requires Inv(s) && Unsettled(s) && PowerLoss(s, t) && |t.disk.durable| < U32
    ensures Inv(t)
  {
    hide ReadSlot, Written, Backed, SlotsSheltered, Shape, AtHome, InFlightOk, Open;
    var home, other := SlotOf(s.generation), SlotOf(s.generation + 1);
    var sb := OpenUnsettled(s, t.disk.durable);
    PowerLossHome(s, t, sb);
    ImageSlot(s, t.disk.durable, other);
    NothingInFlight(t);
    if sb.generation == s.generation {
      WithinInImage(s, t, home, s.generation - 1, s.generation);
      var prev := ReadSlot(other, t.disk.durable[other]).value;
      OpenedIsSheltered(s, t.disk.durable, prev);
      BackedInImage(s, t.disk.durable, s.lastOk, prev);
      assert Unsettled(t);
    } else {
      assert Settled(t);
    }
  }

  lemma WithinSameDisk(s: Sys, t: Sys, slot: nat, g: nat, h: nat)
    requires VersionsWithin(s, slot, g, h)
    requires t.disk == s.disk && t.log == s.log && t.lastOk == s.lastOk
    ensures VersionsWithin(t, slot, g, h)
  {
  }

  /** Shape, slots and home of a reopened file. */
  lemma RestartHome(s: Sys, t: Sys, sb: Superblock)
    requires Inv(s) && Restart(s, t) && Open(View(s.disk)) == Some(sb) && 2 < |View(s.disk)|
    requires ReadSlot(SlotOf(sb.generation), View(s.disk)[SlotOf(sb.generation)]) == Some(sb)
    requires Backed(s.disk.durable, s.log, s.lastOk, sb)
    ensures Shape(t) && SlotsSheltered(t) && AtHome(t)
  {
    hide ReadSlot, View, Backed, Open, VersionsWithin, Settled, Unsettled, InFlightOk, SlotsSheltered, Dirty;
    ViewLength(s.disk);
    ShelteredSameDisk(s, t);
  }

  lemma RestartSettled(s: Sys, t: Sys)
    requires Inv(s) && Settled(s) && Restart(s, t) && |View(s.disk)| < U32
    ensures Inv(t)
  {
    hide ReadSlot, Backed, Open, VersionsWithin, SlotsSheltered, AtHome, InFlightOk, Shape, IsVersion, Dirty, View, CrashImage;
    ViewIsCrashImage(s.disk);
    var home := SlotOf(s.generation);
    var sb := OpenSettled(s, View(s.disk));
    RestartHome(s, t, sb);
    NothingInFlight(t);
    WithinSameDisk(s, t, SlotOf(s.generation + 1), s.generation, s.generation + 1);
    if sb.generation == s.generation {
      assert Settled(t);
    } else {
      ViewOfSlot(s, home);
      ViewOfClean(s.disk, home);
      assert Unsettled(t);
    }
  }

  lemma RestartUnsettled(s: Sys, t: Sys)
    requires Inv(s) && Unsettled(s) && Restart(s, t) && |View(s.disk)| < U32
    ensures Inv(t)
  {
    hide ReadSlot, Written, Backed, Open, VersionsWithin, SlotsSheltered, InFlightOk;
    ViewIsCrashImage(s.disk);
    var home := SlotOf(s.generation);
    var sb := OpenUnsettled(s, View(s.disk));
    RestartHome(s, t, sb);
    NothingInFlight(t);
    WithinSameDisk(s, t, home, s.generation - 1, s.generation);
    assert Unsettled(t);
  }

  lemma StepKeeps(s: Sys, t: Sys)
    requires Inv(s) && Step(s, t) && s.numPages + 1 < U32
    ensures Inv(t)
  {
    hide Inv, Written, View, Open, Prepared;
    if AppendOk(s, t) {
      var page: Page :|
        t == s.(disk := Add(s.disk, Write(s.numPages, Some(page))), numPages := s.numPages + 1);
      AddPageKeeps(s, t, Some(page));
    } else if AppendFailed(s, t) {
      if t != s {
        var page: Option<Page> :| t == s.(disk := Add(s.disk, Write(s.numPages, page)));
        AddPageKeeps(s, t, page);
      }
    } else if SyncOk(s, t) {
      SyncKeeps(s, t);
    } else if Publish(s, t) || PublishFailed(s, t) {
      PublishKeeps(s, t);
    } else if Commit(s, t) {
      CommitKeeps(s, t);
    } else if CommitFailed(s, t) {
      CommitFailedKeeps(s, t);
    } else {
      ReopenKeeps(s, t);
    }
  }

  lemma ReopenKeeps(s: Sys, t: Sys)
    requires Inv(s) && (Restart(s, t) || PowerLoss(s, t)) && s.numPages + 1 < U32
    ensures Inv(t)
  {
    hide AtHome, SlotsSheltered, InFlightOk, Settled, Unsettled, Open, Written;
    if Restart(s, t) {
      if Settled(s) {
        RestartSettled(s, t);
      } else {
        RestartUnsettled(s, t);
      }
    } else if Settled(s) {
      PowerLossSettled(s, t);
    } else {
      PowerLossUnsettled(s, t);
    }
  }

  // Whole runs

  /** A run from a created file on. Below 2^32 - 1 pages no page count overflows. */
  ghost predicate Run(run: seq<Sys>) {
    |run| > 0 && Init(run[0]) &&
    (forall i | 0 <= i < |run| :: run[i].numPages + 1 < U32) &&
    forall i | 0 <= i < |run| - 1 :: Step(run[i], run[i + 1])
  }

  lemma {:induction false} RunKeepsInv(run: seq<Sys>, i: nat)
    requires Run(run) && i < |run|
    ensures Inv(run[i])
  {
    hide Inv, Step, Init;
    if i == 0 {
      InitKeeps(run[0]);
    } else {
      RunKeepsInv(run, i - 1);
      assert Step(run[i - 1], run[i]);
      StepKeeps(run[i - 1], run[i]);
    }
  }

  /** From a created file, whatever is appended, flushed, failed, crashed and
      reopened: power may be lost now and opening the file finds a superblock whose
      catalog is that of the last flush that returned Ok or of one attempted later. */
  lemma EveryCrashRecovers(run: seq<Sys>, image: File)
    requires Run(run)
    requires CrashImage(run[|run| - 1].disk, image)
    ensures var s := run[|run| - 1];
      Open(image).Some? &&
      exists k :: s.lastOk <= k < |s.log| && Recovers(image, Open(image).value.root, s.log[k])
  {
    hide Step, Init, Open, Recovers, AtHome, SlotsSheltered, InFlightOk, Settled, Unsettled;
    RunKeepsInv(run, |run| - 1);
    CrashRecovers(run[|run| - 1], image);
  }

  /** So does opening the file as it stands, without a crash. */
  lemma EveryReopenRecovers(run: seq<Sys>)
    requires Run(run)
    ensures var s := run[|run| - 1];
      Open(View(s.disk)).Some? &&
      exists k :: s.lastOk <= k < |s.log| && Recovers(View(s.disk), Open(View(s.disk)).value.root, s.log[k])
  {
    hide Step, Init, Open, Recovers;
    ViewIsCrashImage(run[|run| - 1].disk);
    EveryCrashRecovers(run, View(run[|run| - 1].disk));
  }

  /** Page `id` may be reached from a superblock some slot holds or held since the last sync. */
  ghost predicate Reachable(s: Sys, id: nat) {
    exists slot, page :: IsSlot(slot) && IsVersion(s.disk, slot, page) && ReadSlot(slot, page).Some? &&
      3 <= id < ReadSlot(slot, page).value.committed
  }

  /** No step writes a page a valid superblock may reach, nor does a crash damage one. */
  lemma ReachableIsNeverOverwritten(s: Sys, t: Sys, id: nat)
    requires Inv(s) && Step(s, t) && Reachable(s, id)
    ensures id < |View(s.disk)| && id < |View(t.disk)| && View(t.disk)[id] == View(s.disk)[id]
    ensures id < |s.disk.durable| && View(s.disk)[id] == s.disk.durable[id]
  {
    hide ReadSlot, Written, Open, Prepared, AtHome, InFlightOk, Settled, Unsettled;
    var slot, page :| IsSlot(slot) && IsVersion(s.disk, slot, page) && ReadSlot(slot, page).Some? &&
      3 <= id < ReadSlot(slot, page).value.committed;
    var sb := ReadSlot(slot, page).value;
    ShelteredIsClean(s, sb, id);
    if t.disk == Disk(View(s.disk), []) {
      CleanView(t.disk);
    } else if PowerLoss(s, t) {
      CleanView(t.disk);
      ImageKeepsPages(s, t.disk.durable, sb);
    } else if t.disk != s.disk {
      WritesElsewhere(s, t, sb, id);
    }
  }

  lemma WritesElsewhere(s: Sys, t: Sys, sb: Superblock, id: nat)
    requires Step(s, t) && !PowerLoss(s, t) && t.disk != s.disk && t.disk != Disk(View(s.disk), [])
    requires Sheltered(s, sb) && 3 <= id < sb.committed && id < |View(s.disk)|
    ensures id < |View(t.disk)| && View(t.disk)[id] == View(s.disk)[id]
  {
    hide ReadSlot, View, Open, Add, CrashImage, Prepared, Backed, SuperblockPage;
    if Publish(s, t) {
      var a: Attempt :| Prepared(s, a) &&
        t == s.(disk := Add(s.disk, Write(SlotOf(a.sb.generation), Some(SuperblockPage(SlotOf(a.sb.generation), a.sb)))),
                inFlight := Some(|s.log|), log := s.log + [a]);
    }
    var w: Write :| t.disk == Add(s.disk, w) && w.id != id;
    ViewAdd(s.disk, w);
  }
}
