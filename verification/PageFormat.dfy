/** Pages as bytes: the page header, the additive checksum and the superblock
    record. Everything above this module handles a page as a `Page` value. */
module PageFormat {
  import opened Bytes

  const PAGE_SIZE: nat := 8192
  const PAGE_HEADER_SIZE: nat := 16
  const PAGE_BODY_SIZE: nat := PAGE_SIZE - PAGE_HEADER_SIZE
  const U32: nat := 0x1_0000_0000
  const U64: nat := 0x1_0000_0000_0000_0000

  const PAGE_TYPE_CATALOG: nat := 2
  const PAGE_TYPE_BLOCK_DATA: nat := 3
  const PAGE_TYPE_OVERFLOW: nat := 4
  const PAGE_TYPE_INDEX: nat := 5
  const PAGE_TYPE_TABLE_DATA: nat := 6
  const PAGE_TYPE_SUPERBLOCK: nat := 7
  const SUPERBLOCK_MAGIC: nat := 0x4D51_5342
  const SUPERBLOCK_A: nat := 1
  const SUPERBLOCK_B: nat := 2

  /** The parsed content of a page whose checksum holds. */
  datatype Page = Page(ptype: nat, id: nat, next: nat, body: seq<Byte>)

  function Pad(body: seq<Byte>): (p: seq<Byte>)
    ensures |p| == PAGE_BODY_SIZE
    ensures |body| <= PAGE_BODY_SIZE ==> body <= p && p[|body|..] == Zeros(PAGE_BODY_SIZE - |body|)
  {
    var kept := if |body| <= PAGE_BODY_SIZE then body else body[..PAGE_BODY_SIZE];
    kept + Zeros(PAGE_BODY_SIZE - |kept|)
  }

  function Sum(s: seq<Byte>): (n: nat)
    ensures n <= 255 * |s|
  {
    if |s| == 0 then 0 else Sum(s[..|s| - 1]) + s[|s| - 1]
  }

  /** What `compute_checksum` computes: every byte but the checksum's own, wrapping at 32 bits. */
  function Checksum(page: seq<Byte>): nat
    requires |page| == PAGE_SIZE
  {
    (Sum(page[..4]) + Sum(page[8..])) % U32
  }

  function StoredChecksum(page: seq<Byte>): nat
    requires |page| == PAGE_SIZE
  {
    FromLE(page[4..8])
  }

  predicate VerifyChecksum(page: seq<Byte>)
    requires |page| == PAGE_SIZE
  {
    StoredChecksum(page) == Checksum(page)
  }

  /** The bytes `make_page` lays out. */
  function PageBytes(page: Page): (b: seq<Byte>)
    ensures |b| == PAGE_SIZE
  {
    var rest := LE(page.id, 4) + LE(page.next, 4) + Pad(page.body);
    LE(page.ptype, 4) + LE((Sum(LE(page.ptype, 4)) + Sum(rest)) % U32, 4) + rest
  }

  /** What a reader sees in 8192 bytes: a page, or nothing if the checksum fails. */
  function ParsePage(b: seq<Byte>): Option<Page>
    requires |b| == PAGE_SIZE
  {
    if VerifyChecksum(b) then
      Some(Page(FromLE(b[0..4]), FromLE(b[8..12]), FromLE(b[12..16]), b[16..]))
    else None
  }

  /** The checksum laid out is the one of the page it stands in. */
  lemma PageVerifies(page: Page)
    ensures VerifyChecksum(PageBytes(page))
  {
    hide LE, FromLE, Pad, Sum;
    Widths();
    var b := PageBytes(page);
    var rest := LE(page.id, 4) + LE(page.next, 4) + Pad(page.body);
    assert b[..4] == LE(page.ptype, 4) && b[8..] == rest;
    assert b[4..8] == LE((Sum(LE(page.ptype, 4)) + Sum(rest)) % U32, 4);
    LERoundTrip((Sum(LE(page.ptype, 4)) + Sum(rest)) % U32, 4);
  }

  lemma PageRoundTrip(page: Page)
    requires page.ptype < U32 && page.id < U32 && page.next < U32
    ensures ParsePage(PageBytes(page)) == Some(page.(body := Pad(page.body)))
  {
    hide LE, FromLE, Pad, Sum, VerifyChecksum;
    Widths();
    PageVerifies(page);
    var b := PageBytes(page);
    assert b[0..4] == LE(page.ptype, 4) && b[8..12] == LE(page.id, 4) && b[12..16] == LE(page.next, 4);
    LERoundTrip(page.ptype, 4);
    LERoundTrip(page.id, 4);
    LERoundTrip(page.next, 4);
    assert b[16..] == Pad(page.body);
  }

  lemma {:induction false} SumUpdate(s: seq<Byte>, i: nat, b: Byte)
    requires i < |s|
    ensures Sum(s[i := b]) == Sum(s) - s[i] + b
  {
    var n := |s| - 1;
    if i == n {
      assert s[i := b][..n] == s[..n];
    } else {
      assert s[i := b][..n] == s[..n][i := b];
      SumUpdate(s[..n], i, b);
    }
  }

  lemma OtherRemainder(total: nat, x: Byte, b: Byte)
    requires x != b && x <= total
    ensures (total - x + b) % U32 != total % U32
  {
    var r, s := total % U32, (total - x + b) % U32;
    assert s == r - x + b || s == r - x + b + U32 || s == r - x + b - U32;
  }

  lemma DamagedOutsideSum(page: seq<Byte>, i: nat, b: Byte)
    requires |page| == PAGE_SIZE && i < PAGE_SIZE && !(4 <= i < 8) && b != page[i]
    ensures page[i := b][4..8] == page[4..8] && Checksum(page[i := b]) != Checksum(page)
  {
    hide Sum;
    var damaged := page[i := b];
    if i < 4 {
      assert damaged[..4] == page[..4][i := b] && damaged[8..] == page[8..];
      SumUpdate(page[..4], i, b);
    } else {
      assert damaged[..4] == page[..4] && damaged[8..] == page[8..][i - 8 := b];
      SumUpdate(page[8..], i - 8, b);
    }
    SumAtLeast(if i < 4 then page[..4] else page[8..], if i < 4 then i else i - 8);
    OtherRemainder(Sum(page[..4]) + Sum(page[8..]), page[i], b);
  }

  lemma {:induction false} SumAtLeast(s: seq<Byte>, i: nat)
    requires i < |s|
    ensures s[i] <= Sum(s)
  {
    if i < |s| - 1 {
      SumAtLeast(s[..|s| - 1], i);
    }
  }

  /** No change of a single byte goes unnoticed: the sum of a page is too small to wrap. */
  lemma OneByteDamageIsCaught(page: seq<Byte>, i: nat, b: Byte)
    requires |page| == PAGE_SIZE && VerifyChecksum(page)
    requires i < PAGE_SIZE && b != page[i]
    ensures ParsePage(page[i := b]) == None
  {
    hide Sum, FromLE;
    var damaged := page[i := b];
    if 4 <= i < 8 {
      assert damaged[..4] == page[..4] && damaged[8..] == page[8..];
      assert damaged[4..8][i - 4] != page[4..8][i - 4];
      if FromLE(damaged[4..8]) == FromLE(page[4..8]) {
        FromLEInjective(damaged[4..8], page[4..8]);
      }
    } else {
      DamagedOutsideSum(page, i, b);
    }
  }

  // Superblocks

  datatype Superblock = Superblock(generation: nat, root: nat, committed: nat)

  predicate SuperblockFits(sb: Superblock) {
    sb.generation < U64 && sb.root < U32 && sb.committed < U32
  }

  function SuperblockBody(sb: Superblock): (b: seq<Byte>)
    ensures |b| == 20
  {
    LE(SUPERBLOCK_MAGIC, 4) + LE(sb.generation, 8) + LE(sb.root, 4) + LE(sb.committed, 4)
  }

  function SuperblockPage(slot: nat, sb: Superblock): Page {
    Page(PAGE_TYPE_SUPERBLOCK, slot, 0, Pad(SuperblockBody(sb)))
  }

  /** The checks of `decode_superblock` that do not depend on the file's length. */
  function SuperblockOf(slot: nat, page: Page): (sb: Option<Superblock>)
    ensures sb.Some? ==> sb.value.generation >= 1 && 3 <= sb.value.root < sb.value.committed
  {
    if page.ptype != PAGE_TYPE_SUPERBLOCK || page.id != slot || page.next != 0 || |page.body| < 20 then None
    else if FromLE(page.body[0..4]) != SUPERBLOCK_MAGIC then None
    else
      var sb := Superblock(FromLE(page.body[4..12]), FromLE(page.body[12..16]), FromLE(page.body[16..20]));
      if sb.generation == 0 || sb.root < 3 || sb.root >= sb.committed then None else Some(sb)
  }

  function DecodeSuperblock(slot: nat, page: Page, physicalPages: nat): Option<Superblock> {
    match SuperblockOf(slot, page)
    case None => None
    case Some(sb) => if sb.committed > physicalPages then None else Some(sb)
  }

  lemma SuperblockRoundTrip(slot: nat, sb: Superblock)
    requires SuperblockFits(sb) && sb.generation >= 1 && 3 <= sb.root < sb.committed
    ensures SuperblockOf(slot, SuperblockPage(slot, sb)) == Some(sb)
  {
    Widths();
    hide LE, FromLE;
    var b := SuperblockBody(sb);
    var p := Pad(b);
    assert p[0..4] == b[0..4] == LE(SUPERBLOCK_MAGIC, 4);
    assert p[4..12] == b[4..12] == LE(sb.generation, 8);
    assert p[12..16] == b[12..16] == LE(sb.root, 4);
    assert p[16..20] == b[16..20] == LE(sb.committed, 4);
    LERoundTrip(SUPERBLOCK_MAGIC, 4);
    LERoundTrip(sb.generation, 8);
    LERoundTrip(sb.root, 4);
    LERoundTrip(sb.committed, 4);
  }

  /** The commit record `create` reserves is not a superblock. */
  lemma ReservedSlotIsNoSuperblock(slot: nat)
    ensures SuperblockOf(slot, Page(PAGE_TYPE_SUPERBLOCK, slot, 0, Pad([]))) == None
  {
    var p := Pad([]);
    assert p[0..4] == [0, 0, 0, 0];
    assert FromLE([0, 0, 0, 0]) == 0 by {
      assert [0, 0, 0, 0] == LE(0, 4);
      Widths();
      LERoundTrip(0, 4);
    }
  }

  const SECTOR: nat := 512

  /** A disk that writes whole sectors leaves each sector of `image` as it was or as it should become. */
  ghost predicate SectorMix(was: seq<Byte>, now: seq<Byte>, image: seq<Byte>)
    requires |was| == |now| == |image| == PAGE_SIZE
  {
    forall k {:trigger Sector(image, k)} :: 0 <= k < PAGE_SIZE / SECTOR ==>
      Sector(image, k) == Sector(was, k) || Sector(image, k) == Sector(now, k)
  }

  function Sector(b: seq<Byte>, k: nat): seq<Byte>
    requires |b| == PAGE_SIZE && k < PAGE_SIZE / SECTOR
  {
    b[k * SECTOR..(k + 1) * SECTOR]
  }

  lemma SameBeyondFirstSector(p: Page, q: Page)
    requires |p.body| <= 20 && |q.body| <= 20
    ensures PageBytes(p)[36..] == PageBytes(q)[36..]
  {
    var x, y := PageBytes(p), PageBytes(q);
    forall i | 36 <= i < PAGE_SIZE ensures x[i] == 0 && y[i] == 0 {
      assert x[i] == Pad(p.body)[i - 16] && y[i] == Pad(q.body)[i - 16];
    }
  }

  /** Overwriting one commit record by another is all or nothing on such a disk:
      the two pages differ in their first sector only. */
  lemma SuperblockWriteIsAtomic(p: Page, q: Page, image: seq<Byte>)
    requires |p.body| <= 20 && |q.body| <= 20 && |image| == PAGE_SIZE
    requires SectorMix(PageBytes(p), PageBytes(q), image)
    ensures image == PageBytes(p) || image == PageBytes(q)
  {
    var x, y := PageBytes(p), PageBytes(q);
    SameBeyondFirstSector(p, q);
    forall i | SECTOR <= i < PAGE_SIZE ensures image[i] == x[i] == y[i] {
      var k := i / SECTOR;
      assert 0 <= i - k * SECTOR < SECTOR;
      assert Sector(image, k)[i - k * SECTOR] == image[i];
      assert Sector(x, k)[i - k * SECTOR] == x[i] && Sector(y, k)[i - k * SECTOR] == y[i];
      assert x[i] == x[36..][i - 36] && y[i] == y[36..][i - 36];
    }
    assert Sector(image, 0) == image[..SECTOR] && Sector(x, 0) == x[..SECTOR] && Sector(y, 0) == y[..SECTOR];
    assert image == image[..SECTOR] + image[SECTOR..];
    assert x == x[..SECTOR] + x[SECTOR..] && y == y[..SECTOR] + y[SECTOR..];
    assert image[SECTOR..] == x[SECTOR..] && image[SECTOR..] == y[SECTOR..];
  }

  // The code

  lemma SumSlice(s: seq<Byte>, lo: nat, i: nat)
    requires lo <= i < |s|
    ensures Sum(s[lo..lo]) == 0
    ensures Sum(s[lo..i + 1]) == Sum(s[lo..i]) + s[i]
  {
    assert s[lo..i + 1][..i - lo] == s[lo..i];
  }

  lemma WrappedStep(sum: nat, x: nat)
    ensures (sum % U32 + x) % U32 == (sum + x) % U32
  {
  }

  method ComputeChecksum(page: array<Byte>) returns (checksum: nat)
    requires page.Length == PAGE_SIZE
    ensures checksum == Checksum(page[..])
  {
    hide Sum;
    ghost var s := page[..];
    checksum := 0;
    SumSlice(s, 0, 0);
    for i := 0 to 4
      invariant checksum == Sum(s[0..i]) % U32
    {
      SumSlice(s, 0, i);
      WrappedStep(Sum(s[0..i]), page[i]);
      checksum := (checksum + page[i]) % U32;
    }
    assert s[0..4] == s[..4];
    SumSlice(s, 8, 8);
    for i := 8 to PAGE_SIZE
      invariant checksum == (Sum(s[..4]) + Sum(s[8..i])) % U32
    {
      SumSlice(s, 8, i);
      WrappedStep(Sum(s[..4]) + Sum(s[8..i]), page[i]);
      checksum := (checksum + page[i]) % U32;
    }
    assert s[8..PAGE_SIZE] == s[8..];
  }

  function Splice(base: seq<Byte>, at: nat, s: seq<Byte>): seq<Byte>
    requires at + |s| <= |base|
  {
    base[..at] + s + base[at + |s|..]
  }

  lemma SpliceEnd(head: seq<Byte>, n: nat, s: seq<Byte>)
    requires |s| <= n
    ensures Splice(head + Zeros(n), |head|, s) == head + s + Zeros(n - |s|)
  {
  }

  method CopyAt(page: array<Byte>, at: nat, s: seq<Byte>)
    requires at + |s| <= page.Length
    modifies page
    ensures page[..] == Splice(old(page[..]), at, s)
  {
    forall i | 0 <= i < |s| {
      page[at + i] := s[i];
    }
  }

  /** The header and body as `make_page` copies them in, checksum bytes still zero. */
  lemma LaidOut(t: seq<Byte>, id: seq<Byte>, next: seq<Byte>, body: seq<Byte>)
    requires |t| == |id| == |next| == 4 && |body| <= PAGE_BODY_SIZE
    ensures Splice(Splice(Splice(Splice(Zeros(PAGE_SIZE), 0, t), 8, id), 12, next), 16, body)
         == t + Zeros(4) + (id + next + (body + Zeros(PAGE_BODY_SIZE - |body|)))
  {
    var p1 := Splice(Zeros(PAGE_SIZE), 0, t);
    assert p1 == t + Zeros(4) + Zeros(PAGE_SIZE - 8);
    SpliceEnd(t + Zeros(4), PAGE_SIZE - 8, id);
    SpliceEnd(t + Zeros(4) + id, PAGE_SIZE - 12, next);
    SpliceEnd(t + Zeros(4) + id + next, PAGE_BODY_SIZE, body);
  }

  lemma Stamped(t: seq<Byte>, rest: seq<Byte>, sum: seq<Byte>)
    requires |t| == |sum| == 4 && |rest| == PAGE_SIZE - 8
    ensures (t + Zeros(4) + rest)[..4] == t && (t + Zeros(4) + rest)[8..] == rest
    ensures Splice(t + Zeros(4) + rest, 4, sum) == t + sum + rest
  {
  }

  method LayOut(page: array<Byte>, t: seq<Byte>, id: seq<Byte>, next: seq<Byte>, body: seq<Byte>)
    requires page.Length == PAGE_SIZE && page[..] == Zeros(PAGE_SIZE)
    requires |t| == |id| == |next| == 4 && |body| <= PAGE_BODY_SIZE
    modifies page
    ensures page[..] == t + Zeros(4) + (id + next + (body + Zeros(PAGE_BODY_SIZE - |body|)))
  {
    CopyAt(page, 0, t);
    CopyAt(page, 8, id);
    CopyAt(page, 12, next);
    CopyAt(page, PAGE_HEADER_SIZE, body);
    LaidOut(t, id, next, body);
  }

  method StampChecksum(page: array<Byte>, ghost t: seq<Byte>, ghost rest: seq<Byte>)
    requires |t| == 4 && |rest| == PAGE_SIZE - 8
    requires page.Length == PAGE_SIZE && page[..] == t + Zeros(4) + rest
    modifies page
    ensures page[..] == t + LE((Sum(t) + Sum(rest)) % U32, 4) + rest
  {
    var checksum := ComputeChecksum(page);
    var bytes := LE(checksum, 4);
    Stamped(t, rest, bytes);
    CopyAt(page, 4, bytes);
  }

  method MakePage(ptype: nat, id: nat, next: nat, body: seq<Byte>) returns (page: array<Byte>)
    ensures fresh(page) && page[..] == PageBytes(Page(ptype, id, next, body))
  {
    page := new Byte[PAGE_SIZE](_ => 0);
    var t, idBytes, nextBytes := LE(ptype, 4), LE(id, 4), LE(next, 4);
    var copied := if |body| <= PAGE_BODY_SIZE then body else body[..PAGE_BODY_SIZE];
    LayOut(page, t, idBytes, nextBytes, copied);
    StampChecksum(page, t, idBytes + nextBytes + Pad(body));
  }
}
