/** Byte strings stored as chains of pages: how every chain writer links its
    pages, and what the cycle-guarded readers collect when they follow them. */
module PageChain {
  import opened Bytes
  import opened PageFormat

  /** The pages of a file by id; `None` is a page whose checksum fails. */
  type File = seq<Option<Page>>

  /** `bytes.chunks(size)`. */
  function Chunks(bytes: seq<Byte>, size: nat): (c: seq<seq<Byte>>)
    requires size > 0
    ensures forall i :: 0 <= i < |c| ==> 0 < |c[i]| <= size
    ensures |bytes| > 0 ==> |c| > 0
    ensures |c| <= |bytes|
  {
    if |bytes| == 0 then []
    else if |bytes| <= size then [bytes]
    else [bytes[..size]] + Chunks(bytes[size..], size)
  }

  /** The writers of whole blobs store an empty one as a single empty chunk. */
  function BlobChunks(bytes: seq<Byte>): (c: seq<seq<Byte>>)
    ensures |c| > 0 && forall i :: 0 <= i < |c| ==> |c[i]| <= PAGE_BODY_SIZE
  {
    if |bytes| == 0 then [[]] else Chunks(bytes, PAGE_BODY_SIZE)
  }

  /** Page `i` of the chain of `bodies` that starts at page id `first`. */
  function ChainPage(head: nat, tail: nat, first: nat, bodies: seq<seq<Byte>>, i: nat): Page
    requires i < |bodies|
  {
    Page(if i == 0 then head else tail, first + i, if i + 1 < |bodies| then first + i + 1 else 0, Pad(bodies[i]))
  }

  function ChainPages(head: nat, tail: nat, first: nat, bodies: seq<seq<Byte>>): (c: seq<Page>)
    ensures |c| == |bodies|
  {
    seq(|bodies|, i requires 0 <= i < |bodies| => ChainPage(head, tail, first, bodies, i))
  }

  /** The file holds that chain at `first`. */
  ghost predicate ChainAt(f: File, head: nat, tail: nat, first: nat, bodies: seq<seq<Byte>>) {
    first + |bodies| <= |f| &&
    forall i | 0 <= i < |bodies| :: f[first + i] == Some(ChainPage(head, tail, first, bodies, i))
  }

  lemma ChainKept(f: File, g: File, head: nat, tail: nat, first: nat, bodies: seq<seq<Byte>>)
    requires ChainAt(f, head, tail, first, bodies)
    requires first + |bodies| <= |g| && forall i | first <= i < first + |bodies| :: g[i] == f[i]
    ensures ChainAt(g, head, tail, first, bodies)
  {
  }

  datatype Chain = Chain(head: nat, tail: nat, first: nat, bodies: seq<seq<Byte>>)

  ghost predicate Holds(f: File, c: Chain) {
    3 <= c.first && ChainAt(f, c.head, c.tail, c.first, c.bodies)
  }

  ghost predicate HoldsAll(f: File, chains: set<Chain>) {
    forall c | c in chains :: Holds(f, c)
  }

  /** The file holds the chains, on its first `n` pages. */
  ghost predicate Within(f: File, n: nat, chains: set<Chain>) {
    forall c | c in chains :: Holds(f, c) && c.first + |c.bodies| <= n
  }

  lemma WithinKept(f: File, g: File, n: nat, chains: set<Chain>)
    requires Within(f, n, chains) && n <= |f| && n <= |g| && forall i | 3 <= i < n :: g[i] == f[i]
    ensures Within(g, n, chains)
  {
    forall c | c in chains ensures Holds(g, c) && c.first + |c.bodies| <= n {
      ChainKept(f, g, c.head, c.tail, c.first, c.bodies);
    }
  }

  /** What the readers' loops collect: the bodies of the pages met from `id` on.
      `want` is the page type the next page must have, `tail` the type after it. */
  function Follow(f: File, want: nat, tail: nat, id: nat, visited: set<int>): (r: Result<seq<seq<Byte>>>)
    decreases UpTo(|f|) - visited
  {
    if id in visited || id >= |f| || f[id].None? then Err
    else
      var page := f[id].value;
      if page.ptype != want || page.id != id then Err
      else if page.next == 0 then Ok([page.body])
      else
        assert id in UpTo(|f|) - visited;
        match Follow(f, tail, tail, page.next, visited + {id})
        case Err => Err
        case Ok(more) => Ok([page.body] + more)
  }

  function Padded(bodies: seq<seq<Byte>>): (p: seq<seq<Byte>>)
    ensures |p| == |bodies|
  {
    seq(|bodies|, i requires 0 <= i < |bodies| => Pad(bodies[i]))
  }

  lemma {:induction false} FollowFrom(f: File, head: nat, tail: nat, first: nat, bodies: seq<seq<Byte>>, i: nat, visited: set<int>)
    requires first > 0 && ChainAt(f, head, tail, first, bodies) && i < |bodies|
    requires forall v | v in visited :: v < first + i
    ensures Follow(f, if i == 0 then head else tail, tail, first + i, visited) == Ok(Padded(bodies)[i..])
    decreases |bodies| - i
  {
    assert f[first + i] == Some(ChainPage(head, tail, first, bodies, i));
    if i + 1 < |bodies| {
      FollowFrom(f, head, tail, first, bodies, i + 1, visited + {first + i});
      assert Padded(bodies)[i..] == [Pad(bodies[i])] + Padded(bodies)[i + 1..];
    } else {
      assert Padded(bodies)[i..] == [Pad(bodies[i])];
    }
  }

  /** Following a written chain from its head gives back its bodies, padded. */
  lemma {:induction false} FollowChain(f: File, head: nat, tail: nat, first: nat, bodies: seq<seq<Byte>>)
    requires first > 0 && |bodies| > 0 && ChainAt(f, head, tail, first, bodies)
    ensures Follow(f, head, tail, first, {}) == Ok(Padded(bodies))
  {
    FollowFrom(f, head, tail, first, bodies, 0, {});
  }

  function Concat(xs: seq<seq<Byte>>): seq<Byte> {
    if |xs| == 0 then [] else xs[0] + Concat(xs[1..])
  }

  lemma {:induction false} ConcatChunks(bytes: seq<Byte>, size: nat)
    requires size > 0
    ensures Concat(Chunks(bytes, size)) == bytes
  {
    if |bytes| > size {
      ConcatChunks(bytes[size..], size);
      assert Chunks(bytes, size)[1..] == Chunks(bytes[size..], size);
    } else if |bytes| > 0 {
      assert Chunks(bytes, size)[1..] == [];
    }
  }

  /** Only the last page of a blob's chain is padded, so the blob reads back with zeros behind it. */
  lemma {:induction false} PaddedChunks(bytes: seq<Byte>)
    requires |bytes| > 0
    ensures exists n: nat :: Concat(Padded(Chunks(bytes, PAGE_BODY_SIZE))) == bytes + Zeros(n)
  {
    var c := Chunks(bytes, PAGE_BODY_SIZE);
    if |bytes| <= PAGE_BODY_SIZE {
      assert Padded(c) == [Pad(bytes)] && Padded(c)[1..] == [];
      assert Concat(Padded(c)) == Pad(bytes);
      assert Pad(bytes) == bytes + Zeros(PAGE_BODY_SIZE - |bytes|);
    } else {
      var rest := bytes[PAGE_BODY_SIZE..];
      PaddedChunks(rest);
      var n: nat :| Concat(Padded(Chunks(rest, PAGE_BODY_SIZE))) == rest + Zeros(n);
      assert c[1..] == Chunks(rest, PAGE_BODY_SIZE);
      assert Padded(c)[1..] == Padded(Chunks(rest, PAGE_BODY_SIZE));
      assert Padded(c)[0] == Pad(bytes[..PAGE_BODY_SIZE]) == bytes[..PAGE_BODY_SIZE];
      assert bytes[..PAGE_BODY_SIZE] + (rest + Zeros(n)) == bytes + Zeros(n);
    }
  }

  lemma BlobReadsBack(bytes: seq<Byte>)
    ensures exists n: nat :: Concat(Padded(BlobChunks(bytes))) == bytes + Zeros(n)
  {
    if |bytes| == 0 {
      assert Padded([[]]) == [Pad([])] && Padded([[]])[1..] == [];
      assert Concat(Padded([[]])) == Pad([]) == bytes + Zeros(PAGE_BODY_SIZE);
    } else {
      PaddedChunks(bytes);
    }
  }

  lemma {:induction false} ConcatAppend(xs: seq<seq<Byte>>, y: seq<Byte>)
    ensures Concat(xs + [y]) == Concat(xs) + y
  {
    if |xs| == 0 {
      assert ([] + [y])[1..] == [];
      assert xs + [y] == [y];
    } else {
      assert (xs + [y])[1..] == xs[1..] + [y];
      ConcatAppend(xs[1..], y);
    }
  }

  /** The loop every chain reader runs, cycle guard included. */
  method ReadChain(f: File, head: nat, tail: nat, start: nat) returns (r: Result<seq<seq<Byte>>>)
    ensures r == Follow(f, head, tail, start, {})
  {
    var bodies := [];
    var id: nat := start;
    var visited: set<int> := {};
    var want := head;
    assert match Follow(f, head, tail, start, {}) case Err => true case Ok(more) => [] + more == more;
    while true
      invariant Follow(f, head, tail, start, {}) ==
        match Follow(f, want, tail, id, visited) case Err => Err case Ok(more) => Ok(bodies + more)
      decreases UpTo(|f|) - visited
    {
      if id in visited || id >= |f| || f[id].None? {
        return Err;
      }
      var page := f[id].value;
      if page.ptype != want || page.id != id {
        return Err;
      }
      assert id in UpTo(|f|) - visited;
      ghost var more := Follow(f, tail, tail, page.next, visited + {id});
      if page.next == 0 {
        return Ok(bodies + [page.body]);
      }
      assert more.Ok? ==> bodies + ([page.body] + more.value) == (bodies + [page.body]) + more.value;
      bodies := bodies + [page.body];
      visited := visited + {id};
      id := page.next;
      want := tail;
    }
  }
}
