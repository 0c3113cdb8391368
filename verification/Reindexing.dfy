/** Reindexing as values: what one file of `reindex_paths` does to the documents, the
    noted hashes and the map of paths, and what any number of files do. */
module Reindexing {
  import opened Bytes
  import opened StoreContents
  import BC = BlockCodec
  import CC = CatalogCodec
  import SI = SecondaryIndexes

  type Text = seq<Byte>

  /** What parsing a Markdown source for some document id gives. */
  datatype ParsedDoc = ParsedDoc(blocks: seq<BC.Block>, zoneMap: seq<Byte>, index: SI.DocumentIndex)

  type Source = Result<nat -> ParsedDoc>

  function NewDoc(id: nat, path: Option<Text>, p: ParsedDoc): Doc {
    Doc(id, path, p.blocks, p.zoneMap, p.index, 0, 0)
  }

  /** Same document, wherever its chains are. */
  predicate SameDoc(a: Doc, b: Doc) {
    a.id == b.id && a.path == b.path && a.blocks == b.blocks && a.zoneMap == b.zoneMap && a.index == b.index
  }

  /** A file given to `reindex_paths`: its path, and hash and source if it could be read. */
  datatype IndexedFile = IndexedFile(path: Text, content: Option<(nat, Source)>)

  /** What `reindex_paths` reports of a file. */
  datatype FileFate = Failed | Unchanged | Updated | Added

  /** The report: what became of each file, and the paths pruned. */
  datatype ReindexReport = ReindexReport(files: seq<FileFate>, removed: seq<Text>)

  predicate Took(fate: FileFate) { fate.Updated? || fate.Added? }

  /** The document was built from the file. */
  ghost predicate Stores(d: Doc, f: IndexedFile) {
    f.content.Some? && f.content.value.1.Ok? &&
    SameDoc(d, NewDoc(d.id, Some(f.path), f.content.value.1.value(d.id)))
  }

  ghost predicate IsStored(documents: seq<Doc>, f: IndexedFile) {
    exists i :: 0 <= i < |documents| && Stores(documents[i], f)
  }

  /** File `j` was taken in, and no later one of the first `k` at the same path. */
  predicate Latest(files: seq<IndexedFile>, fates: seq<FileFate>, j: nat, k: nat)
    requires j < k <= |files| && k <= |fates|
  {
    Took(fates[j]) && forall m | j < m < k && files[m].path == files[j].path :: !Took(fates[m])
  }

  /** Whatever id its document gets, the file is within the length-prefix bounds. */
  ghost predicate FileSized(f: IndexedFile) {
    f.content.Some? ==>
      f.content.value.0 < Pow256(8) &&
      (f.content.value.1.Ok? ==>
        forall id | CC.IsU32(id) :: DocSized(NewDoc(id, Some(f.path), f.content.value.1.value(id))))
  }

  function PathsOf(files: seq<IndexedFile>): set<Text> {
    set i | 0 <= i < |files| :: files[i].path
  }

  /** It could be read, and parsed. */
  predicate CanBeRead(f: IndexedFile) { f.content.Some? && f.content.value.1.Ok? }

  // One file

  /** Documents, noted hashes, the next id, and where the paths are: id and position. */
  datatype Ix = Ix(documents: seq<Doc>, hashes: map<nat, nat>, next: nat, byPath: map<Text, (nat, nat)>)

  /** Document `i` is the last one at the path. */
  predicate LastAt(documents: seq<Doc>, path: Text, i: nat) {
    i < |documents| && documents[i].path == Some(path) && forall k | i < k < |documents| :: documents[k].path != Some(path)
  }

  /** The map has exactly the paths of documents, with the id and position of the last one there. */
  ghost predicate Locates(documents: seq<Doc>, byPath: map<Text, (nat, nat)>) {
    (forall p | p in byPath :: LastAt(documents, p, byPath[p].1) && documents[byPath[p].1].id == byPath[p].0) &&
    forall i | 0 <= i < |documents| && documents[i].path.Some? :: documents[i].path.value in byPath
  }

  /** The map knows the path, and the file's hash is the one noted. */
  predicate Recognised(x: Ix, f: IndexedFile) {
    f.content.Some? && f.path in x.byPath && x.byPath[f.path].0 in x.hashes &&
    x.hashes[x.byPath[f.path].0] == f.content.value.0
  }

  /** What becomes of everything by what is reported of a file. */
  ghost predicate IndexStep(a: Ix, f: IndexedFile, fate: FileFate, b: Ix) {
    match fate
    case Failed => b == a.(next := b.next) && a.next <= b.next <= a.next + 1 && !Recognised(a, f)
    case Unchanged => b == a && Recognised(a, f)
    case Updated =>
      !Recognised(a, f) && f.path in a.byPath && a.byPath[f.path].1 < |a.documents| == |b.documents| &&
      var (id, at) := a.byPath[f.path];
      b == a.(documents := a.documents[at := b.documents[at]], hashes := b.hashes) &&
      Stores(b.documents[at], f) && b.documents[at].id == id && b.hashes == a.hashes[id := f.content.value.0]
    case Added =>
      f.path !in a.byPath && |b.documents| == |a.documents| + 1 &&
      var d := b.documents[|a.documents|];
      Stores(d, f) && d.id == a.next &&
      b == Ix(a.documents + [d], a.hashes[a.next := f.content.value.0], a.next + 1, a.byPath[f.path := (a.next, |a.documents|)])
  }

  /** All ids differ, and the next one is above them. */
  ghost predicate IdsApart(documents: seq<Doc>, next: nat) {
    (forall i | 0 <= i < |documents| :: documents[i].id < next) &&
    forall i, j | 0 <= i < j < |documents| :: documents[i].id != documents[j].id
  }

  /** No two documents share a path. */
  predicate PathsApart(documents: seq<Doc>) {
    forall i, j | 0 <= i < j < |documents| && documents[i].path.Some? :: documents[i].path != documents[j].path
  }

  lemma OneMoreLocated(documents: seq<Doc>, d: Doc, byPath: map<Text, (nat, nat)>)
    requires Locates(documents, byPath) && d.path.Some?
    ensures Locates(documents + [d], byPath[d.path.value := (d.id, |documents|)])
  {
    var (more, now) := (documents + [d], byPath[d.path.value := (d.id, |documents|)]);
    forall p | p in now ensures LastAt(more, p, now[p].1) && more[now[p].1].id == now[p].0 {
      if p != d.path.value {
        assert LastAt(documents, p, byPath[p].1);
      }
    }
  }

  lemma NoneMoreLocated(documents: seq<Doc>, d: Doc, byPath: map<Text, (nat, nat)>)
    requires Locates(documents, byPath) && d.path.None?
    ensures Locates(documents + [d], byPath)
  {
    forall p | p in byPath ensures LastAt(documents + [d], p, byPath[p].1) {
      assert LastAt(documents, p, byPath[p].1);
    }
  }

  /** What a step leaves alone: ids and paths in place, documents at other paths, and their hashes. */
  lemma StepKeepsOthers(a: Ix, f: IndexedFile, fate: FileFate, b: Ix)
    requires IndexStep(a, f, fate, b) && Locates(a.documents, a.byPath)
    ensures |a.documents| <= |b.documents| <= |a.documents| + 1 && a.next <= b.next <= a.next + 1
    ensures |b.hashes| <= |a.hashes| + 1
    ensures forall i | 0 <= i < |a.documents| ::
      b.documents[i].id == a.documents[i].id && b.documents[i].path == a.documents[i].path &&
      (a.documents[i].path != Some(f.path) ==> b.documents[i] == a.documents[i])
    ensures forall i | |a.documents| <= i < |b.documents| :: b.documents[i].path == Some(f.path)
    ensures Took(fate) ==> IsStored(b.documents, f)
    ensures !Took(fate) ==> b.documents == a.documents && b.hashes == a.hashes
  {
  }

  lemma StepLocates(a: Ix, f: IndexedFile, fate: FileFate, b: Ix)
    requires IndexStep(a, f, fate, b) && Locates(a.documents, a.byPath)
    ensures Locates(b.documents, b.byPath)
  {
    StepKeepsOthers(a, f, fate, b);
    if fate.Added? {
      var n := |a.documents|;
      forall p | p in b.byPath ensures LastAt(b.documents, p, b.byPath[p].1) && b.documents[b.byPath[p].1].id == b.byPath[p].0 {
        if p != f.path {
          assert LastAt(a.documents, p, a.byPath[p].1);
        }
      }
    } else if fate.Updated? {
      forall p | p in b.byPath ensures LastAt(b.documents, p, b.byPath[p].1) && b.documents[b.byPath[p].1].id == b.byPath[p].0 {
        assert LastAt(a.documents, p, a.byPath[p].1);
      }
    }
  }

  lemma StepKeepsApart(a: Ix, f: IndexedFile, fate: FileFate, b: Ix)
    requires IndexStep(a, f, fate, b) && Locates(a.documents, a.byPath)
    ensures IdsApart(a.documents, a.next) ==> IdsApart(b.documents, b.next)
    ensures PathsApart(a.documents) ==> PathsApart(b.documents)
  {
    StepKeepsOthers(a, f, fate, b);
  }

  // Any number of files

  ghost predicate IndexRun(xs: seq<Ix>, files: seq<IndexedFile>, fates: seq<FileFate>) {
    |xs| == |fates| + 1 && |fates| <= |files| && Locates(xs[0].documents, xs[0].byPath) &&
    forall k | 0 <= k < |fates| :: IndexStep(xs[k], files[k], fates[k], xs[k + 1])
  }

  lemma {:induction false} RunLocates(xs: seq<Ix>, files: seq<IndexedFile>, fates: seq<FileFate>, k: nat)
    requires IndexRun(xs, files, fates) && k < |xs|
    ensures Locates(xs[k].documents, xs[k].byPath)
    ensures |xs[0].documents| <= |xs[k].documents| <= |xs[0].documents| + k && xs[k].next <= xs[0].next + k
    ensures |xs[k].hashes| <= |xs[0].hashes| + k
  {
    hide IndexStep, Locates;
    if k > 0 {
      RunLocates(xs, files, fates, k - 1);
      StepLocates(xs[k - 1], files[k - 1], fates[k - 1], xs[k]);
      StepKeepsOthers(xs[k - 1], files[k - 1], fates[k - 1], xs[k]);
    }
  }

  lemma RunGrows(xs: seq<Ix>, files: seq<IndexedFile>, fates: seq<FileFate>, fate: FileFate, x: Ix)
    requires IndexRun(xs, files, fates) && |fates| < |files| && IndexStep(xs[|fates|], files[|fates|], fate, x)
    ensures IndexRun(xs + [x], files, fates + [fate])
  {
    hide IndexStep, Locates;
    var (ys, more) := (xs + [x], fates + [fate]);
    forall k | 0 <= k < |more| ensures IndexStep(ys[k], files[k], more[k], ys[k + 1]) {
      if k < |fates| {
        assert ys[k] == xs[k] && ys[k + 1] == xs[k + 1];
      }
    }
  }

  lemma {:induction false} RunKeeps(xs: seq<Ix>, files: seq<IndexedFile>, fates: seq<FileFate>, k: nat)
    requires IndexRun(xs, files, fates) && k < |xs|
    ensures KeptUnless(xs[0].documents, xs[k].documents, PathsOf(files[..k]))
    ensures NewAt(xs[k].documents, |xs[0].documents|, PathsOf(files[..k]))
    ensures TakenIn(files, fates, k, xs[k].documents)
  {
    hide IndexStep, Locates, KeptUnless, NewAt, TakenIn, PathsOf;
    if k == 0 {
      NoPaths();
      NoneNew(files, fates, xs[0].documents);
      assert files[..0] == [];
    } else {
      RunKeeps(xs, files, fates, k - 1);
      RunLocates(xs, files, fates, k - 1);
      var (a, b, f) := (xs[k - 1], xs[k], files[k - 1]);
      StepKeepsOthers(a, f, fates[k - 1], b);
      PathsGrow(files, k - 1);
      KeptSize(xs[0].documents, a.documents, PathsOf(files[..k - 1]));
      StillNew(a.documents, b.documents, |xs[0].documents|, PathsOf(files[..k - 1]), f.path);
      StillKept(xs[0].documents, a.documents, b.documents, PathsOf(files[..k - 1]), f.path);
      OneMoreTaken(files, fates, k - 1, a.documents, b.documents);
    }
  }

  lemma {:induction false} RunKeepsApart(xs: seq<Ix>, files: seq<IndexedFile>, fates: seq<FileFate>, k: nat)
    requires IndexRun(xs, files, fates) && k < |xs|
    ensures IdsApart(xs[0].documents, xs[0].next) ==> IdsApart(xs[k].documents, xs[k].next)
    ensures PathsApart(xs[0].documents) ==> PathsApart(xs[k].documents)
  {
    hide IndexStep, Locates, IdsApart, PathsApart;
    if k > 0 {
      RunKeepsApart(xs, files, fates, k - 1);
      RunLocates(xs, files, fates, k - 1);
      StepKeepsApart(xs[k - 1], files[k - 1], fates[k - 1], xs[k]);
    }
  }

  ghost predicate KnownPath(documents: seq<Doc>, path: Text) {
    exists i :: 0 <= i < |documents| && documents[i].path == Some(path)
  }

  /** A file at the path of a stored document is never added. */
  lemma KnownIsNotAdded(xs: seq<Ix>, files: seq<IndexedFile>, fates: seq<FileFate>, k: nat)
    requires IndexRun(xs, files, fates) && k < |fates| && KnownPath(xs[0].documents, files[k].path)
    ensures !fates[k].Added?
  {
    RunLocates(xs, files, fates, k);
    RunKeeps(xs, files, fates, k);
    var i :| 0 <= i < |xs[0].documents| && xs[0].documents[i].path == Some(files[k].path);
    assert xs[k].documents[i].path == Some(files[k].path);
    assert IndexStep(xs[k], files[k], fates[k], xs[k + 1]);
  }

  /** The last document at the file's path has the file's hash noted. */
  ghost predicate NotedIn(documents: seq<Doc>, hashes: map<nat, nat>, f: IndexedFile) {
    f.content.Some? && exists i: nat ::
      LastAt(documents, f.path, i) && documents[i].id in hashes && hashes[documents[i].id] == f.content.value.0
  }

  /** No file before the `k`-th is at its path. */
  predicate FirstThere(files: seq<IndexedFile>, k: nat)
    requires k < |files|
  {
    forall m | 0 <= m < k :: files[m].path != files[k].path
  }

  predicate LastThere(files: seq<IndexedFile>, k: nat)
    requires k < |files|
  {
    forall m | k < m < |files| :: files[m].path != files[k].path
  }

  lemma NotedIsRecognised(x: Ix, f: IndexedFile)
    requires Locates(x.documents, x.byPath)
    ensures NotedIn(x.documents, x.hashes, f) <==> Recognised(x, f)
  {
    if NotedIn(x.documents, x.hashes, f) {
      var i: nat :| LastAt(x.documents, f.path, i) && x.documents[i].id in x.hashes && x.hashes[x.documents[i].id] == f.content.value.0;
      assert f.path in x.byPath && LastAt(x.documents, f.path, x.byPath[f.path].1);
    }
  }

  lemma LastStays(had: seq<Doc>, now: seq<Doc>, path: Text, i: nat)
    requires |had| <= |now| && LastAt(had, path, i) && forall k | 0 <= k < |had| :: now[k].path == had[k].path
    requires forall k | |had| <= k < |now| :: now[k].path != Some(path)
    ensures LastAt(now, path, i)
  {
  }

  /** The hashes noted under other ids stay. */
  lemma StepKeepsHashes(a: Ix, f: IndexedFile, fate: FileFate, b: Ix, i: nat)
    requires IndexStep(a, f, fate, b) && Locates(a.documents, a.byPath) && IdsApart(a.documents, a.next)
    requires i < |a.documents| && a.documents[i].path != Some(f.path) && a.documents[i].id in a.hashes
    ensures a.documents[i].id in b.hashes && b.hashes[a.documents[i].id] == a.hashes[a.documents[i].id]
  {
    hide Stores;
    if fate.Updated? {
      assert LastAt(a.documents, f.path, a.byPath[f.path].1);
      assert a.byPath[f.path].1 != i;
    }
  }

  /** Files at other paths do not change whether a hash is noted. */
  lemma StepKeepsNoted(a: Ix, f: IndexedFile, fate: FileFate, b: Ix, other: IndexedFile)
    requires IndexStep(a, f, fate, b) && Locates(a.documents, a.byPath) && IdsApart(a.documents, a.next)
    requires other.path != f.path && NotedIn(a.documents, a.hashes, other)
    ensures NotedIn(b.documents, b.hashes, other)
  {
    hide IndexStep, Locates, IdsApart, IsStored;
    StepKeepsOthers(a, f, fate, b);
    var i: nat :| LastAt(a.documents, other.path, i) && a.documents[i].id in a.hashes && a.hashes[a.documents[i].id] == other.content.value.0;
    LastStays(a.documents, b.documents, other.path, i);
    StepKeepsHashes(a, f, fate, b, i);
  }

  lemma {:induction false} StaysNoted(xs: seq<Ix>, files: seq<IndexedFile>, fates: seq<FileFate>, j: nat, k: nat, f: IndexedFile)
    requires IndexRun(xs, files, fates) && j <= k < |xs| && IdsApart(xs[0].documents, xs[0].next)
    requires NotedIn(xs[j].documents, xs[j].hashes, f) && forall m | j <= m < k :: files[m].path != f.path
    ensures NotedIn(xs[k].documents, xs[k].hashes, f)
    decreases k - j
  {
    hide IndexStep, Locates, IdsApart, NotedIn;
    if j < k {
      StaysNoted(xs, files, fates, j, k - 1, f);
      RunLocates(xs, files, fates, k - 1);
      RunKeepsApart(xs, files, fates, k - 1);
      StepKeepsNoted(xs[k - 1], files[k - 1], fates[k - 1], xs[k], f);
    }
  }

  /** A file whose hash is noted when reindexing begins, and that is the first at its path,
      is reported unchanged. */
  lemma NotedIsUnchanged(xs: seq<Ix>, files: seq<IndexedFile>, fates: seq<FileFate>, k: nat)
    requires IndexRun(xs, files, fates) && k < |fates| && IdsApart(xs[0].documents, xs[0].next)
    requires NotedIn(xs[0].documents, xs[0].hashes, files[k]) && FirstThere(files, k)
    ensures fates[k].Unchanged?
  {
    hide Locates, IdsApart, NotedIn;
    StaysNoted(xs, files, fates, 0, k, files[k]);
    RunLocates(xs, files, fates, k);
    NotedIsRecognised(xs[k], files[k]);
    assert IndexStep(xs[k], files[k], fates[k], xs[k + 1]);
  }

  lemma StepNotes(a: Ix, f: IndexedFile, fate: FileFate, b: Ix)
    requires IndexStep(a, f, fate, b) && Locates(a.documents, a.byPath) && !fate.Failed?
    ensures NotedIn(b.documents, b.hashes, f)
  {
    hide SameDoc, NotedIn, Locates;
    StepLocates(a, f, fate, b);
    NotedIsRecognised(b, f);
    NotedIsRecognised(a, f);
  }

  /** And the hash of a file that did not fail, and is the last at its path, is noted when it ends. */
  lemma IndexedIsNoted(xs: seq<Ix>, files: seq<IndexedFile>, fates: seq<FileFate>, k: nat)
    requires IndexRun(xs, files, fates) && k < |fates| == |files| && IdsApart(xs[0].documents, xs[0].next)
    requires !fates[k].Failed? && LastThere(files, k)
    ensures NotedIn(xs[|files|].documents, xs[|files|].hashes, files[k])
  {
    hide Locates, IdsApart, NotedIn, IndexStep;
    RunLocates(xs, files, fates, k);
    StepNotes(xs[k], files[k], fates[k], xs[k + 1]);
    StaysNoted(xs, files, fates, k + 1, |files|, files[k]);
  }

  // Pruning

  predicate Stays(d: Doc, seen: set<Text>) {
    d.path.Some? ==> d.path.value in seen
  }

  /** The documents pruning keeps. */
  function Pruned(documents: seq<Doc>, seen: set<Text>): seq<Doc> {
    if |documents| == 0 then []
    else (if Stays(documents[0], seen) then [documents[0]] else []) + Pruned(documents[1..], seen)
  }

  /** The paths of the others, from the back. */
  function PathsPruned(documents: seq<Doc>, seen: set<Text>): seq<Text> {
    if |documents| == 0 then []
    else PathsPruned(documents[1..], seen) + (if Stays(documents[0], seen) then [] else [documents[0].path.value])
  }

  lemma {:induction false} PrunedNone(seen: set<Text>)
    ensures Pruned([], seen) == [] && PathsPruned([], seen) == []
  {
  }

  /** Documents that stand behind the old ones are at paths seen. */
  predicate NewAt(documents: seq<Doc>, n: nat, seen: set<Text>) {
    forall i | n <= i < |documents| :: Stays(documents[i], seen)
  }

  lemma NoneNew(files: seq<IndexedFile>, fates: seq<FileFate>, documents: seq<Doc>)
    ensures NewAt(documents, |documents|, {}) && KeptUnless(documents, documents, {}) && TakenIn(files, fates, 0, documents)
  {
  }

  lemma AllTaken(files: seq<IndexedFile>, fates: seq<FileFate>, documents: seq<Doc>)
    requires |fates| == |files| && TakenIn(files, fates, |files|, documents)
    ensures forall j: nat | j < |files| && Latest(files, fates, j, |files|) :: IsStored(documents, files[j])
  {
  }

  lemma StillNew(had: seq<Doc>, now: seq<Doc>, n: nat, seen: set<Text>, path: Text)
    requires NewAt(had, n, seen) && |had| <= |now| && forall i | 0 <= i < |had| :: now[i].path == had[i].path
    requires forall i | |had| <= i < |now| :: now[i].path == Some(path)
    ensures NewAt(now, n, seen + {path})
  {
    forall i | n <= i < |now| ensures Stays(now[i], seen + {path}) {
      assert i < |had| ==> Stays(had[i], seen);
    }
  }

  lemma {:induction false} NoneDropped(documents: seq<Doc>, seen: set<Text>)
    requires NewAt(documents, 0, seen)
    ensures PathsPruned(documents, seen) == []
  {
    if |documents| > 0 {
      NoneDropped(documents[1..], seen);
    }
  }

  /** What indexing does to the documents does not change which paths are pruned. */
  lemma {:induction false} SameDropped(before: seq<Doc>, after: seq<Doc>, seen: set<Text>)
    requires KeptUnless(before, after, seen) && NewAt(after, |before|, seen)
    ensures PathsPruned(after, seen) == PathsPruned(before, seen)
  {
    if |before| == 0 {
      NoneDropped(after, seen);
    } else {
      SameDropped(before[1..], after[1..], seen);
    }
  }

  /** The pruned paths are those of the documents that do not stay. */
  lemma {:induction false} PathsPrunedIff(documents: seq<Doc>, seen: set<Text>)
    ensures forall p :: p in PathsPruned(documents, seen) <==> exists d :: d in documents && d.path == Some(p) && p !in seen
  {
    if |documents| > 0 {
      PathsPrunedIff(documents[1..], seen);
      assert documents == [documents[0]] + documents[1..];
    }
  }

  lemma {:induction false} PrunedStep(documents: seq<Doc>, i: nat, seen: set<Text>)
    requires i < |documents|
    ensures documents[..i + 1] == documents[..i] + [documents[i]]
    ensures Pruned(documents[i..], seen) ==
      (if Stays(documents[i], seen) then [documents[i]] else []) + Pruned(documents[i + 1..], seen)
    ensures PathsPruned(documents[i..], seen) ==
      PathsPruned(documents[i + 1..], seen) + (if Stays(documents[i], seen) then [] else [documents[i].path.value])
  {
    assert documents[i..][1..] == documents[i + 1..];
  }

  lemma {:induction false} PrunedIff(documents: seq<Doc>, seen: set<Text>)
    ensures forall d :: d in Pruned(documents, seen) <==> d in documents && Stays(d, seen)
  {
    if |documents| > 0 {
      PrunedIff(documents[1..], seen);
      assert documents == [documents[0]] + documents[1..];
    }
  }

  lemma PathsGrow(files: seq<IndexedFile>, k: nat)
    requires k < |files|
    ensures PathsOf(files[..k + 1]) == PathsOf(files[..k]) + {files[k].path}
  {
    forall p | p in PathsOf(files[..k]) + {files[k].path} ensures p in PathsOf(files[..k + 1]) {
      if p == files[k].path {
        assert files[..k + 1][k].path == p;
      } else {
        var i :| 0 <= i < k && files[..k][i].path == p;
        assert files[..k + 1][i].path == p;
      }
    }
  }

  lemma NoPaths()
    ensures PathsOf([]) == {}
  {
  }

  /** Old documents keep their paths, and all they have unless they are at a path seen. */
  predicate KeptUnless(before: seq<Doc>, after: seq<Doc>, seen: set<Text>) {
    |before| <= |after| && forall i | 0 <= i < |before| ::
      (after[i].path == before[i].path && (before[i].path.None? || before[i].path.value !in seen ==> after[i] == before[i]))
  }

  lemma KeptSize(before: seq<Doc>, after: seq<Doc>, seen: set<Text>)
    requires KeptUnless(before, after, seen)
    ensures |before| <= |after|
  {
  }

  lemma StillKept(before: seq<Doc>, had: seq<Doc>, now: seq<Doc>, seen: set<Text>, path: Text)
    requires KeptUnless(before, had, seen) && |had| <= |now|
    requires forall i | 0 <= i < |had| ::
      now[i].id == had[i].id && now[i].path == had[i].path && (had[i].path != Some(path) ==> now[i] == had[i])
    ensures KeptUnless(before, now, seen + {path})
  {
  }

  lemma KeptAreThere(before: seq<Doc>, after: seq<Doc>, seen: set<Text>)
    requires KeptUnless(before, after, seen)
    ensures forall d | d in before && (d.path.Some? ==> d.path.value !in seen) :: d in after
  {
  }

  /** Of the first `k` files, those taken in and not since replaced are stored. */
  ghost predicate TakenIn(files: seq<IndexedFile>, fates: seq<FileFate>, k: nat, documents: seq<Doc>)
    requires k <= |files| && k <= |fates|
  {
    forall j: nat | j < k && Latest(files, fates, j, k) :: IsStored(documents, files[j])
  }

  lemma OneMoreTaken(files: seq<IndexedFile>, fates: seq<FileFate>, k: nat, had: seq<Doc>, now: seq<Doc>)
    requires k < |fates| <= |files| && TakenIn(files, fates, k, had) && |had| <= |now|
    requires forall i | 0 <= i < |had| :: had[i].path != Some(files[k].path) ==> now[i] == had[i]
    requires !Took(fates[k]) ==> now == had
    requires Took(fates[k]) ==> IsStored(now, files[k])
    ensures TakenIn(files, fates, k + 1, now)
  {
    forall j: nat | j < k && Latest(files, fates, j, k + 1) ensures IsStored(now, files[j]) {
      assert Latest(files, fates, j, k);
      var i :| 0 <= i < |had| && Stores(had[i], files[j]);
      assert Stores(now[i], files[j]);
    }
  }

  /** Pruning spares the documents of files just seen. */
  lemma StoredStay(files: seq<IndexedFile>, all: seq<Doc>, left: seq<Doc>, seen: set<Text>)
    requires seen == PathsOf(files) && forall d | d in all && Stays(d, seen) :: d in left
    ensures forall f | f in files && IsStored(all, f) :: IsStored(left, f)
  {
    forall f | f in files && IsStored(all, f) ensures IsStored(left, f) {
      var i :| 0 <= i < |all| && Stores(all[i], f);
      var k :| 0 <= k < |files| && files[k] == f;
      assert files[k].path in seen;
      assert all[i] in left;
      var m :| 0 <= m < |left| && left[m] == all[i];
    }
  }

  /** The ids of the documents that do not stay. */
  function IdsPruned(documents: seq<Doc>, seen: set<Text>): set<nat> {
    set d | d in documents && !Stays(d, seen) :: d.id
  }

  lemma IdsPrunedNone(seen: set<Text>)
    ensures IdsPruned([], seen) == {}
  {
  }

  lemma IdsPrunedStep(documents: seq<Doc>, i: nat, seen: set<Text>)
    requires i < |documents|
    ensures IdsPruned(documents[i..], seen) ==
      IdsPruned(documents[i + 1..], seen) + (if Stays(documents[i], seen) then {} else {documents[i].id})
  {
    assert documents[i..] == [documents[i]] + documents[i + 1..];
  }

  lemma {:induction false} PrunedTwo(a: seq<Doc>, b: seq<Doc>, seen: set<Text>)
    ensures Pruned(a + b, seen) == Pruned(a, seen) + Pruned(b, seen)
  {
    if |a| == 0 {
      assert a + b == b;
    } else {
      assert (a + b)[1..] == a[1..] + b;
      PrunedTwo(a[1..], b, seen);
    }
  }

  /** Pruning keeps ids apart, and paths. */
  lemma {:induction false} PrunedApart(documents: seq<Doc>, next: nat, seen: set<Text>)
    ensures IdsApart(documents, next) ==> IdsApart(Pruned(documents, seen), next)
    ensures PathsApart(documents) ==> PathsApart(Pruned(documents, seen))
  {
    if |documents| > 0 {
      PrunedApart(documents[1..], next, seen);
      PrunedIff(documents[1..], seen);
      var (d, rest) := (documents[0], Pruned(documents[1..], seen));
      assert Pruned(documents, seen) == if Stays(d, seen) then [d] + rest else rest;
      assert forall i | 0 <= i < |rest| :: rest[i] in documents[1..];
    }
  }

  /** The last document at a path seen stays the last there. */
  lemma PrunedLast(documents: seq<Doc>, seen: set<Text>, path: Text, i: nat) returns (at: nat)
    requires LastAt(documents, path, i) && path in seen
    ensures LastAt(Pruned(documents, seen), path, at) && Pruned(documents, seen)[at] == documents[i]
  {
    hide Pruned;
    var (front, d, back) := (documents[..i], documents[i], documents[i + 1..]);
    assert documents == front + ([d] + back);
    PrunedTwo(front, [d] + back, seen);
    PrunedFirst(d, back, seen);
    PrunedIff(back, seen);
    var left := Pruned(documents, seen);
    at := |Pruned(front, seen)|;
    assert left == Pruned(front, seen) + ([d] + Pruned(back, seen));
    forall k | at < k < |left| ensures left[k].path != Some(path) {
      assert left[k] == Pruned(back, seen)[k - at - 1];
      assert left[k] in back;
      var m :| 0 <= m < |back| && back[m] == left[k];
      assert documents[i + 1 + m] == back[m];
    }
  }

  lemma PrunedFirst(d: Doc, back: seq<Doc>, seen: set<Text>)
    requires Stays(d, seen)
    ensures Pruned([d] + back, seen) == [d] + Pruned(back, seen)
  {
    assert ([d] + back)[1..] == back;
  }

  lemma OthersPruned(documents: seq<Doc>, next: nat, seen: set<Text>, i: nat)
    requires IdsApart(documents, next) && i < |documents| && Stays(documents[i], seen)
    ensures documents[i].id !in IdsPruned(documents, seen)
  {
    forall x | x in documents && !Stays(x, seen) ensures x.id != documents[i].id {
      var m :| 0 <= m < |documents| && documents[m] == x;
      assert m != i;
    }
  }

  /** What is noted of a path seen stays noted. */
  lemma PrunedNoted(documents: seq<Doc>, hashes: map<nat, nat>, next: nat, seen: set<Text>, f: IndexedFile)
    requires NotedIn(documents, hashes, f) && IdsApart(documents, next) && f.path in seen
    ensures NotedIn(Pruned(documents, seen), hashes - IdsPruned(documents, seen), f)
  {
    hide Pruned, IdsPruned, IdsApart;
    var i: nat :| LastAt(documents, f.path, i) && documents[i].id in hashes && hashes[documents[i].id] == f.content.value.0;
    var at := PrunedLast(documents, seen, f.path, i);
    OthersPruned(documents, next, seen, i);
  }

  // All of it

  /** What `reindex_paths` promises of the documents, hashes and report it returns with. */
  ghost predicate Reindexed(
    was: seq<Doc>, hadNoted: map<nat, nat>, hadNext: nat, files: seq<IndexedFile>, prune: bool, report: ReindexReport,
    now: seq<Doc>, noted: map<nat, nat>, next: nat)
  {
    |report.files| == |files| && report.removed == (if prune then PathsPruned(was, PathsOf(files)) else []) &&
    StoresAll(files, report.files, now) && KeepsOthers(was, files, prune, now) &&
    (forall k: nat | k < |files| && KnownPath(was, files[k].path) :: !report.files[k].Added?) &&
    (PathsApart(was) ==> PathsApart(now)) &&
    (IdsApart(was, hadNext) ==> IdsApart(now, next) && ReportsNoted(was, hadNoted, files, report.files) && NotesAll(files, report.files, now, noted))
  }

  /** Every file taken in last at its path is stored. */
  ghost predicate StoresAll(files: seq<IndexedFile>, fates: seq<FileFate>, now: seq<Doc>)
    requires |fates| == |files|
  {
    forall j: nat | j < |files| && Latest(files, fates, j, |files|) :: IsStored(now, files[j])
  }

  /** Documents without a path stay, those at other paths unless pruned. */
  ghost predicate KeepsOthers(was: seq<Doc>, files: seq<IndexedFile>, prune: bool, now: seq<Doc>) {
    (forall d | d in was && (d.path.Some? ==> !prune && d.path.value !in PathsOf(files)) :: d in now) &&
    (prune ==> forall d | d in now && d.path.Some? :: d.path.value in PathsOf(files))
  }

  /** Files whose hash was noted are reported unchanged. */
  ghost predicate ReportsNoted(was: seq<Doc>, hadNoted: map<nat, nat>, files: seq<IndexedFile>, fates: seq<FileFate>)
    requires |fates| == |files|
  {
    forall k: nat | k < |files| && FirstThere(files, k) && NotedIn(was, hadNoted, files[k]) :: fates[k].Unchanged?
  }

  /** Files that did not fail will be found unchanged the next time. */
  ghost predicate NotesAll(files: seq<IndexedFile>, fates: seq<FileFate>, now: seq<Doc>, noted: map<nat, nat>)
    requires |fates| == |files|
  {
    forall k: nat | k < |files| && LastThere(files, k) && !fates[k].Failed? :: NotedIn(now, noted, files[k])
  }

  lemma AllReported(xs: seq<Ix>, files: seq<IndexedFile>, fates: seq<FileFate>)
    requires |fates| == |files| && IndexRun(xs, files, fates)
    ensures forall k: nat | k < |files| && KnownPath(xs[0].documents, files[k].path) :: !fates[k].Added?
    ensures IdsApart(xs[0].documents, xs[0].next) ==>
      ReportsNoted(xs[0].documents, xs[0].hashes, files, fates) && NotesAll(files, fates, xs[|files|].documents, xs[|files|].hashes)
  {
    hide IndexRun, IdsApart, NotedIn, KnownPath, FirstThere, LastThere;
    RunSize(xs, files, fates);
    forall k: nat | k < |files| && KnownPath(xs[0].documents, files[k].path) ensures !fates[k].Added? {
      KnownIsNotAdded(xs, files, fates, k);
    }
    if IdsApart(xs[0].documents, xs[0].next) {
      forall k: nat | k < |files| && FirstThere(files, k) && NotedIn(xs[0].documents, xs[0].hashes, files[k]) ensures fates[k].Unchanged? {
        NotedIsUnchanged(xs, files, fates, k);
      }
      forall k: nat | k < |files| && LastThere(files, k) && !fates[k].Failed?
        ensures NotedIn(xs[|files|].documents, xs[|files|].hashes, files[k])
      {
        IndexedIsNoted(xs, files, fates, k);
      }
    }
  }

  lemma RunSize(xs: seq<Ix>, files: seq<IndexedFile>, fates: seq<FileFate>)
    requires IndexRun(xs, files, fates)
    ensures |xs| == |fates| + 1
  {
  }

  /** The documents and hashes that a run leaves, pruned if asked for. */
  function LeftOver(x: Ix, files: seq<IndexedFile>, prune: bool): (seq<Doc>, map<nat, nat>) {
    if prune then (Pruned(x.documents, PathsOf(files)), x.hashes - IdsPruned(x.documents, PathsOf(files))) else (x.documents, x.hashes)
  }

  lemma IndexedThenPruned(xs: seq<Ix>, files: seq<IndexedFile>, fates: seq<FileFate>, prune: bool)
    requires |fates| == |files| && IndexRun(xs, files, fates)
    ensures |xs| == |files| + 1
    ensures var (a, b) := (xs[0], xs[|files|]);
      var (now, noted) := LeftOver(b, files, prune);
      var removed := if prune then PathsPruned(b.documents, PathsOf(files)) else [];
      Reindexed(a.documents, a.hashes, a.next, files, prune, ReindexReport(fates, removed), now, noted, b.next)
  {
    hide IndexRun, KnownPath, IdsApart, PathsApart, Pruned, PathsPruned, IdsPruned, PathsOf, KeptUnless, NewAt, TakenIn, StoresAll, ReportsNoted,
      NotesAll, KeepsOthers;
    RunSize(xs, files, fates);
    var (a, b, seen) := (xs[0], xs[|files|], PathsOf(files));
    assert files[..|files|] == files;
    RunKeeps(xs, files, fates, |files|);
    RunKeepsApart(xs, files, fates, |files|);
    AllReported(xs, files, fates);
    TakenAreStored(files, fates, b.documents);
    OthersKept(a.documents, b.documents, files, prune);
    if prune {
      SameDropped(a.documents, b.documents, seen);
      PrunedApart(b.documents, b.next, seen);
      StoredPruned(files, fates, b.documents);
      if IdsApart(b.documents, b.next) && NotesAll(files, fates, b.documents, b.hashes) {
        NotedPruned(files, fates, b.documents, b.hashes, b.next);
      }
    }
  }

  lemma TakenAreStored(files: seq<IndexedFile>, fates: seq<FileFate>, documents: seq<Doc>)
    requires |fates| == |files| && TakenIn(files, fates, |files|, documents)
    ensures StoresAll(files, fates, documents)
  {
  }

  lemma StoredPruned(files: seq<IndexedFile>, fates: seq<FileFate>, documents: seq<Doc>)
    requires |fates| == |files| && StoresAll(files, fates, documents)
    ensures StoresAll(files, fates, Pruned(documents, PathsOf(files)))
  {
    hide IsStored, Latest, Pruned;
    PrunedIff(documents, PathsOf(files));
    StoredStay(files, documents, Pruned(documents, PathsOf(files)), PathsOf(files));
    assert forall j: nat | j < |files| :: files[j] in files;
  }

  lemma NotedPruned(files: seq<IndexedFile>, fates: seq<FileFate>, documents: seq<Doc>, hashes: map<nat, nat>, next: nat)
    requires |fates| == |files| && NotesAll(files, fates, documents, hashes) && IdsApart(documents, next)
    ensures NotesAll(files, fates, Pruned(documents, PathsOf(files)), hashes - IdsPruned(documents, PathsOf(files)))
  {
    hide NotedIn, LastThere, IdsApart, Pruned, IdsPruned;
    forall k: nat | k < |files| && LastThere(files, k) && !fates[k].Failed?
      ensures NotedIn(Pruned(documents, PathsOf(files)), hashes - IdsPruned(documents, PathsOf(files)), files[k])
    {
      assert files[k].path in PathsOf(files);
      PrunedNoted(documents, hashes, next, PathsOf(files), files[k]);
    }
  }

  lemma OthersKept(was: seq<Doc>, all: seq<Doc>, files: seq<IndexedFile>, prune: bool)
    requires KeptUnless(was, all, PathsOf(files))
    ensures KeepsOthers(was, files, prune, if prune then Pruned(all, PathsOf(files)) else all)
  {
    hide Pruned, PathsOf;
    KeptAreThere(was, all, PathsOf(files));
    PrunedIff(all, PathsOf(files));
  }
}
