/** A document's secondary indexes as bytes: `to_bytes` and `from_bytes`. */
module IndexCodec {
  import opened Bytes
  import opened Parsing
  import opened SecondaryIndexes
  import BC = BlockCodec

  datatype Pair<K, V> = Pair(key: K, value: V)

  type Listing = seq<nat>

  // Maps as lists of entries

  function Collect<K(==), V>(es: seq<Pair<K, V>>): map<K, V> {
    if |es| == 0 then map[] else Collect(es[..|es| - 1])[es[|es| - 1].key := es[|es| - 1].value]
  }

  predicate Lists<K(==), V>(keys: seq<K>, m: map<K, V>) {
    |keys| == |m| && (forall k | k in keys :: k in m) && (forall k | k in m :: k in keys)
  }

  function Entries<K(==), V>(m: map<K, V>, keys: seq<K>): (es: seq<Pair<K, V>>)
    requires Lists(keys, m)
    ensures |es| == |keys|
  {
    seq(|keys|, i requires 0 <= i < |keys| => assert keys[i] in keys; Pair(keys[i], m[keys[i]]))
  }

  lemma {:induction false} CollectedKeys<K, V>(es: seq<Pair<K, V>>)
    ensures forall k :: k in Collect(es) <==> exists e :: e in es && e.key == k
    ensures forall k | k in Collect(es) :: Pair(k, Collect(es)[k]) in es
  {
    if |es| > 0 {
      var n := |es| - 1;
      CollectedKeys(es[..n]);
      assert es == es[..n] + [es[n]];
    }
  }

  lemma CollectEntries<K, V>(m: map<K, V>, keys: seq<K>)
    requires Lists(keys, m)
    ensures Collect(Entries(m, keys)) == m
  {
    var es := Entries(m, keys);
    CollectedKeys(es);
    forall k | k in m ensures k in Collect(es) {
      var i :| 0 <= i < |keys| && keys[i] == k;
      assert es[i] in es && es[i].key == k;
    }
    forall k | k in Collect(es) ensures k in m && Collect(es)[k] == m[k] {
      var i :| 0 <= i < |es| && es[i] == Pair(k, Collect(es)[k]);
    }
  }

  function EncMap<K(==), V>(enc: Pair<K, V> -> seq<Byte>, m: map<K, V>, keys: seq<K>): seq<Byte>
    requires Lists(keys, m)
  {
    LE(|keys|, 4) + EncMany(enc, Entries(m, keys))
  }

  function TakeMap<K(==), V>(p: seq<Byte> -> Parsed<Pair<K, V>>, s: seq<Byte>): Parsed<map<K, V>> {
    match TakeInt(4, s) case Err => Err case Ok((n, s1)) =>
    match Many(n, p, s1) case Err => Err case Ok((es, s2)) => Ok((Collect(es), s2))
  }

  lemma MapRoundTrip<K, V>(
    enc: Pair<K, V> -> seq<Byte>, p: seq<Byte> -> Parsed<Pair<K, V>>, m: map<K, V>, keys: seq<K>, tail: seq<Byte>)
    requires Lists(keys, m) && |m| < Pow256(4)
    requires forall k, rest: seq<Byte> | k in m :: p(enc(Pair(k, m[k])) + rest) == Ok((Pair(k, m[k]), rest))
    ensures TakeMap(p, EncMap(enc, m, keys) + tail) == Ok((m, tail))
  {
    hide EncMany, Many, Collect, Pow256, LE, TakeInt;
    var es := Entries(m, keys);
    var body := EncMany(enc, es) + tail;
    assert EncMap(enc, m, keys) + tail == LE(|keys|, 4) + body;
    TakeIntOf(|keys|, 4, body);
    forall e, rest: seq<Byte> | e in es ensures p(enc(e) + rest) == Ok((e, rest)) {
      assert e.key in m && e == Pair(e.key, m[e.key]);
    }
    ManyOf(enc, p, es, tail);
    CollectEntries(m, keys);
  }

  // Entries

  function EncU32(n: nat): seq<Byte> { LE(n, 4) }

  function TakeU32(s: seq<Byte>): Parsed<nat> { TakeInt(4, s) }

  function EncList(xs: Listing): seq<Byte> { LE(|xs|, 4) + EncMany(EncU32, xs) }

  function TakeList(s: seq<Byte>): Parsed<Listing> {
    match TakeInt(4, s) case Err => Err case Ok((n, rest)) => Many(n, TakeU32, rest)
  }

  predicate ListFits(xs: Listing) {
    |xs| < Pow256(4) && forall x | x in xs :: x < Pow256(4)
  }

  lemma ListRoundTrip(xs: Listing, tail: seq<Byte>)
    requires ListFits(xs)
    ensures TakeList(EncList(xs) + tail) == Ok((xs, tail))
  {
    hide EncMany, Many, Pow256, LE, TakeInt;
    assert EncList(xs) + tail == LE(|xs|, 4) + (EncMany(EncU32, xs) + tail);
    TakeIntOf(|xs|, 4, EncMany(EncU32, xs) + tail);
    forall x, rest: seq<Byte> | x in xs ensures TakeU32(EncU32(x) + rest) == Ok((x, rest)) {
      TakeIntOf(x, 4, rest);
    }
    ManyOf(EncU32, TakeU32, xs, tail);
  }

  function EncTypeEntry(e: Pair<BC.BlockType, Listing>): seq<Byte> { [BC.TypeTag(e.key)] + EncList(e.value) }

  function TakeTypeEntry(s: seq<Byte>): Parsed<Pair<BC.BlockType, Listing>> {
    match BC.TakeType(s) case Err => Err case Ok((t, s1)) =>
    match TakeList(s1) case Err => Err case Ok((xs, s2)) => Ok((Pair(t, xs), s2))
  }

  function EncNumEntry(e: Pair<nat, nat>): seq<Byte> { LE(e.key, 4) + LE(e.value, 4) }

  function TakeNumEntry(s: seq<Byte>): Parsed<Pair<nat, nat>> {
    match TakeInt(4, s) case Err => Err case Ok((k, s1)) =>
    match TakeInt(4, s1) case Err => Err case Ok((v, s2)) => Ok((Pair(k, v), s2))
  }

  function EncTextEntry(e: Pair<BC.Text, Listing>): seq<Byte> { EncText(4, e.key) + EncList(e.value) }

  function TakeTextEntry(s: seq<Byte>): Parsed<Pair<BC.Text, Listing>> {
    match TakeText(4, s) case Err => Err case Ok((t, s1)) =>
    match TakeList(s1) case Err => Err case Ok((xs, s2)) => Ok((Pair(t, xs), s2))
  }

  function EncDepthEntry(e: Pair<nat, Listing>): seq<Byte> { LE(e.key, 1) + EncList(e.value) }

  function TakeDepthEntry(s: seq<Byte>): Parsed<Pair<nat, Listing>> {
    match TakeInt(1, s) case Err => Err case Ok((d, s1)) =>
    match TakeList(s1) case Err => Err case Ok((xs, s2)) => Ok((Pair(d, xs), s2))
  }

  // The index

  /** The order in which each map is listed; the original sorts the keys. */
  datatype Order = Order(
    types: seq<BC.BlockType>, pres: seq<nat>, posts: seq<nat>, contents: seq<BC.Text>, langs: seq<BC.Text>,
    depths: seq<nat>, terms: seq<BC.Text>)

  predicate Orders(o: Order, i: DocumentIndex) {
    Lists(o.types, i.bitmap) && Lists(o.pres, i.btree.byPre) && Lists(o.posts, i.btree.byPost) &&
    Lists(o.contents, i.hash.byContent) && Lists(o.langs, i.hash.byLang) && Lists(o.depths, i.hash.byDepth) &&
    Lists(o.terms, i.term.postings)
  }

  function Encode(i: DocumentIndex, o: Order): seq<Byte>
    requires Orders(o, i)
  {
    EncMap(EncTypeEntry, i.bitmap, o.types) + (EncMap(EncNumEntry, i.btree.byPre, o.pres) +
    (EncMap(EncNumEntry, i.btree.byPost, o.posts) + (EncMap(EncTextEntry, i.hash.byContent, o.contents) +
    (EncMap(EncTextEntry, i.hash.byLang, o.langs) + (EncMap(EncDepthEntry, i.hash.byDepth, o.depths) +
    (EncMap(EncTextEntry, i.term.postings, o.terms) + (LE(i.term.blockCount, 4) + LE(i.term.totalTokens, 8))))))))
  }

  function Decode(s: seq<Byte>): Result<DocumentIndex> {
    match TakeMap(TakeTypeEntry, s) case Err => Err case Ok((bitmap, s1)) =>
    match TakeMap(TakeNumEntry, s1) case Err => Err case Ok((byPre, s2)) =>
    match TakeMap(TakeNumEntry, s2) case Err => Err case Ok((byPost, s3)) =>
    match TakeMap(TakeTextEntry, s3) case Err => Err case Ok((byContent, s4)) =>
    match TakeMap(TakeTextEntry, s4) case Err => Err case Ok((byLang, s5)) =>
    match TakeMap(TakeDepthEntry, s5) case Err => Err case Ok((byDepth, s6)) =>
    match TakeMap(TakeTextEntry, s6) case Err => Err case Ok((postings, s7)) =>
    match TakeInt(4, s7) case Err => Err case Ok((count, s8)) =>
    match TakeInt(8, s8) case Err => Err case Ok((total, _)) =>
      Ok(DocumentIndex(bitmap, BTreeIndex(byPre, byPost), HashIndex(byContent, byLang, byDepth),
                       TermIndex(postings, count, total)))
  }

  predicate TextMapFits(m: map<BC.Text, Listing>) {
    |m| < Pow256(4) && forall k | k in m :: BC.IsText(4, k) && ListFits(m[k])
  }

  predicate NumMapFits(m: map<nat, nat>) {
    |m| < Pow256(4) && forall k | k in m :: k < Pow256(4) && m[k] < Pow256(4)
  }

  predicate TypeMapFits(m: map<BC.BlockType, Listing>) {
    |m| < Pow256(4) && forall k | k in m :: ListFits(m[k])
  }

  predicate DepthMapFits(m: map<nat, Listing>) {
    |m| < Pow256(4) && forall k | k in m :: k < Pow256(1) && ListFits(m[k])
  }

  predicate Fits(i: DocumentIndex) {
    TypeMapFits(i.bitmap) && NumMapFits(i.btree.byPre) && NumMapFits(i.btree.byPost) &&
    TextMapFits(i.hash.byContent) && TextMapFits(i.hash.byLang) && DepthMapFits(i.hash.byDepth) &&
    TextMapFits(i.term.postings) && i.term.blockCount < Pow256(4) && i.term.totalTokens < Pow256(8)
  }

  lemma TypeMapRoundTrip(m: map<BC.BlockType, Listing>, keys: seq<BC.BlockType>, tail: seq<Byte>)
    requires Lists(keys, m) && TypeMapFits(m)
    ensures TakeMap(TakeTypeEntry, EncMap(EncTypeEntry, m, keys) + tail) == Ok((m, tail))
  {
    hide EncMap, TakeMap, EncList, TakeList, Pow256, BC.TypeTag, BC.TakeType;
    forall k, rest: seq<Byte> | k in m
      ensures TakeTypeEntry(EncTypeEntry(Pair(k, m[k])) + rest) == Ok((Pair(k, m[k]), rest))
    {
      assert EncTypeEntry(Pair(k, m[k])) + rest == [BC.TypeTag(k)] + (EncList(m[k]) + rest);
      BC.TypeRoundTrip(k, EncList(m[k]) + rest);
      ListRoundTrip(m[k], rest);
    }
    MapRoundTrip(EncTypeEntry, TakeTypeEntry, m, keys, tail);
  }

  lemma NumMapRoundTrip(m: map<nat, nat>, keys: seq<nat>, tail: seq<Byte>)
    requires Lists(keys, m) && NumMapFits(m)
    ensures TakeMap(TakeNumEntry, EncMap(EncNumEntry, m, keys) + tail) == Ok((m, tail))
  {
    hide EncMap, TakeMap, LE, TakeInt, Pow256;
    forall k, rest: seq<Byte> | k in m
      ensures TakeNumEntry(EncNumEntry(Pair(k, m[k])) + rest) == Ok((Pair(k, m[k]), rest))
    {
      assert EncNumEntry(Pair(k, m[k])) + rest == LE(k, 4) + (LE(m[k], 4) + rest);
      TakeIntOf(k, 4, LE(m[k], 4) + rest);
      TakeIntOf(m[k], 4, rest);
    }
    MapRoundTrip(EncNumEntry, TakeNumEntry, m, keys, tail);
  }

  lemma TextMapRoundTrip(m: map<BC.Text, Listing>, keys: seq<BC.Text>, tail: seq<Byte>)
    requires Lists(keys, m) && TextMapFits(m)
    ensures TakeMap(TakeTextEntry, EncMap(EncTextEntry, m, keys) + tail) == Ok((m, tail))
  {
    hide EncMap, TakeMap, EncList, TakeList, EncText, TakeText, Pow256, ValidUtf8;
    forall k, rest: seq<Byte> | k in m
      ensures TakeTextEntry(EncTextEntry(Pair(k, m[k])) + rest) == Ok((Pair(k, m[k]), rest))
    {
      assert EncTextEntry(Pair(k, m[k])) + rest == EncText(4, k) + (EncList(m[k]) + rest);
      TakeTextOf(4, k, EncList(m[k]) + rest);
      ListRoundTrip(m[k], rest);
    }
    MapRoundTrip(EncTextEntry, TakeTextEntry, m, keys, tail);
  }

  lemma DepthMapRoundTrip(m: map<nat, Listing>, keys: seq<nat>, tail: seq<Byte>)
    requires Lists(keys, m) && DepthMapFits(m)
    ensures TakeMap(TakeDepthEntry, EncMap(EncDepthEntry, m, keys) + tail) == Ok((m, tail))
  {
    hide EncMap, TakeMap, EncList, TakeList, LE, TakeInt, Pow256;
    forall k, rest: seq<Byte> | k in m
      ensures TakeDepthEntry(EncDepthEntry(Pair(k, m[k])) + rest) == Ok((Pair(k, m[k]), rest))
    {
      assert EncDepthEntry(Pair(k, m[k])) + rest == LE(k, 1) + (EncList(m[k]) + rest);
      TakeIntOf(k, 1, EncList(m[k]) + rest);
      ListRoundTrip(m[k], rest);
    }
    MapRoundTrip(EncDepthEntry, TakeDepthEntry, m, keys, tail);
  }

  /** Whatever order the maps are listed in and whatever follows, an encoded index
      reads back as itself. */
  lemma IndexRoundTrip(i: DocumentIndex, o: Order, tail: seq<Byte>)
    requires Fits(i) && Orders(o, i)
    ensures Decode(Encode(i, o) + tail) == Ok(i)
  {
    hide EncMap, TakeMap, LE, TakeInt, Pow256, TypeMapFits, NumMapFits, TextMapFits, DepthMapFits, Lists;
    var t8 := LE(i.term.totalTokens, 8) + tail;
    var t7 := LE(i.term.blockCount, 4) + t8;
    var t6 := EncMap(EncTextEntry, i.term.postings, o.terms) + t7;
    var t5 := EncMap(EncDepthEntry, i.hash.byDepth, o.depths) + t6;
    var t4 := EncMap(EncTextEntry, i.hash.byLang, o.langs) + t5;
    var t3 := EncMap(EncTextEntry, i.hash.byContent, o.contents) + t4;
    var t2 := EncMap(EncNumEntry, i.btree.byPost, o.posts) + t3;
    var t1 := EncMap(EncNumEntry, i.btree.byPre, o.pres) + t2;
    assert Encode(i, o) + tail == EncMap(EncTypeEntry, i.bitmap, o.types) + t1;
    TypeMapRoundTrip(i.bitmap, o.types, t1);
    NumMapRoundTrip(i.btree.byPre, o.pres, t2);
    NumMapRoundTrip(i.btree.byPost, o.posts, t3);
    TextMapRoundTrip(i.hash.byContent, o.contents, t4);
    TextMapRoundTrip(i.hash.byLang, o.langs, t5);
    DepthMapRoundTrip(i.hash.byDepth, o.depths, t6);
    TextMapRoundTrip(i.term.postings, o.terms, t7);
    TakeIntOf(i.term.blockCount, 4, t8);
    TakeIntOf(i.term.totalTokens, 8, tail);
  }

  // The loops

  /** One section of `to_bytes`: a count, then an entry per key. */
  method WriteMap<K(==), V>(m: map<K, V>, enc: Pair<K, V> -> seq<Byte>) returns (r: seq<Byte>, ghost keys: seq<K>)
    ensures Lists(keys, m) && r == EncMap(enc, m, keys)
  {
    var listed := ListKeys(m);
    keys := listed;
    r := LE(|listed|, 4);
    ghost var es := Entries(m, listed);
    assert es[..0] == [];
    for i := 0 to |listed|
      invariant r == LE(|listed|, 4) + EncMany(enc, es[..i])
    {
      assert listed[i] in listed;
      EncManyAppend(enc, es[..i], es[i]);
      assert es[..i + 1] == es[..i] + [es[i]];
      r := r + enc(Pair(listed[i], m[listed[i]]));
    }
    assert es[..|listed|] == es;
  }

  /** `to_bytes`. */
  method ToBytes(i: DocumentIndex) returns (out: seq<Byte>, ghost o: Order)
    ensures Orders(o, i) && out == Encode(i, o)
  {
    hide EncMap, Lists, LE;
    ghost var types, pres, posts, contents, langs, depths, terms;
    var s1, s2, s3, s4, s5, s6, s7;
    s1, types := WriteMap(i.bitmap, EncTypeEntry);
    s2, pres := WriteMap(i.btree.byPre, EncNumEntry);
    s3, posts := WriteMap(i.btree.byPost, EncNumEntry);
    s4, contents := WriteMap(i.hash.byContent, EncTextEntry);
    s5, langs := WriteMap(i.hash.byLang, EncTextEntry);
    s6, depths := WriteMap(i.hash.byDepth, EncDepthEntry);
    s7, terms := WriteMap(i.term.postings, EncTextEntry);
    o := Order(types, pres, posts, contents, langs, depths, terms);
    out := s1 + (s2 + (s3 + (s4 + (s5 + (s6 + (s7 + (LE(i.term.blockCount, 4) + LE(i.term.totalTokens, 8))))))));
  }

  method ReadList(d: Decoder) returns (r: Result<Listing>)
    requires d.Valid()
    modifies d
    ensures d.Valid() && Agrees(TakeList(old(d.Rest())), r, d.Rest())
  {
    hide Many;
    var count := d.ReadInt(4);
    if count.Err? { return Err; }
    ghost var want := Many(count.value, TakeU32, d.Rest());
    LoopStart(count.value, TakeU32, d.Rest());
    var xs := [];
    for i := 0 to count.value
      invariant d.Valid() && Loop(xs, count.value - i, TakeU32, d.Rest(), want)
    {
      ghost var s := d.Rest();
      var x := d.ReadInt(4);
      LoopStep(xs, count.value - i, TakeU32, s, want, x, d.Rest());
      if x.Err? { return Err; }
      xs := xs + [x.value];
    }
    LoopEnd(xs, TakeU32, d.Rest(), want);
    r := Ok(xs);
  }

  method ReadTypeEntry(d: Decoder) returns (r: Result<Pair<BC.BlockType, Listing>>)
    requires d.Valid()
    modifies d
    ensures d.Valid() && Agrees(TakeTypeEntry(old(d.Rest())), r, d.Rest())
  {
    hide TakeList;
    var t := BC.ReadType(d);
    if t.Err? { return Err; }
    var xs := ReadList(d);
    r := if xs.Err? then Err else Ok(Pair(t.value, xs.value));
  }

  method ReadTypeMap(d: Decoder) returns (r: Result<map<BC.BlockType, Listing>>)
    requires d.Valid()
    modifies d
    ensures d.Valid() && Agrees(TakeMap(TakeTypeEntry, old(d.Rest())), r, d.Rest())
  {
    hide Many, TakeTypeEntry;
    var count := d.ReadInt(4);
    if count.Err? { return Err; }
    ghost var want := Many(count.value, TakeTypeEntry, d.Rest());
    LoopStart(count.value, TakeTypeEntry, d.Rest());
    ghost var es := [];
    var m := map[];
    for i := 0 to count.value
      invariant d.Valid() && Loop(es, count.value - i, TakeTypeEntry, d.Rest(), want) && m == Collect(es)
    {
      ghost var s := d.Rest();
      var e := ReadTypeEntry(d);
      LoopStep(es, count.value - i, TakeTypeEntry, s, want, e, d.Rest());
      if e.Err? { return Err; }
      assert (es + [e.value])[..|es|] == es;
      es := es + [e.value];
      m := m[e.value.key := e.value.value];
    }
    LoopEnd(es, TakeTypeEntry, d.Rest(), want);
    r := Ok(m);
  }

  method ReadNumMap(d: Decoder) returns (r: Result<map<nat, nat>>)
    requires d.Valid()
    modifies d
    ensures d.Valid() && Agrees(TakeMap(TakeNumEntry, old(d.Rest())), r, d.Rest())
  {
    hide Many;
    var count := d.ReadInt(4);
    if count.Err? { return Err; }
    ghost var want := Many(count.value, TakeNumEntry, d.Rest());
    LoopStart(count.value, TakeNumEntry, d.Rest());
    ghost var es := [];
    var m := map[];
    for i := 0 to count.value
      invariant d.Valid() && Loop(es, count.value - i, TakeNumEntry, d.Rest(), want) && m == Collect(es)
    {
      ghost var s := d.Rest();
      var k := d.ReadInt(4);
      if k.Err? {
        LoopStep(es, count.value - i, TakeNumEntry, s, want, Err, []);
        return Err;
      }
      var v := d.ReadInt(4);
      ghost var e: Result<Pair<nat, nat>> := if v.Err? then Err else Ok(Pair(k.value, v.value));
      LoopStep(es, count.value - i, TakeNumEntry, s, want, e, d.Rest());
      if v.Err? { return Err; }
      assert (es + [e.value])[..|es|] == es;
      es := es + [e.value];
      m := m[k.value := v.value];
    }
    LoopEnd(es, TakeNumEntry, d.Rest(), want);
    r := Ok(m);
  }

  method ReadTextEntry(d: Decoder) returns (r: Result<Pair<BC.Text, Listing>>)
    requires d.Valid()
    modifies d
    ensures d.Valid() && Agrees(TakeTextEntry(old(d.Rest())), r, d.Rest())
  {
    hide TakeList, TakeText;
    var t := d.ReadText(4);
    if t.Err? { return Err; }
    var xs := ReadList(d);
    r := if xs.Err? then Err else Ok(Pair(t.value, xs.value));
  }

  method ReadTextMap(d: Decoder) returns (r: Result<map<BC.Text, Listing>>)
    requires d.Valid()
    modifies d
    ensures d.Valid() && Agrees(TakeMap(TakeTextEntry, old(d.Rest())), r, d.Rest())
  {
    hide Many, TakeTextEntry;
    var count := d.ReadInt(4);
    if count.Err? { return Err; }
    ghost var want := Many(count.value, TakeTextEntry, d.Rest());
    LoopStart(count.value, TakeTextEntry, d.Rest());
    ghost var es := [];
    var m := map[];
    for i := 0 to count.value
      invariant d.Valid() && Loop(es, count.value - i, TakeTextEntry, d.Rest(), want) && m == Collect(es)
    {
      ghost var s := d.Rest();
      var e := ReadTextEntry(d);
      LoopStep(es, count.value - i, TakeTextEntry, s, want, e, d.Rest());
      if e.Err? { return Err; }
      assert (es + [e.value])[..|es|] == es;
      es := es + [e.value];
      m := m[e.value.key := e.value.value];
    }
    LoopEnd(es, TakeTextEntry, d.Rest(), want);
    r := Ok(m);
  }

  method ReadDepthEntry(d: Decoder) returns (r: Result<Pair<nat, Listing>>)
    requires d.Valid()
    modifies d
    ensures d.Valid() && Agrees(TakeDepthEntry(old(d.Rest())), r, d.Rest())
  {
    hide TakeList;
    var t := d.ReadInt(1);
    if t.Err? { return Err; }
    var xs := ReadList(d);
    r := if xs.Err? then Err else Ok(Pair(t.value, xs.value));
  }

  method ReadDepthMap(d: Decoder) returns (r: Result<map<nat, Listing>>)
    requires d.Valid()
    modifies d
    ensures d.Valid() && Agrees(TakeMap(TakeDepthEntry, old(d.Rest())), r, d.Rest())
  {
    hide Many, TakeDepthEntry;
    var count := d.ReadInt(4);
    if count.Err? { return Err; }
    ghost var want := Many(count.value, TakeDepthEntry, d.Rest());
    LoopStart(count.value, TakeDepthEntry, d.Rest());
    ghost var es := [];
    var m := map[];
    for i := 0 to count.value
      invariant d.Valid() && Loop(es, count.value - i, TakeDepthEntry, d.Rest(), want) && m == Collect(es)
    {
      ghost var s := d.Rest();
      var e := ReadDepthEntry(d);
      LoopStep(es, count.value - i, TakeDepthEntry, s, want, e, d.Rest());
      if e.Err? { return Err; }
      assert (es + [e.value])[..|es|] == es;
      es := es + [e.value];
      m := m[e.value.key := e.value.value];
    }
    LoopEnd(es, TakeDepthEntry, d.Rest(), want);
    r := Ok(m);
  }

  /** `from_bytes`. */
  method FromBytes(data: seq<Byte>) returns (r: Result<DocumentIndex>)
    ensures r == Decode(data)
  {
    hide TakeMap;
    var d := new Decoder(data);
    var bitmap := ReadTypeMap(d);
    if bitmap.Err? { return Err; }
    var byPre := ReadNumMap(d);
    if byPre.Err? { return Err; }
    var byPost := ReadNumMap(d);
    if byPost.Err? { return Err; }
    var byContent := ReadTextMap(d);
    if byContent.Err? { return Err; }
    var byLang := ReadTextMap(d);
    if byLang.Err? { return Err; }
    var byDepth := ReadDepthMap(d);
    if byDepth.Err? { return Err; }
    var postings := ReadTextMap(d);
    if postings.Err? { return Err; }
    var count := d.ReadInt(4);
    if count.Err? { return Err; }
    var total := d.ReadInt(8);
    if total.Err? { return Err; }
    r := Ok(DocumentIndex(bitmap.value, BTreeIndex(byPre.value, byPost.value),
                          HashIndex(byContent.value, byLang.value, byDepth.value),
                          TermIndex(postings.value, count.value, total.value)));
  }
}
