/** Zone maps as bytes, with the older form that ends before the front matter. */
module ZoneCodec {
  import opened Bytes
  import opened Parsing
  import BC = BlockCodec

  type Text = BC.Text

  datatype ZoneMap = ZoneMap(
    maxHeadingDepth: nat, headingSlugs: set<Text>, headingContents: set<Text>, codeLanguages: set<Text>,
    frontmatterKeys: set<Text>, title: Option<Text>, tags: seq<Text>, frontmatter: seq<BC.Entry>)

  /** The orders in which the encoder lists the sets. */
  datatype Order = Order(slugs: seq<Text>, contents: seq<Text>, languages: seq<Text>, keys: seq<Text>)

  predicate Lists(xs: seq<Text>, s: set<Text>) {
    |xs| == |s| && (forall x | x in xs :: x in s) && forall x | x in s :: x in xs
  }

  predicate Orders(o: Order, z: ZoneMap) {
    Lists(o.slugs, z.headingSlugs) && Lists(o.contents, z.headingContents) && Lists(o.languages, z.codeLanguages) &&
    Lists(o.keys, z.frontmatterKeys)
  }

  // The length-prefix bounds

  predicate SetFits(s: set<Text>) { |s| < Pow256(2) && forall t | t in s :: BC.IsText(2, t) }

  predicate Fits(z: ZoneMap) {
    z.maxHeadingDepth < 256 && SetFits(z.headingSlugs) && SetFits(z.headingContents) && SetFits(z.codeLanguages) &&
    SetFits(z.frontmatterKeys) && (z.title.Some? ==> BC.IsText(2, z.title.value)) &&
    |z.tags| < Pow256(2) && (forall t | t in z.tags :: BC.IsText(2, t)) &&
    |z.frontmatter| < Pow256(2) && forall e | e in z.frontmatter :: BC.IsText(2, e.key) && BC.PropertyFits(e.value)
  }

  // Encoding

  function EncShort(t: Text): seq<Byte> { EncText(2, t) }

  function EncTexts(xs: seq<Text>): seq<Byte> { LE(|xs|, 2) + EncMany(EncShort, xs) }

  function EncTitle(title: Option<Text>): seq<Byte> {
    match title case None => [0] case Some(t) => [1] + EncShort(t)
  }

  function EncPair(e: BC.Entry): seq<Byte> { EncShort(e.key) + BC.EncProperty(e.value) }

  /** What follows the heading depth, up to the tags, and then `rest`. */
  function EncLists(z: ZoneMap, o: Order, rest: seq<Byte>): seq<Byte> {
    EncTexts(o.slugs) + (EncTexts(o.contents) + (EncTexts(o.languages) + (EncTexts(o.keys) +
    (EncTitle(z.title) + (EncTexts(z.tags) + rest)))))
  }

  function EncFrontmatter(entries: seq<BC.Entry>): seq<Byte> { LE(|entries|, 2) + EncMany(EncPair, entries) }

  /** `encode_zone_map`. */
  function Encode(z: ZoneMap, o: Order): seq<Byte> {
    LE(z.maxHeadingDepth, 1) + EncLists(z, o, EncFrontmatter(z.frontmatter))
  }

  /** As written before front-matter values were persisted. */
  function EncodeOld(z: ZoneMap, o: Order): seq<Byte> {
    LE(z.maxHeadingDepth, 1) + EncLists(z, o, [])
  }

  // Decoding

  function TakeShort(s: seq<Byte>): Parsed<Text> { TakeText(2, s) }

  function TakeTexts(s: seq<Byte>): Parsed<seq<Text>> {
    match TakeInt(2, s) case Err => Err case Ok((n, rest)) => Many(n, TakeShort, rest)
  }

  function TakeTitle(s: seq<Byte>): Parsed<Option<Text>> {
    match TakeInt(1, s) case Err => Err case Ok((tag, rest)) =>
    if tag == 0 then Ok((None, rest))
    else if tag == 1 then match TakeShort(rest) case Err => Err case Ok((t, tail)) => Ok((Some(t), tail))
    else Err
  }

  function TakePair(s: seq<Byte>): Parsed<BC.Entry> {
    match TakeShort(s) case Err => Err case Ok((key, s1)) =>
    match BC.TakeProperty(s1) case Err => Err case Ok((value, s2)) => Ok((BC.Entry(key, value), s2))
  }

  /** Absent at the end of the bytes. */
  function TakeFrontmatter(s: seq<Byte>): Parsed<seq<BC.Entry>> {
    if s == [] then Ok(([], s))
    else match TakeInt(2, s) case Err => Err case Ok((n, rest)) => Many(n, TakePair, rest)
  }

  function SetOf(xs: seq<Text>): set<Text> { set x | x in xs }

  /** `decode_zone_map`: the bytes left over are ignored. */
  function Decode(s: seq<Byte>): Result<ZoneMap> {
    match TakeInt(1, s) case Err => Err case Ok((depth, s1)) =>
    match TakeTexts(s1) case Err => Err case Ok((slugs, s2)) =>
    match TakeTexts(s2) case Err => Err case Ok((contents, s3)) =>
    match TakeTexts(s3) case Err => Err case Ok((languages, s4)) =>
    match TakeTexts(s4) case Err => Err case Ok((keys, s5)) =>
    match TakeTitle(s5) case Err => Err case Ok((title, s6)) =>
    match TakeTexts(s6) case Err => Err case Ok((tags, s7)) =>
    match TakeFrontmatter(s7) case Err => Err case Ok((frontmatter, _)) =>
      Ok(ZoneMap(depth, SetOf(slugs), SetOf(contents), SetOf(languages), SetOf(keys), title, tags, frontmatter))
  }

  // Round trips

  lemma {:induction false} TextsRoundTrip(xs: seq<Text>, tail: seq<Byte>)
    requires |xs| < Pow256(2) && forall t | t in xs :: BC.IsText(2, t)
    ensures TakeTexts(EncTexts(xs) + tail) == Ok((xs, tail))
  {
    hide LE, TakeInt, TakeText, EncText, Pow256, ValidUtf8;
    Regroup(LE(|xs|, 2), EncMany(EncShort, xs), tail);
    TakeIntOf(|xs|, 2, EncMany(EncShort, xs) + tail);
    forall t, rest: seq<Byte> | t in xs ensures TakeShort(EncShort(t) + rest) == Ok((t, rest)) {
      TakeTextOf(2, t, rest);
    }
    ManyOf(EncShort, TakeShort, xs, tail);
  }

  lemma SetRoundTrip(xs: seq<Text>, s: set<Text>, tail: seq<Byte>)
    requires Lists(xs, s) && SetFits(s)
    ensures TakeTexts(EncTexts(xs) + tail) == Ok((xs, tail)) && SetOf(xs) == s
  {
    hide EncTexts, TakeTexts, Pow256, BC.IsText;
    TextsRoundTrip(xs, tail);
  }

  lemma TitleRoundTrip(title: Option<Text>, tail: seq<Byte>)
    requires title.Some? ==> BC.IsText(2, title.value)
    ensures TakeTitle(EncTitle(title) + tail) == Ok((title, tail))
  {
    hide LE, TakeInt, TakeText, EncText, Pow256, ValidUtf8;
    match title
    case None => BC.TagOf(0, tail);
    case Some(t) =>
      assert EncTitle(title) + tail == [1] + (EncShort(t) + tail);
      BC.TagOf(1, EncShort(t) + tail);
      TakeTextOf(2, t, tail);
  }

  lemma {:induction false} FrontmatterRoundTrip(entries: seq<BC.Entry>, tail: seq<Byte>)
    requires |entries| < Pow256(2) && forall e | e in entries :: BC.IsText(2, e.key) && BC.PropertyFits(e.value)
    ensures TakeFrontmatter(EncFrontmatter(entries) + tail) == Ok((entries, tail))
  {
    hide LE, TakeInt, TakeText, EncText, Pow256, ValidUtf8, BC.TakeProperty, BC.EncProperty;
    Regroup(LE(|entries|, 2), EncMany(EncPair, entries), tail);
    TakeIntOf(|entries|, 2, EncMany(EncPair, entries) + tail);
    assert |EncFrontmatter(entries)| >= 2;
    forall e, rest: seq<Byte> | e in entries ensures TakePair(EncPair(e) + rest) == Ok((e, rest)) {
      Regroup(EncShort(e.key), BC.EncProperty(e.value), rest);
      TakeTextOf(2, e.key, BC.EncProperty(e.value) + rest);
      BC.PropertyRoundTrip(e.value, rest);
    }
    ManyOf(EncPair, TakePair, entries, tail);
  }

  /** Everything up to the tags reads back, and the front matter is what is read from the rest. */
  lemma ListsRoundTrip(z: ZoneMap, o: Order, rest: seq<Byte>)
    requires Fits(z) && Orders(o, z)
    ensures Decode(LE(z.maxHeadingDepth, 1) + EncLists(z, o, rest)) ==
      match TakeFrontmatter(rest) case Err => Err case Ok((f, _)) => Ok(z.(frontmatter := f))
  {
    hide LE, TakeInt, EncTexts, TakeTexts, EncTitle, TakeTitle, TakeFrontmatter, SetFits, Lists, SetOf, Pow256, BC.IsText;
    var t6 := EncTexts(z.tags) + rest;
    var t5 := EncTitle(z.title) + t6;
    var t4 := EncTexts(o.keys) + t5;
    var t3 := EncTexts(o.languages) + t4;
    var t2 := EncTexts(o.contents) + t3;
    Widths();
    TakeIntOf(z.maxHeadingDepth, 1, EncTexts(o.slugs) + t2);
    SetRoundTrip(o.slugs, z.headingSlugs, t2);
    SetRoundTrip(o.contents, z.headingContents, t3);
    SetRoundTrip(o.languages, z.codeLanguages, t4);
    SetRoundTrip(o.keys, z.frontmatterKeys, t5);
    TitleRoundTrip(z.title, t6);
    TextsRoundTrip(z.tags, rest);
  }

  lemma ListsAppend(z: ZoneMap, o: Order, rest: seq<Byte>, tail: seq<Byte>)
    ensures EncLists(z, o, rest) + tail == EncLists(z, o, rest + tail)
  {
    hide EncTexts, EncTitle;
    var t6 := EncTexts(z.tags) + rest;
    var t5 := EncTitle(z.title) + t6;
    var t4 := EncTexts(o.keys) + t5;
    var t3 := EncTexts(o.languages) + t4;
    var t2 := EncTexts(o.contents) + t3;
    Regroup(EncTexts(o.slugs), t2, tail);
    Regroup(EncTexts(o.contents), t3, tail);
    Regroup(EncTexts(o.languages), t4, tail);
    Regroup(EncTexts(o.keys), t5, tail);
    Regroup(EncTitle(z.title), t6, tail);
    Regroup(EncTexts(z.tags), rest, tail);
  }

  /** Whatever order the sets are listed in and whatever follows, an encoded zone map
      reads back as itself. */
  lemma ZonesRoundTrip(z: ZoneMap, o: Order, tail: seq<Byte>)
    requires Fits(z) && Orders(o, z)
    ensures Decode(Encode(z, o) + tail) == Ok(z)
  {
    hide LE, EncLists, Decode, EncFrontmatter, TakeFrontmatter, Orders, Pow256, BC.IsText, SetFits;
    var rest := EncFrontmatter(z.frontmatter);
    Regroup(LE(z.maxHeadingDepth, 1), EncLists(z, o, rest), tail);
    ListsAppend(z, o, rest, tail);
    ListsRoundTrip(z, o, rest + tail);
    FrontmatterRoundTrip(z.frontmatter, tail);
  }

  /** One that ends before the front matter reads back without it. */
  lemma OldZonesDecode(z: ZoneMap, o: Order)
    requires Fits(z) && Orders(o, z)
    ensures Decode(EncodeOld(z, o)) == Ok(z.(frontmatter := []))
  {
    hide EncLists, Decode, Orders, SetFits;
    ListsRoundTrip(z, o, []);
  }

  // The loops

  method WriteTexts(xs: seq<Text>) returns (r: seq<Byte>)
    ensures r == EncTexts(xs)
  {
    r := LE(|xs|, 2);
    for i := 0 to |xs|
      invariant r == LE(|xs|, 2) + EncMany(EncShort, xs[..i])
    {
      EncManyAppend(EncShort, xs[..i], xs[i]);
      assert xs[..i + 1] == xs[..i] + [xs[i]];
      r := r + EncShort(xs[i]);
    }
    assert xs[..|xs|] == xs;
  }

  method ListSet(s: set<Text>) returns (xs: seq<Text>)
    ensures Lists(xs, s)
  {
    xs := [];
    var left := s;
    while left != {}
      invariant left <= s && |xs| + |left| == |s|
      invariant forall x :: x in s <==> x in xs || x in left
      decreases left
    {
      var x :| x in left;
      xs := xs + [x];
      left := left - {x};
    }
  }

  method WriteFrontmatter(entries: seq<BC.Entry>) returns (r: seq<Byte>)
    ensures r == EncFrontmatter(entries)
  {
    hide LE, EncText, BC.EncProperty;
    r := LE(|entries|, 2);
    for i := 0 to |entries|
      invariant r == LE(|entries|, 2) + EncMany(EncPair, entries[..i])
    {
      EncManyAppend(EncPair, entries[..i], entries[i]);
      assert entries[..i + 1] == entries[..i] + [entries[i]];
      r := r + EncPair(entries[i]);
    }
    assert entries[..|entries|] == entries;
  }

  /** `encode_zone_map`; the sets are listed in some order. */
  method EncodeZoneMap(z: ZoneMap) returns (out: seq<Byte>, ghost o: Order)
    ensures Orders(o, z) && out == Encode(z, o)
  {
    hide EncTexts, EncFrontmatter, EncTitle, Lists, LE;
    var slugs := ListSet(z.headingSlugs);
    var contents := ListSet(z.headingContents);
    var languages := ListSet(z.codeLanguages);
    var keys := ListSet(z.frontmatterKeys);
    o := Order(slugs, contents, languages, keys);
    var s1 := WriteTexts(slugs);
    var s2 := WriteTexts(contents);
    var s3 := WriteTexts(languages);
    var s4 := WriteTexts(keys);
    var s6 := WriteTexts(z.tags);
    var s7 := WriteFrontmatter(z.frontmatter);
    out := LE(z.maxHeadingDepth, 1) + (s1 + (s2 + (s3 + (s4 + (EncTitle(z.title) + (s6 + s7))))));
  }

  method ReadTexts(d: Decoder) returns (r: Result<seq<Text>>)
    requires d.Valid()
    modifies d
    ensures d.Valid() && Agrees(TakeTexts(old(d.Rest())), r, d.Rest())
  {
    hide TakeText, Many;
    var count := d.ReadInt(2);
    if count.Err? { return Err; }
    ghost var want := Many(count.value, TakeShort, d.Rest());
    LoopStart(count.value, TakeShort, d.Rest());
    var xs := [];
    for i := 0 to count.value
      invariant d.Valid() && Loop(xs, count.value - i, TakeShort, d.Rest(), want)
    {
      ghost var s := d.Rest();
      var x := d.ReadText(2);
      LoopStep(xs, count.value - i, TakeShort, s, want, x, d.Rest());
      if x.Err? { return Err; }
      xs := xs + [x.value];
    }
    LoopEnd(xs, TakeShort, d.Rest(), want);
    r := Ok(xs);
  }

  method ReadTitle(d: Decoder) returns (r: Result<Option<Text>>)
    requires d.Valid()
    modifies d
    ensures d.Valid() && Agrees(TakeTitle(old(d.Rest())), r, d.Rest())
  {
    hide TakeText;
    var tag := d.ReadInt(1);
    if tag.Err? { return Err; }
    if tag.value == 0 { return Ok(None); }
    if tag.value != 1 { return Err; }
    var t := d.ReadText(2);
    r := if t.Err? then Err else Ok(Some(t.value));
  }

  method ReadPair(d: Decoder) returns (r: Result<BC.Entry>)
    requires d.Valid()
    modifies d
    ensures d.Valid() && Agrees(TakePair(old(d.Rest())), r, d.Rest())
  {
    hide BC.TakeProperty, TakeText;
    var key := d.ReadText(2);
    if key.Err? { return Err; }
    var value := BC.ReadProperty(d);
    r := if value.Err? then Err else Ok(BC.Entry(key.value, value.value));
  }

  method ReadFrontmatter(d: Decoder) returns (r: Result<seq<BC.Entry>>)
    requires d.Valid()
    modifies d
    ensures d.Valid() && Agrees(TakeFrontmatter(old(d.Rest())), r, d.Rest())
  {
    hide TakePair, Many;
    if d.Remaining() == 0 { return Ok([]); }
    var count := d.ReadInt(2);
    if count.Err? { return Err; }
    ghost var want := Many(count.value, TakePair, d.Rest());
    LoopStart(count.value, TakePair, d.Rest());
    var xs := [];
    for i := 0 to count.value
      invariant d.Valid() && Loop(xs, count.value - i, TakePair, d.Rest(), want)
    {
      ghost var s := d.Rest();
      var x := ReadPair(d);
      LoopStep(xs, count.value - i, TakePair, s, want, x, d.Rest());
      if x.Err? { return Err; }
      xs := xs + [x.value];
    }
    LoopEnd(xs, TakePair, d.Rest(), want);
    r := Ok(xs);
  }

  /** `decode_zone_map`. */
  method DecodeZoneMap(data: seq<Byte>) returns (r: Result<ZoneMap>)
    ensures r == Decode(data)
  {
    hide TakeTexts, TakeTitle, TakeFrontmatter;
    var d := new Decoder(data);
    var depth := d.ReadInt(1);
    if depth.Err? { return Err; }
    var slugs := ReadTexts(d);
    if slugs.Err? { return Err; }
    var contents := ReadTexts(d);
    if contents.Err? { return Err; }
    var languages := ReadTexts(d);
    if languages.Err? { return Err; }
    var keys := ReadTexts(d);
    if keys.Err? { return Err; }
    var title := ReadTitle(d);
    if title.Err? { return Err; }
    var tags := ReadTexts(d);
    if tags.Err? { return Err; }
    var frontmatter := ReadFrontmatter(d);
    if frontmatter.Err? { return Err; }
    r := Ok(ZoneMap(depth.value, SetOf(slugs.value), SetOf(contents.value), SetOf(languages.value), SetOf(keys.value),
                    title.value, tags.value, frontmatter.value));
  }
}
