/** Joins: the hash join and the nested loop it replaces. */
module HashJoin {
  import opened Bytes
  import opened SqlValue
  import opened SqlExpr

  // Choosing the key columns

  /** `flatten_and_conjuncts`. */
  function Conjuncts(e: Expr): (r: seq<Expr>)
    ensures |r| > 0
    decreases e
  {
    match e
    case Binary(l, And, r) => Conjuncts(l) + Conjuncts(r)
    case Nested(x) => Conjuncts(x)
    case _ => [e]
  }

  function LowerText(t: Text): (r: Text)
    ensures |r| == |t|
  {
    seq(|t|, i requires 0 <= i < |t| => LowerByte(t[i]))
  }

  /** `expr_col_name`. */
  function ColName(e: Expr): Option<Text> {
    match e
    case Ident(name) => Some(LowerText(name))
    case Compound(parts) => if parts == [] then None else Some(LowerText(parts[|parts| - 1]))
    case _ => None
  }

  predicate HasColumn(schema: seq<Text>, short: Text) {
    exists c :: c in schema && (LowerText(c) == short || ShortName(LowerText(c)) == short)
  }

  /** Whether a conjunct gives join keys: the key of the left rows and that of the right rows. */
  function KeysOf(e: Expr, leftCols: seq<Text>, rightCols: seq<Text>): Option<(Expr, Expr)> {
    if e.Binary? && e.op == Eq && ColName(e.left).Some? && ColName(e.right).Some? then
      var (l, r) := (ColName(e.left).value, ColName(e.right).value);
      if HasColumn(leftCols, l) && HasColumn(rightCols, r) then Some((e.left, e.right))
      else if HasColumn(rightCols, l) && HasColumn(leftCols, r) then Some((e.right, e.left))
      else None
    else None
  }

  /** `find_equi_join_exprs`: the first conjunct that gives keys. */
  method FindEquiJoin(on: Expr, leftCols: seq<Text>, rightCols: seq<Text>) returns (r: Option<(Expr, Expr)>)
    ensures r.Some? ==> exists i ::
      (0 <= i < |Conjuncts(on)| && KeysOf(Conjuncts(on)[i], leftCols, rightCols) == r &&
       forall j | 0 <= j < i :: KeysOf(Conjuncts(on)[j], leftCols, rightCols).None?)
    ensures r.None? ==> forall c | c in Conjuncts(on) :: KeysOf(c, leftCols, rightCols).None?
  {
    hide KeysOf;
    var all := Conjuncts(on);
    for i := 0 to |all|
      invariant forall j | 0 <= j < i :: KeysOf(all[j], leftCols, rightCols).None?
    {
      if KeysOf(all[i], leftCols, rightCols).Some? {
        return KeysOf(all[i], leftCols, rightCols);
      }
    }
    r := None;
  }

  // Rows

  function Combine(l: Row, r: Row): Row { Row(l.columns + r.columns, l.values + r.values) }

  function NullExtend(l: Row, rightCols: seq<Text>): Row {
    Row(l.columns + rightCols, l.values + seq(|rightCols|, _ => Null))
  }

  /** All rows of one side have the same columns, with a value each. */
  predicate Uniform(rows: seq<Row>, cols: seq<Text>) {
    forall r | r in rows :: r.columns == cols && |r.values| == |cols|
  }

  /** The join of one left row with the first `n` right rows that pass `keep` and the predicate, in order. */
  function Partners(l: Row, right: seq<Row>, n: nat, keep: Row -> bool, on: Expr, g: Engine): (out: seq<Row>)
    requires n <= |right|
  {
    if n == 0 then []
    else
      var row := Combine(l, right[n - 1]);
      Partners(l, right, n - 1, keep, on, g) +
      (if keep(right[n - 1]) && Truthy(Eval(on, row, g)) then [row] else [])
  }

  function OneLeft(l: Row, right: seq<Row>, keep: Row -> bool, on: Expr, outer: bool, rightCols: seq<Text>, g: Engine): seq<Row> {
    var out := Partners(l, right, |right|, keep, on, g);
    if outer && out == [] then [NullExtend(l, rightCols)] else out
  }

  function Everything(): Row -> bool { (r: Row) => true }

  /** The nested loop, left row by left row. */
  function NestedLoop(left: seq<Row>, right: seq<Row>, on: Expr, outer: bool, rightCols: seq<Text>, g: Engine): seq<Row> {
    if |left| == 0 then []
    else
      NestedLoop(left[..|left| - 1], right, on, outer, rightCols, g) +
      OneLeft(left[|left| - 1], right, Everything(), on, outer, rightCols, g)
  }

  function RowKey(e: Expr, r: Row, g: Engine): Option<JoinKey> { KeyOf(Eval(e, r, g)) }

  /** The right rows in the bucket that the left row probes. */
  function InBucket(l: Row, leftKey: Expr, rightKey: Expr, g: Engine): Row -> bool {
    (r: Row) => RowKey(leftKey, l, g).Some? && RowKey(rightKey, r, g) == RowKey(leftKey, l, g)
  }

  function Hashed(left: seq<Row>, right: seq<Row>, leftKey: Expr, rightKey: Expr, on: Expr, outer: bool,
                  rightCols: seq<Text>, g: Engine): seq<Row>
  {
    if |left| == 0 then []
    else
      Hashed(left[..|left| - 1], right, leftKey, rightKey, on, outer, rightCols, g) +
      OneLeft(left[|left| - 1], right, InBucket(left[|left| - 1], leftKey, rightKey, g), on, outer, rightCols, g)
  }

  // The loops

  /** The join branch without keys. */
  method NestedLoopJoin(left: seq<Row>, right: seq<Row>, on: Expr, outer: bool, rightCols: seq<Text>, g: Engine)
      returns (out: seq<Row>)
    ensures out == NestedLoop(left, right, on, outer, rightCols, g)
  {
    hide Eval;
    out := [];
    for i := 0 to |left|
      invariant out == NestedLoop(left[..i], right, on, outer, rightCols, g)
    {
      var l, matched := left[i], false;
      ghost var before := out;
      for j := 0 to |right|
        invariant out == before + Partners(l, right, j, Everything(), on, g)
        invariant matched <==> Partners(l, right, j, Everything(), on, g) != []
      {
        var row := Combine(l, right[j]);
        if Truthy(Eval(on, row, g)) {
          matched := true;
          out := out + [row];
        }
      }
      if outer && !matched {
        out := out + [NullExtend(l, rightCols)];
      }
      assert left[..i + 1][..i] == left[..i];
    }
    assert left[..|left|] == left;
  }

  /** The indices below `n` of the right rows with the key, ascending. */
  function Bucket(right: seq<Row>, n: nat, rightKey: Expr, k: JoinKey, g: Engine): (b: seq<nat>)
    requires n <= |right|
    ensures forall j | 0 <= j < |b| :: b[j] < n
  {
    if n == 0 then []
    else Bucket(right, n - 1, rightKey, k, g) + (if RowKey(rightKey, right[n - 1], g) == Some(k) then [n - 1] else [])
  }

  ghost predicate Buckets(m: map<JoinKey, seq<nat>>, right: seq<Row>, n: nat, rightKey: Expr, g: Engine)
    requires n <= |right|
  {
    forall k :: (if k in m then m[k] else []) == Bucket(right, n, rightKey, k, g)
  }

  /** Probing the indices of a bucket one by one. */
  function Probed(l: Row, right: seq<Row>, b: seq<nat>, on: Expr, g: Engine): seq<Row>
    requires forall j | 0 <= j < |b| :: b[j] < |right|
  {
    if |b| == 0 then []
    else
      var row := Combine(l, right[b[|b| - 1]]);
      Probed(l, right, b[..|b| - 1], on, g) + (if Truthy(Eval(on, row, g)) then [row] else [])
  }

  lemma {:induction false} ProbedOneMore(l: Row, right: seq<Row>, b: seq<nat>, x: nat, on: Expr, g: Engine)
    requires x < |right| && forall j | 0 <= j < |b| :: b[j] < |right|
    ensures forall j | 0 <= j < |b + [x]| :: (b + [x])[j] < |right|
    ensures Probed(l, right, b + [x], on, g) ==
      Probed(l, right, b, on, g) + (if Truthy(Eval(on, Combine(l, right[x]), g)) then [Combine(l, right[x])] else [])
  {
    hide Eval, Truthy, Combine;
    assert (b + [x])[..|b|] == b;
  }

  lemma {:induction false} ProbedBucket(l: Row, right: seq<Row>, n: nat, leftKey: Expr, rightKey: Expr, on: Expr, g: Engine)
    requires n <= |right| && RowKey(leftKey, l, g).Some?
    ensures Probed(l, right, Bucket(right, n, rightKey, RowKey(leftKey, l, g).value, g), on, g) ==
      Partners(l, right, n, InBucket(l, leftKey, rightKey, g), on, g)
  {
    hide Eval, RowKey, Truthy, Combine, Probed;
    var k := RowKey(leftKey, l, g).value;
    if n == 0 {
      NothingProbed(l, right, on, g);
    } else {
      ProbedBucket(l, right, n - 1, leftKey, rightKey, on, g);
      var before := Bucket(right, n - 1, rightKey, k, g);
      if RowKey(rightKey, right[n - 1], g) == Some(k) {
        ProbedOneMore(l, right, before, n - 1, on, g);
      } else {
        assert Bucket(right, n, rightKey, k, g) == before;
      }
    }
  }

  lemma NothingProbed(l: Row, right: seq<Row>, on: Expr, g: Engine)
    ensures Probed(l, right, [], on, g) == []
  {
  }

  lemma {:induction false} NoBucket(l: Row, right: seq<Row>, n: nat, leftKey: Expr, rightKey: Expr, on: Expr, g: Engine)
    requires n <= |right| && RowKey(leftKey, l, g).None?
    ensures Partners(l, right, n, InBucket(l, leftKey, rightKey, g), on, g) == []
  {
    hide Eval, KeyOf, Truthy;
    if n > 0 {
      NoBucket(l, right, n - 1, leftKey, rightKey, on, g);
    }
  }

  method Probe(l: Row, right: seq<Row>, b: seq<nat>, on: Expr, g: Engine) returns (out: seq<Row>)
    requires forall j | 0 <= j < |b| :: b[j] < |right|
    ensures out == Probed(l, right, b, on, g)
  {
    hide Eval, Truthy;
    out := [];
    for i := 0 to |b|
      invariant out == Probed(l, right, b[..i], on, g)
    {
      assert b[..i + 1][..i] == b[..i];
      var row := Combine(l, right[b[i]]);
      if Truthy(Eval(on, row, g)) {
        out := out + [row];
      }
    }
    assert b[..|b|] == b;
  }

  lemma BucketsStep(m: map<JoinKey, seq<nat>>, right: seq<Row>, n: nat, rightKey: Expr, g: Engine)
    requires n < |right| && Buckets(m, right, n, rightKey, g)
    ensures var key := RowKey(rightKey, right[n], g);
      Buckets(if key.Some? then m[key.value := (if key.value in m then m[key.value] else []) + [n]] else m,
              right, n + 1, rightKey, g)
  {
    hide RowKey;
  }

  lemma NoBuckets(right: seq<Row>, rightKey: Expr, g: Engine)
    ensures Buckets(map[], right, 0, rightKey, g)
  {
  }

  method FillBuckets(right: seq<Row>, rightKey: Expr, g: Engine) returns (m: map<JoinKey, seq<nat>>)
    ensures Buckets(m, right, |right|, rightKey, g)
  {
    hide RowKey, Buckets;
    m := map[];
    NoBuckets(right, rightKey, g);
    for i := 0 to |right|
      invariant Buckets(m, right, i, rightKey, g)
    {
      var key := RowKey(rightKey, right[i], g);
      BucketsStep(m, right, i, rightKey, g);
      if key.Some? {
        m := m[key.value := (if key.value in m then m[key.value] else []) + [i]];
      }
    }
  }

  method ProbeLeft(l: Row, right: seq<Row>, buckets: map<JoinKey, seq<nat>>, leftKey: Expr, ghost rightKey: Expr, on: Expr,
                   g: Engine) returns (found: seq<Row>)
    requires Buckets(buckets, right, |right|, rightKey, g)
    ensures found == Partners(l, right, |right|, InBucket(l, leftKey, rightKey, g), on, g)
  {
    hide RowKey, Bucket, Probed, Partners, InBucket;
    var key := RowKey(leftKey, l, g);
    if key.None? {
      NoBucket(l, right, |right|, leftKey, rightKey, on, g);
      return [];
    }
    var b := if key.value in buckets then buckets[key.value] else [];
    assert b == Bucket(right, |right|, rightKey, key.value, g);
    ProbedBucket(l, right, |right|, leftKey, rightKey, on, g);
    found := Probe(l, right, b, on, g);
  }

  /** `hash_equi_join`. */
  method HashEquiJoin(left: seq<Row>, right: seq<Row>, leftKey: Expr, rightKey: Expr, on: Expr, outer: bool,
                      rightCols: seq<Text>, g: Engine) returns (out: seq<Row>)
    ensures out == Hashed(left, right, leftKey, rightKey, on, outer, rightCols, g)
  {
    hide OneLeft, InBucket, Buckets, Hashed;
    NothingHashed(right, leftKey, rightKey, on, outer, rightCols, g);
    var buckets := FillBuckets(right, rightKey, g);
    out := [];
    for i := 0 to |left|
      invariant out == Hashed(left[..i], right, leftKey, rightKey, on, outer, rightCols, g)
    {
      var found := ProbeLeft(left[i], right, buckets, leftKey, rightKey, on, g);
      out := out + found;
      if outer && found == [] {
        out := out + [NullExtend(left[i], rightCols)];
      }
      HashedOneMore(left, i, right, leftKey, rightKey, on, outer, rightCols, g);
    }
    assert left[..|left|] == left;
  }

  lemma NothingHashed(right: seq<Row>, leftKey: Expr, rightKey: Expr, on: Expr, outer: bool, rightCols: seq<Text>, g: Engine)
    ensures Hashed([], right, leftKey, rightKey, on, outer, rightCols, g) == []
  {
  }

  lemma {:induction false} HashedOneMore(left: seq<Row>, i: nat, right: seq<Row>, leftKey: Expr, rightKey: Expr, on: Expr,
                                         outer: bool, rightCols: seq<Text>, g: Engine)
    requires i < |left|
    ensures var found := Partners(left[i], right, |right|, InBucket(left[i], leftKey, rightKey, g), on, g);
      Hashed(left[..i + 1], right, leftKey, rightKey, on, outer, rightCols, g) ==
      Hashed(left[..i], right, leftKey, rightKey, on, outer, rightCols, g) +
      (if outer && found == [] then [NullExtend(left[i], rightCols)] else found)
  {
    hide Partners, InBucket;
    assert left[..i + 1][..i] == left[..i];
  }

  // The hash join is the nested loop

  /** The place at which `Row::get` finds a name. */
  function NamePlace(cols: seq<Text>, name: Text): (r: Option<nat>)
    ensures r.Some? ==> r.value < |cols|
  {
    if FullPosition(cols, name).Some? then FullPosition(cols, name) else ShortPosition(cols, name)
  }

  /** The place from which a column expression takes its value. */
  function Place(e: Expr, cols: seq<Text>): (r: Option<nat>)
    ensures r.Some? ==> r.value < |cols|
  {
    match e
    case Ident(name) => NamePlace(cols, name)
    case Compound(parts) =>
      if NamePlace(cols, Join(parts)).Some? then NamePlace(cols, Join(parts))
      else NamePlace(cols, if parts == [] then [] else parts[|parts| - 1])
    case _ => None
  }

  function Shifted(p: Option<nat>, n: nat): Option<nat> {
    match p case None => None case Some(i) => Some(i + n)
  }

  /** A column expression evaluates to the value at its place. */
  lemma ValueAtPlace(e: Expr, row: Row, g: Engine)
    requires ColName(e).Some? && |row.values| == |row.columns|
    ensures Eval(e, row, g) == if Place(e, row.columns).Some? then row.values[Place(e, row.columns).value] else Null
  {
    hide FullPosition, ShortPosition, Join;
  }

  /** A key on the combined row is the value at its place there, on one side or the other. */
  lemma KeyInCombined(e: Expr, l: Row, r: Row, g: Engine)
    requires |l.values| == |l.columns| && |r.values| == |r.columns| && ColName(e).Some?
    ensures var p := Place(e, l.columns + r.columns);
      Eval(e, Combine(l, r), g) ==
        if p.None? then Null else if p.value < |l.columns| then l.values[p.value] else r.values[p.value - |l.columns|]
    ensures NotIn(r.columns, e) ==> Eval(e, Combine(l, r), g) == Eval(e, l, g)
    ensures NotIn(l.columns, e) ==> Eval(e, Combine(l, r), g) == Eval(e, r, g)
  {
    hide Place, NotIn, Eval;
    ValueAtPlace(e, Combine(l, r), g);
    ValueAtPlace(e, l, g);
    ValueAtPlace(e, r, g);
    PlaceApart(e, l.columns, r.columns);
  }

  /** The names a key expression is looked up by. */
  function LookedUp(e: Expr): seq<Text> {
    match e
    case Ident(name) => [name]
    case Compound(parts) => [Join(parts), if parts == [] then [] else parts[|parts| - 1]]
    case _ => []
  }

  /** No column of the schema has the short name of the key. */
  predicate NotIn(schema: seq<Text>, e: Expr) {
    forall c, n | c in schema && n in LookedUp(e) :: !Meant(c, n)
  }

  /** A name that only one side has stands in the combined columns where it stands on its side. */
  lemma NameApart(a: seq<Text>, b: seq<Text>, name: Text)
    ensures (forall c | c in b :: !Meant(c, name)) ==> NamePlace(a + b, name) == NamePlace(a, name)
    ensures (forall c | c in a :: !Meant(c, name)) ==> NamePlace(a + b, name) == Shifted(NamePlace(b, name), |a|)
  {
    hide FullPosition, ShortPosition, Meant;
    if forall c | c in b :: !Meant(c, name) { PositionsInCombined(a, b, name); }
    if forall c | c in a :: !Meant(c, name) { PositionsAfter(a, b, name); }
  }

  lemma PlaceApart(e: Expr, a: seq<Text>, b: seq<Text>)
    ensures NotIn(b, e) ==> Place(e, a + b) == Place(e, a)
    ensures NotIn(a, e) ==> Place(e, a + b) == Shifted(Place(e, b), |a|)
  {
    hide NamePlace, Meant, Join;
    forall n | n in LookedUp(e)
      ensures NotIn(b, e) ==> NamePlace(a + b, n) == NamePlace(a, n)
      ensures NotIn(a, e) ==> NamePlace(a + b, n) == Shifted(NamePlace(b, n), |a|)
    {
      NameApart(a, b, n);
    }
    assert e.Ident? ==> e.name in LookedUp(e);
    assert e.Compound? ==> LookedUp(e)[0] in LookedUp(e) && LookedUp(e)[1] in LookedUp(e);
  }

  lemma {:induction false} Unmeant(b: seq<Text>, name: Text)
    requires forall c | c in b :: !Meant(c, name)
    ensures FullPosition(b, name).None? && ShortPosition(b, name).None?
  {
    hide ShortName, EqIgnoreCase;
    if |b| > 0 {
      assert b[0] in b;
      Unmeant(b[1..], name);
    }
  }

  lemma {:induction false} PositionsInCombined(a: seq<Text>, b: seq<Text>, name: Text)
    requires forall c | c in b :: !Meant(c, name)
    ensures FullPosition(a + b, name) == FullPosition(a, name) && ShortPosition(a + b, name) == ShortPosition(a, name)
  {
    hide ShortName, EqIgnoreCase;
    if |a| == 0 {
      assert a + b == b;
      Unmeant(b, name);
    } else {
      assert (a + b)[1..] == a[1..] + b;
      PositionsInCombined(a[1..], b, name);
    }
  }

  lemma {:induction false} PositionsAfter(a: seq<Text>, b: seq<Text>, name: Text)
    requires forall c | c in a :: !Meant(c, name)
    ensures FullPosition(a + b, name) == Shifted(FullPosition(b, name), |a|)
    ensures ShortPosition(a + b, name) == Shifted(ShortPosition(b, name), |a|)
  {
    hide ShortName, EqIgnoreCase;
    if |a| == 0 {
      assert a + b == b;
    } else {
      assert (a + b)[1..] == a[1..] + b && a[0] in a;
      PositionsAfter(a[1..], b, name);
    }
  }

  // Keys have places

  lemma LowerSame(a: Text, b: Text)
    ensures LowerText(a) == LowerText(b) <==> EqIgnoreCase(a, b)
    ensures EqIgnoreCase(LowerText(a), a)
  {
    if EqIgnoreCase(a, b) {
      assert forall i | 0 <= i < |a| :: LowerText(a)[i] == LowerText(b)[i];
    } else if LowerText(a) == LowerText(b) {
      assert |a| == |LowerText(a)| == |b|;
      forall i | 0 <= i < |a| ensures LowerByte(a[i]) == LowerByte(b[i]) {
        assert LowerText(a)[i] == LowerText(b)[i];
      }
    }
  }

  /** A column the schema has for a name, or for its short name, is one `Row::get` takes. */
  lemma ColumnIsMeant(c: Text, name: Text)
    requires LowerText(c) == LowerText(name) || ShortName(LowerText(c)) == LowerText(name)
    ensures Meant(c, name)
  {
    hide ShortName, EqIgnoreCase, LowerText;
    if LowerText(c) == LowerText(name) {
      LowerSame(c, name);
    } else {
      LowerSame(c, c);
      LowerSame(name, name);
      SameShort(LowerText(c), c);
      Trans(ShortName(c), LowerText(name), name);
      Trans(LowerText(name), name, ShortName(c));
      Undotted(name);
      ShortOfPlain(name);
    }
  }

  lemma Undotted(name: Text)
    requires 46 !in LowerText(name)
    ensures 46 !in name
  {
    forall i | 0 <= i < |name| ensures name[i] != 46 {
      assert LowerText(name)[i] in LowerText(name);
    }
  }

  lemma NameHasPlace(cols: seq<Text>, name: Text)
    requires HasColumn(cols, LowerText(name))
    ensures NamePlace(cols, name).Some?
  {
    hide ShortName, EqIgnoreCase, Meant, LowerText;
    var c :| c in cols && (LowerText(c) == LowerText(name) || ShortName(LowerText(c)) == LowerText(name));
    ColumnIsMeant(c, name);
    var i :| 0 <= i < |cols| && cols[i] == c;
  }

  lemma KeyHasPlace(e: Expr, cols: seq<Text>)
    requires ColName(e).Some? && HasColumn(cols, ColName(e).value)
    ensures Place(e, cols).Some?
  {
    hide HasColumn, NamePlace, LowerText, Join;
    match e
    case Ident(name) => NameHasPlace(cols, name);
    case Compound(parts) =>
      assert ColName(e).value == LowerText(parts[|parts| - 1]);
      NameHasPlace(cols, parts[|parts| - 1]);
  }

  lemma PlaceStays(e: Expr, a: seq<Text>, b: seq<Text>)
    requires Place(e, a).Some? || Place(e, b).Some?
    ensures Place(e, a + b).Some?
  {
    hide NamePlace, Join;
    match e
    case Ident(name) => NameStays(name, a, b);
    case Compound(parts) =>
      NameStays(Join(parts), a, b);
      NameStays(if parts == [] then [] else parts[|parts| - 1], a, b);
  }

  lemma NameStays(name: Text, a: seq<Text>, b: seq<Text>)
    ensures NamePlace(a, name).Some? || NamePlace(b, name).Some? ==> NamePlace(a + b, name).Some?
  {
    hide EqIgnoreCase, ShortName;
    var both := a + b;
    assert forall i | 0 <= i < |a| :: both[i] == a[i];
    assert forall i | 0 <= i < |b| :: both[i + |a|] == b[i];
  }

  /** On the combined row the two keys are found where they are found on their sides,
      the one here and the other there. */
  predicate KeysInPlace(c: Expr, leftCols: seq<Text>, rightCols: seq<Text>)
    requires KeysOf(c, leftCols, rightCols).Some?
  {
    var (lk, rk) := KeysOf(c, leftCols, rightCols).value;
    {Place(lk, leftCols + rightCols), Place(rk, leftCols + rightCols)} ==
    {Place(lk, leftCols), Shifted(Place(rk, rightCols), |leftCols|)}
  }

  /** So they are if each has a short name that only its side has. */
  lemma ApartIsInPlace(c: Expr, leftCols: seq<Text>, rightCols: seq<Text>)
    requires KeysOf(c, leftCols, rightCols).Some?
    requires var (lk, rk) := KeysOf(c, leftCols, rightCols).value; NotIn(rightCols, lk) && NotIn(leftCols, rk)
    ensures KeysInPlace(c, leftCols, rightCols)
  {
    hide NotIn, Place, KeysOf;
    var (lk, rk) := KeysOf(c, leftCols, rightCols).value;
    PlaceApart(lk, leftCols, rightCols);
    PlaceApart(rk, leftCols, rightCols);
  }

  /** The places of the keys on their sides and on the combined row. */
  lemma KeysHavePlaces(c: Expr, leftCols: seq<Text>, rightCols: seq<Text>)
    requires KeysOf(c, leftCols, rightCols).Some?
    ensures var (lk, rk) := KeysOf(c, leftCols, rightCols).value;
      ColName(lk).Some? && ColName(rk).Some? && Place(lk, leftCols).Some? && Place(rk, rightCols).Some? &&
      Place(lk, leftCols + rightCols).Some? && Place(rk, leftCols + rightCols).Some? &&
      c.Binary? && c.op == Eq && ((c.left == lk && c.right == rk) || (c.left == rk && c.right == lk))
  {
    hide HasColumn, Place, ColName;
    var (lk, rk) := KeysOf(c, leftCols, rightCols).value;
    KeyHasPlace(lk, leftCols);
    KeyHasPlace(rk, rightCols);
    PlaceStays(lk, leftCols, rightCols);
    PlaceStays(rk, leftCols, rightCols);
  }

  lemma {:induction false} ConjunctHolds(e: Expr, c: Expr, row: Row, g: Engine)
    requires c in Conjuncts(e) && Truthy(Eval(e, row, g))
    ensures Truthy(Eval(c, row, g))
    decreases e
  {
    match e
    case Binary(l, And, r) =>
      if c in Conjuncts(l) {
        ConjunctHolds(l, c, row, g);
      } else {
        ConjunctHolds(r, c, row, g);
      }
    case Nested(x) => ConjunctHolds(x, c, row, g);
    case _ =>
  }

  /** A pair that satisfies the predicate is in the bucket. */
  lemma {:induction false} PredicateNeedsKeys(l: Row, r: Row, on: Expr, c: Expr, leftCols: seq<Text>, rightCols: seq<Text>, g: Engine)
    requires l.columns == leftCols && |l.values| == |leftCols| && r.columns == rightCols && |r.values| == |rightCols|
    requires c in Conjuncts(on) && KeysOf(c, leftCols, rightCols).Some? && KeysInPlace(c, leftCols, rightCols)
    requires Truthy(Eval(on, Combine(l, r), g))
    ensures var (lk, rk) := KeysOf(c, leftCols, rightCols).value; InBucket(l, lk, rk, g)(r)
  {
    hide KeysOf, KeyOf, ColName, Place, SqlEq, KeysInPlace, Combine;
    var (lk, rk) := KeysOf(c, leftCols, rightCols).value;
    var row := Combine(l, r);
    KeysHavePlaces(c, leftCols, rightCols);
    ConjunctHolds(on, c, row, g);
    KeyValues(c, l, r, g);
    KeysIffEq(Eval(c.left, row, g), Eval(c.right, row, g));
  }

  /** Keys in place take their values from their own sides, one way round or the other. */
  lemma KeyValues(c: Expr, l: Row, r: Row, g: Engine)
    requires |l.values| == |l.columns| && |r.values| == |r.columns|
    requires KeysOf(c, l.columns, r.columns).Some? && KeysInPlace(c, l.columns, r.columns)
    ensures var (lk, rk) := KeysOf(c, l.columns, r.columns).value;
      var (x, y) := (Eval(lk, Combine(l, r), g), Eval(rk, Combine(l, r), g));
      (x == Eval(lk, l, g) && y == Eval(rk, r, g)) || (x == Eval(rk, r, g) && y == Eval(lk, l, g))
  {
    hide KeysOf, ColName, Place, Eval, NotIn, Combine, KeysInPlace;
    var (lk, rk) := KeysOf(c, l.columns, r.columns).value;
    KeysHavePlaces(c, l.columns, r.columns);
    InPlaceCases(c, l.columns, r.columns);
    KeyInCombined(lk, l, r, g);
    KeyInCombined(rk, l, r, g);
    ValueAtPlace(lk, l, g);
    ValueAtPlace(rk, r, g);
  }

  lemma InPlaceCases(c: Expr, leftCols: seq<Text>, rightCols: seq<Text>)
    requires KeysOf(c, leftCols, rightCols).Some? && KeysInPlace(c, leftCols, rightCols)
    ensures var (lk, rk) := KeysOf(c, leftCols, rightCols).value;
      var (p, q, x, y) := (Place(lk, leftCols + rightCols), Place(rk, leftCols + rightCols),
                           Place(lk, leftCols), Shifted(Place(rk, rightCols), |leftCols|));
      (p == x && q == y) || (p == y && q == x)
  {
    hide KeysOf, Place;
    var (lk, rk) := KeysOf(c, leftCols, rightCols).value;
    var (p, q, x, y) := (Place(lk, leftCols + rightCols), Place(rk, leftCols + rightCols),
                         Place(lk, leftCols), Shifted(Place(rk, rightCols), |leftCols|));
    assert {p, q} == {x, y};
    assert p in {x, y} && q in {x, y} && x in {p, q} && y in {p, q};
  }

  lemma {:induction false} PartnersSame(l: Row, right: seq<Row>, n: nat, keep: Row -> bool, on: Expr, g: Engine)
    requires n <= |right|
    requires forall r | r in right && Truthy(Eval(on, Combine(l, r), g)) :: keep(r)
    ensures Partners(l, right, n, keep, on, g) == Partners(l, right, n, Everything(), on, g)
  {
    hide Eval, Truthy;
    if n > 0 {
      PartnersSame(l, right, n - 1, keep, on, g);
      assert right[n - 1] in right;
    }
  }

  /** With keys found in the same places on the combined row, the hash join, inner or
      left outer, returns exactly the rows of the nested loop, in its order. */
  lemma {:induction false} HashJoinIsNestedLoop(
    left: seq<Row>, right: seq<Row>, on: Expr, c: Expr, outer: bool, leftCols: seq<Text>, rightCols: seq<Text>, g: Engine)
    requires Uniform(left, leftCols) && Uniform(right, rightCols)
    requires c in Conjuncts(on) && KeysOf(c, leftCols, rightCols).Some? && KeysInPlace(c, leftCols, rightCols)
    ensures var (lk, rk) := KeysOf(c, leftCols, rightCols).value;
      Hashed(left, right, lk, rk, on, outer, rightCols, g) == NestedLoop(left, right, on, outer, rightCols, g)
  {
    hide KeysOf, KeysInPlace, Eval, InBucket, Conjuncts, Partners, Truthy;
    var (lk, rk) := KeysOf(c, leftCols, rightCols).value;
    if |left| > 0 {
      var l := left[|left| - 1];
      assert l in left;
      HashJoinIsNestedLoop(left[..|left| - 1], right, on, c, outer, leftCols, rightCols, g);
      forall r | r in right && Truthy(Eval(on, Combine(l, r), g)) ensures InBucket(l, lk, rk, g)(r) {
        PredicateNeedsKeys(l, r, on, c, leftCols, rightCols, g);
      }
      PartnersSame(l, right, |right|, InBucket(l, lk, rk, g), on, g);
    }
  }

  /** The hash join on the keys of `c` alone, against the nested loop. */
  ghost predicate SameJoin(left: seq<Row>, right: seq<Row>, c: Expr, outer: bool, leftCols: seq<Text>, rightCols: seq<Text>, g: Engine)
    requires KeysOf(c, leftCols, rightCols).Some?
  {
    var (lk, rk) := KeysOf(c, leftCols, rightCols).value;
    Hashed(left, right, lk, rk, c, outer, rightCols, g) == NestedLoop(left, right, c, outer, rightCols, g)
  }

  /** Joining on one equality of columns, hash join and nested loop agree on all rows
      exactly if the keys are found in the same places on the combined row. */
  lemma SameJoinIff(c: Expr, outer: bool, leftCols: seq<Text>, rightCols: seq<Text>, g: Engine)
    requires KeysOf(c, leftCols, rightCols).Some?
    ensures KeysInPlace(c, leftCols, rightCols) <==>
      forall left, right | Uniform(left, leftCols) && Uniform(right, rightCols) ::
        SameJoin(left, right, c, outer, leftCols, rightCols, g)
  {
    hide KeysInPlace, KeysOf, Hashed, NestedLoop;
    if KeysInPlace(c, leftCols, rightCols) {
      forall left, right | Uniform(left, leftCols) && Uniform(right, rightCols)
        ensures SameJoin(left, right, c, outer, leftCols, rightCols, g)
      {
        OnlyConjunct(c, leftCols, rightCols);
        HashJoinIsNestedLoop(left, right, c, c, outer, leftCols, rightCols, g);
      }
    } else {
      var l, r := LostPair(c, outer, leftCols, rightCols, g);
      assert !SameJoin([l], [r], c, outer, leftCols, rightCols, g);
    }
  }

  lemma OnlyConjunct(c: Expr, leftCols: seq<Text>, rightCols: seq<Text>)
    requires KeysOf(c, leftCols, rightCols).Some?
    ensures Conjuncts(c) == [c]
  {
  }

  /** Otherwise the join loses a pair of rows: all values differ, but those at the
      places of the keys on the combined row. */
  lemma {:induction false} LostPair(c: Expr, outer: bool, leftCols: seq<Text>, rightCols: seq<Text>, g: Engine) returns (l: Row, r: Row)
    requires KeysOf(c, leftCols, rightCols).Some? && !KeysInPlace(c, leftCols, rightCols)
    ensures Uniform([l], leftCols) && Uniform([r], rightCols) && !SameJoin([l], [r], c, outer, leftCols, rightCols, g)
  {
    hide KeysOf, Place, ColName, Hashed, NestedLoop, Eval, SqlEq, KeyOf;
    var (lk, rk) := KeysOf(c, leftCols, rightCols).value;
    var (n, all) := (|leftCols|, leftCols + rightCols);
    KeysHavePlaces(c, leftCols, rightCols);
    var (p, q) := (Place(lk, all).value, Place(rk, all).value);
    var values := seq(|all|, i => Int(if i == q then p else i));
    l, r := Row(leftCols, values[..n]), Row(rightCols, values[n..]);
    assert l.values + r.values == values;
    assert Combine(l, r) == Row(all, values);
    ValueAtPlace(lk, Combine(l, r), g);
    ValueAtPlace(rk, Combine(l, r), g);
    ValueAtPlace(lk, l, g);
    ValueAtPlace(rk, r, g);
    EqualSides(c, Combine(l, r), p, g);
    var (x, y) := (Place(lk, leftCols).value, n + Place(rk, rightCols).value);
    assert Eval(lk, l, g) == values[x] && Eval(rk, r, g) == values[y];
    OtherPlaces(p, q, x, y);
    assert values[x] != values[y];
    assert r.values[y - n] == values[y] && values[y].Int? && r.values[y - n] in r.values;
    OtherBucket(l, r, lk, rk, g);
    OnePair(l, r, lk, rk, c, outer, rightCols, g);
  }

  lemma EqualSides(c: Expr, row: Row, i: int, g: Engine)
    requires c.Binary? && c.op == Eq && Eval(c.left, row, g) == Eval(c.right, row, g) == Int(i)
    ensures Truthy(Eval(c, row, g))
  {
  }

  lemma OtherBucket(l: Row, r: Row, lk: Expr, rk: Expr, g: Engine)
    requires Eval(lk, l, g).Int? && Eval(rk, r, g).Int? && Eval(lk, l, g) != Eval(rk, r, g)
    ensures !InBucket(l, lk, rk, g)(r)
  {
    hide Eval;
  }

  lemma OtherPlaces(p: nat, q: nat, x: nat, y: nat)
    requires x < y
    ensures (if x == q then p else x) == (if y == q then p else y) ==> {Some(p), Some(q)} == {Some(x), Some(y)}
  {
    if (if x == q then p else x) == (if y == q then p else y) {
      assert (p == x && q == y) || (p == y && q == x);
      assert {Some(p), Some(q)} == {Some(q), Some(p)};
    }
  }

  lemma {:induction false} OnePair(l: Row, r: Row, lk: Expr, rk: Expr, c: Expr, outer: bool, rightCols: seq<Text>, g: Engine)
    requires Truthy(Eval(c, Combine(l, r), g)) && !InBucket(l, lk, rk, g)(r)
    requires r.columns == rightCols && |r.values| == |rightCols| > 0 && exists v :: v in r.values && !v.Null?
    ensures Hashed([l], [r], lk, rk, c, outer, rightCols, g) != NestedLoop([l], [r], c, outer, rightCols, g)
  {
    hide Eval, InBucket, Truthy;
    assert [l][..0] == [] && [l][0] == l;
    assert Partners(l, [r], 0, Everything(), c, g) == [] && Partners(l, [r], 0, InBucket(l, lk, rk, g), c, g) == [];
    assert Partners(l, [r], 1, Everything(), c, g) == [Combine(l, r)];
    assert Partners(l, [r], 1, InBucket(l, lk, rk, g), c, g) == [];
    assert NestedLoop([], [r], c, outer, rightCols, g) == [] && Hashed([], [r], lk, rk, c, outer, rightCols, g) == [];
    assert NestedLoop([l], [r], c, outer, rightCols, g) == [Combine(l, r)];
    assert Hashed([l], [r], lk, rk, c, outer, rightCols, g) == if outer then [NullExtend(l, rightCols)] else [];
    assert Combine(l, r) != NullExtend(l, rightCols) by {
      var i :| 0 <= i < |r.values| && !r.values[i].Null?;
      assert Combine(l, r).values[|l.values| + i] == r.values[i];
      assert NullExtend(l, rightCols).values[|l.values| + i] == Null;
    }
  }

  // "a.x", "a.y", "b.x", "b.y"
  const AX: Text := [97, 46, 120]
  const AY: Text := [97, 46, 121]
  const BX: Text := [98, 46, 120]
  const BY: Text := [98, 46, 121]
  const A: Text := [97]
  const B: Text := [98]
  const X: Text := [120]
  const Y: Text := [121]

  lemma Names()
    ensures ShortName(AX) == X && ShortName(AY) == Y && ShortName(BX) == X && ShortName(BY) == Y
    ensures Join([B, Y]) == BY && Join([A, X]) == AX
  {
    assert ShortName([97, 46]) == [] && ShortName([98, 46]) == [];
    assert AX[..2] == [97, 46] && AY[..2] == [97, 46] && BX[..2] == [98, 46] && BY[..2] == [98, 46];
    assert [B, Y][1..] == [Y] && [A, X][1..] == [X];
  }

  const LEFT_ROW := Row([AX, AY], [Int(1), Int(2)])
  const RIGHT_ROW := Row([BX, BY], [Int(5), Int(1)])
  /** `b.y = a.x` */
  const SWAPPED := Binary(Compound([B, Y]), Eq, Compound([A, X]))

  lemma HasIt(schema: seq<Text>, c: Text, short: Text)
    requires c in schema && ShortName(LowerText(c)) == short
    ensures HasColumn(schema, short)
  {
  }

  lemma SwappedKeys()
    ensures KeysOf(SWAPPED, LEFT_ROW.columns, RIGHT_ROW.columns) == Some((SWAPPED.left, SWAPPED.right))
  {
    hide HasColumn, ShortName;
    Names();
    assert LowerText(Y) == Y && LowerText(X) == X;
    assert LowerText(AY) == AY && LowerText(BX) == BX;
    HasIt(LEFT_ROW.columns, AY, Y);
    HasIt(RIGHT_ROW.columns, BX, X);
  }

  lemma DifferentNames()
    ensures !EqIgnoreCase(AX, BY) && !EqIgnoreCase(AY, BY) && !EqIgnoreCase(BX, BY)
    ensures !EqIgnoreCase(BX, AX) && !EqIgnoreCase(BY, AX) && !EqIgnoreCase(X, Y) && EqIgnoreCase(BY, BY) && EqIgnoreCase(AX, AX)
  {
    assert LowerByte(AX[0]) != LowerByte(BY[0]) && LowerByte(AY[0]) != LowerByte(BY[0]) && LowerByte(BX[2]) != LowerByte(BY[2]);
    assert LowerByte(BX[0]) != LowerByte(AX[0]) && LowerByte(BY[0]) != LowerByte(AX[0]) && LowerByte(X[0]) != LowerByte(Y[0]);
  }

  lemma SwappedInCombined()
    ensures Get(Combine(LEFT_ROW, RIGHT_ROW), BY) == Some(Int(1)) && Get(Combine(LEFT_ROW, RIGHT_ROW), AX) == Some(Int(1))
  {
    DifferentNames();
    hide EqIgnoreCase, ShortPosition, FullPosition;
    var all := Combine(LEFT_ROW, RIGHT_ROW).columns;
    assert all == [AX, AY, BX, BY];
    assert all[3] == BY && all[0] == AX;
    assert FullPosition(all, BY) == Some(3) && FullPosition(all, AX) == Some(0);
  }

  lemma SwappedAlone()
    ensures Get(LEFT_ROW, BY) == Some(Int(2)) && Get(RIGHT_ROW, AX) == Some(Int(5))
  {
    Names();
    DifferentNames();
    hide ShortName;
    assert FullPosition(LEFT_ROW.columns, BY) == None && FullPosition(RIGHT_ROW.columns, AX) == None;
    assert ShortPosition(LEFT_ROW.columns, BY) == Some(1) && ShortPosition(RIGHT_ROW.columns, AX) == Some(0);
  }

  lemma SwappedValues()
    ensures Get(Combine(LEFT_ROW, RIGHT_ROW), BY) == Some(Int(1)) && Get(Combine(LEFT_ROW, RIGHT_ROW), AX) == Some(Int(1))
    ensures Get(LEFT_ROW, BY) == Some(Int(2)) && Get(RIGHT_ROW, AX) == Some(Int(5))
  {
    hide *;
    SwappedInCombined();
    SwappedAlone();
  }

  /** When both sides have both key names, the keys of a swapped equality are paired the
      wrong way round, and a row the nested loop returns is lost. */
  lemma {:induction false} SwappedKeysLoseARow(g: Engine)
    ensures NestedLoop([LEFT_ROW], [RIGHT_ROW], SWAPPED, false, RIGHT_ROW.columns, g) == [Combine(LEFT_ROW, RIGHT_ROW)]
    ensures KeysOf(SWAPPED, LEFT_ROW.columns, RIGHT_ROW.columns) == Some((SWAPPED.left, SWAPPED.right))
    ensures Hashed([LEFT_ROW], [RIGHT_ROW], SWAPPED.left, SWAPPED.right, SWAPPED, false, RIGHT_ROW.columns, g) == []
  {
    hide Get, KeysOf, Partners, Join;
    SwappedKeys();
    SwappedPartners(g);
    assert [LEFT_ROW][..0] == [];
    assert NestedLoop([], [RIGHT_ROW], SWAPPED, false, RIGHT_ROW.columns, g) == [];
    assert Hashed([], [RIGHT_ROW], SWAPPED.left, SWAPPED.right, SWAPPED, false, RIGHT_ROW.columns, g) == [];
  }

  lemma {:induction false} SwappedPartners(g: Engine)
    ensures Partners(LEFT_ROW, [RIGHT_ROW], 1, Everything(), SWAPPED, g) == [Combine(LEFT_ROW, RIGHT_ROW)]
    ensures Partners(LEFT_ROW, [RIGHT_ROW], 1, InBucket(LEFT_ROW, SWAPPED.left, SWAPPED.right, g), SWAPPED, g) == []
  {
    hide Get, Join;
    SwappedValues();
    Names();
    var row := Combine(LEFT_ROW, RIGHT_ROW);
    assert Eval(SWAPPED, row, g) == Bool(true);
    assert RowKey(SWAPPED.left, LEFT_ROW, g) == Some(KeyInt(2)) && RowKey(SWAPPED.right, RIGHT_ROW, g) == Some(KeyInt(5));
    assert Partners(LEFT_ROW, [RIGHT_ROW], 0, Everything(), SWAPPED, g) == [];
  }
}
