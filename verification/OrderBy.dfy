/** ORDER BY: the comparison of key lists, the stable order it gives, and the in-place
    permutation that brings the rows into it. */
module OrderBy {
  import opened Bytes
  import opened SqlValue
  import opened SqlExpr

  type Keys = seq<Value>

  /** A sort expression, and whether it is DESC. */
  datatype SortBy = SortBy(e: Expr, desc: bool)

  predicate KeysOk(ks: Keys) { forall v | v in ks :: ValueOk(v) }

  /** The comparison closure: the first column that differs decides. */
  function CompareKeys(a: Keys, b: Keys, spec: seq<SortBy>): Ordering
    requires |a| == |b| == |spec|
  {
    if |spec| == 0 then Equal
    else
      var o := SortCmp(a[0], b[0]);
      var o2 := if spec[0].desc then Reverse(o) else o;
      if o2 != Equal then o2 else CompareKeys(a[1..], b[1..], spec[1..])
  }

  lemma {:induction false} KeysSymmetric(a: Keys, b: Keys, spec: seq<SortBy>)
    requires |a| == |b| == |spec| && KeysOk(a) && KeysOk(b)
    ensures CompareKeys(a, a, spec) == Equal && CompareKeys(b, a, spec) == Reverse(CompareKeys(a, b, spec))
  {
    hide SortCmp;
    if |spec| > 0 {
      assert a[0] in a && b[0] in b;
      SortSymmetric(a[0], b[0]);
      KeysSymmetric(a[1..], b[1..], spec[1..]);
    }
  }

  lemma {:induction false} KeysTransitive(a: Keys, b: Keys, c: Keys, spec: seq<SortBy>)
    requires |a| == |b| == |c| == |spec| && KeysOk(a) && KeysOk(b) && KeysOk(c)
    requires CompareKeys(a, b, spec) != Greater && CompareKeys(b, c, spec) != Greater
    ensures CompareKeys(a, c, spec) != Greater
    ensures CompareKeys(a, c, spec) == Equal ==> CompareKeys(a, b, spec) == Equal && CompareKeys(b, c, spec) == Equal
  {
    hide SortCmp;
    if |spec| > 0 {
      assert a[0] in a && b[0] in b && c[0] in c;
      FirstColumn(a[0], b[0], c[0], spec[0].desc);
      if SortCmp(a[0], b[0]) == Equal && SortCmp(b[0], c[0]) == Equal {
        KeysTransitive(a[1..], b[1..], c[1..], spec[1..]);
      }
    }
  }

  lemma FirstColumn(a: Value, b: Value, c: Value, desc: bool)
    requires ValueOk(a) && ValueOk(b) && ValueOk(c)
    ensures var x, y, z := SortCmp(a, b), SortCmp(b, c), SortCmp(a, c);
      var (p, q, r) := if desc then (Reverse(x), Reverse(y), Reverse(z)) else (x, y, z);
      p != Greater && q != Greater ==> r != Greater && (r == Equal <==> p == Equal && q == Equal)
  {
    hide SortCmp;
    SortSymmetric(a, b);
    SortSymmetric(b, c);
    SortSymmetric(a, c);
    if SortCmp(a, b) != Greater && SortCmp(b, c) != Greater { SortTransitive(a, b, c); }
    if SortCmp(c, b) != Greater && SortCmp(b, a) != Greater { SortTransitive(c, b, a); }
    if SortCmp(b, c) != Greater && SortCmp(c, a) != Greater { SortTransitive(b, c, a); }
    if SortCmp(c, a) != Greater && SortCmp(a, b) != Greater { SortTransitive(c, a, b); }
    if SortCmp(b, a) != Greater && SortCmp(a, c) != Greater { SortTransitive(b, a, c); }
    if SortCmp(a, c) != Greater && SortCmp(c, b) != Greater { SortTransitive(a, c, b); }
  }

  // The order

  predicate AllOk(keys: seq<Keys>, spec: seq<SortBy>) {
    forall i | 0 <= i < |keys| :: |keys[i]| == |spec| && KeysOk(keys[i])
  }

  /** Row `a` comes before row `b`: a smaller key, or equal keys and an earlier place. */
  predicate Before(keys: seq<Keys>, spec: seq<SortBy>, a: nat, b: nat)
    requires AllOk(keys, spec) && a < |keys| && b < |keys|
  {
    var o := CompareKeys(keys[a], keys[b], spec);
    o == Less || (o == Equal && a < b)
  }

  lemma BeforeIsTotal(keys: seq<Keys>, spec: seq<SortBy>, a: nat, b: nat)
    requires AllOk(keys, spec) && a < |keys| && b < |keys|
    ensures a != b ==> (Before(keys, spec, a, b) <==> !Before(keys, spec, b, a))
    ensures !Before(keys, spec, a, a)
  {
    KeysSymmetric(keys[a], keys[b], spec);
  }

  lemma BeforeIsTransitive(keys: seq<Keys>, spec: seq<SortBy>, a: nat, b: nat, c: nat)
    requires AllOk(keys, spec) && a < |keys| && b < |keys| && c < |keys|
    requires Before(keys, spec, a, b) && Before(keys, spec, b, c)
    ensures Before(keys, spec, a, c)
  {
    hide CompareKeys;
    KeysTransitive(keys[a], keys[b], keys[c], spec);
  }

  /** Each place below `n` once. */
  predicate IsPermutation(order: seq<nat>, n: nat)
    ensures IsPermutation(order, n) ==> |order| == n
  {
    |order| == n && (forall i | 0 <= i < n :: order[i] < n) && forall i, j | 0 <= i < j < n :: order[i] != order[j]
  }

  predicate InOrder(order: seq<nat>, keys: seq<Keys>, spec: seq<SortBy>)
    requires AllOk(keys, spec)
  {
    (forall i | 0 <= i < |order| :: order[i] < |keys|) &&
    forall i, j | 0 <= i < j < |order| :: Before(keys, spec, order[i], order[j])
  }

  /** What a stable `sort_by` on the indices gives. */
  predicate StableOrder(order: seq<nat>, keys: seq<Keys>, spec: seq<SortBy>)
    requires AllOk(keys, spec)
  {
    IsPermutation(order, |keys|) && InOrder(order, keys, spec)
  }

  function Placed(order: seq<nat>, x: nat, keys: seq<Keys>, spec: seq<SortBy>): (r: seq<nat>)
    requires AllOk(keys, spec) && x < |keys| && forall i | 0 <= i < |order| :: order[i] < |keys|
    ensures |r| == |order| + 1
  {
    if |order| == 0 then [x]
    else if Before(keys, spec, order[|order| - 1], x) then order + [x]
    else Placed(order[..|order| - 1], x, keys, spec) + [order[|order| - 1]]
  }

  /** The stable order of the first `n` rows, one row at a time. */
  function Sorted(keys: seq<Keys>, spec: seq<SortBy>, n: nat): (order: seq<nat>)
    requires AllOk(keys, spec) && n <= |keys|
    ensures |order| == n && forall i | 0 <= i < n :: order[i] < n
  {
    if n == 0 then []
    else
      var before := Sorted(keys, spec, n - 1);
      PlacedElements(before, n - 1, keys, spec);
      Placed(before, n - 1, keys, spec)
  }

  lemma {:induction false} PlacedElements(order: seq<nat>, x: nat, keys: seq<Keys>, spec: seq<SortBy>)
    requires AllOk(keys, spec) && x < |keys| && forall i | 0 <= i < |order| :: order[i] < x
    ensures forall i | 0 <= i < |order| + 1 :: Placed(order, x, keys, spec)[i] <= x
    ensures multiset(Placed(order, x, keys, spec)) == multiset(order) + multiset{x}
  {
    if |order| > 0 {
      var front := order[..|order| - 1];
      assert order == front + [order[|order| - 1]];
      PlacedElements(front, x, keys, spec);
    }
  }

  lemma {:induction false} PlacedInOrder(order: seq<nat>, x: nat, keys: seq<Keys>, spec: seq<SortBy>)
    requires AllOk(keys, spec) && x < |keys| && InOrder(order, keys, spec) && forall i | 0 <= i < |order| :: order[i] < x
    ensures InOrder(Placed(order, x, keys, spec), keys, spec)
    ensures forall z: nat | z < |keys| && (forall i | 0 <= i < |order| :: Before(keys, spec, order[i], z)) && Before(keys, spec, x, z) ::
      forall i | 0 <= i < |order| + 1 :: Before(keys, spec, Placed(order, x, keys, spec)[i], z)
  {
    hide Before;
    if |order| > 0 {
      var n := |order| - 1;
      var last := order[n];
      if Before(keys, spec, last, x) {
        forall i | 0 <= i < n ensures Before(keys, spec, order[i], x) {
          BeforeIsTransitive(keys, spec, order[i], last, x);
        }
      } else {
        BeforeIsTotal(keys, spec, last, x);
        PlacedInOrder(order[..n], x, keys, spec);
      }
    }
  }

  lemma {:induction false} SortedIsStable(keys: seq<Keys>, spec: seq<SortBy>, n: nat)
    requires AllOk(keys, spec) && n <= |keys|
    ensures InOrder(Sorted(keys, spec, n), keys, spec)
    ensures IsPermutation(Sorted(keys, spec, n), n)
  {
    hide Before;
    if n > 0 {
      SortedIsStable(keys, spec, n - 1);
      PlacedInOrder(Sorted(keys, spec, n - 1), n - 1, keys, spec);
    }
    var s := Sorted(keys, spec, n);
    forall i, j | 0 <= i < j < n ensures s[i] != s[j] {
      BeforeIsTotal(keys, spec, s[i], s[i]);
    }
  }

  /** There is only one stable order, so any stable sort gives this one. */
  lemma {:induction false} StableOrderIsUnique(a: seq<nat>, b: seq<nat>, keys: seq<Keys>, spec: seq<SortBy>, k: nat)
    requires AllOk(keys, spec) && StableOrder(a, keys, spec) && StableOrder(b, keys, spec) && k <= |keys|
    ensures a[..k] == b[..k]
  {
    hide Before;
    if k > 0 {
      StableOrderIsUnique(a, b, keys, spec, k - 1);
      assert a[..k] == a[..k - 1] + [a[k - 1]] && b[..k] == b[..k - 1] + [b[k - 1]];
      if a[k - 1] != b[k - 1] {
        var i := Later(a, b, k - 1);
        var j := Later(b, a, k - 1);
        assert Before(keys, spec, b[k - 1], b[i]) && Before(keys, spec, a[k - 1], a[j]);
        BeforeIsTotal(keys, spec, a[k - 1], b[k - 1]);
      }
    }
  }

  /** What `a` has at `k`, `b` has further on, if they agree up to `k` but not there. */
  lemma Later(a: seq<nat>, b: seq<nat>, k: nat) returns (i: nat)
    requires IsPermutation(a, |a|) && IsPermutation(b, |a|) && k < |a| && a[..k] == b[..k] && a[k] != b[k]
    ensures k < i < |a| && b[i] == a[k]
  {
    forall m | 0 <= m < k ensures a[m] == b[m] {
      assert a[..k][m] == b[..k][m];
    }
    Surjective(b, |a|, a[k]);
    i :| 0 <= i < |a| && b[i] == a[k];
  }

  lemma Surjective(b: seq<nat>, n: nat, x: nat)
    requires IsPermutation(b, n) && x < n
    ensures exists i :: 0 <= i < n && b[i] == x
  {
    if x !in b {
      var values := set v | v in b;
      TooFew(b, values);
      Range(n);
      assert values <= Below(n) - {x};
      Smaller(values, Below(n) - {x});
    }
  }

  function Below(n: nat): set<nat> { if n == 0 then {} else Below(n - 1) + {n - 1} }

  lemma {:induction false} Range(n: nat)
    ensures |Below(n)| == n && forall v: nat :: v in Below(n) <==> v < n
  {
    if n > 0 {
      Range(n - 1);
    }
  }

  lemma {:induction false} TooFew(b: seq<nat>, values: set<nat>)
    requires (forall i, j | 0 <= i < j < |b| :: b[i] != b[j]) && values == set v | v in b
    ensures |values| == |b|
  {
    if |b| > 0 {
      var n := |b| - 1;
      var rest := set v | v in b[..n];
      TooFew(b[..n], rest);
      assert b == b[..n] + [b[n]];
      assert values == rest + {b[n]} && b[n] !in b[..n];
    }
  }

  lemma {:induction false} Smaller(a: set<nat>, b: set<nat>)
    requires a <= b
    ensures |a| <= |b|
  {
    if x :| x in a {
      Smaller(a - {x}, b - {x});
    }
  }

  // The permutation in place

  /** How many of the first `n` places do not hold their own number. */
  function Misplaced(s: seq<nat>, n: nat): nat
    requires n <= |s|
  {
    if n == 0 then 0 else Misplaced(s, n - 1) + (if s[n - 1] != n - 1 then 1 else 0)
  }

  lemma {:induction false} SwapSettles(s: seq<nat>, i: nat, j: nat, n: nat)
    requires i < |s| && j < |s| && i != j && s[i] == j && s[j] != j && n <= |s|
    ensures var t := s[i := s[j]][j := j];
      Misplaced(t, n) <= Misplaced(s, n) && (j < n ==> Misplaced(t, n) < Misplaced(s, n))
  {
    if n > 0 {
      SwapSettles(s, i, j, n - 1);
    }
  }

  /** The item at `p` still has to go to position `dest[p]`. */
  ghost predicate Underway<T>(was: seq<T>, order: seq<nat>, items: seq<T>, dest: seq<nat>) {
    |was| == |order| == |items| == |dest| && IsPermutation(order, |order|) && IsPermutation(dest, |dest|) &&
    forall p | 0 <= p < |items| :: items[p] == was[order[dest[p]]]
  }

  /** The first `i` places hold their own numbers. */
  predicate Settled(dest: seq<nat>, i: nat) {
    i <= |dest| && forall p | 0 <= p < i :: dest[p] == p
  }

  lemma {:induction false} SwapStep<T>(was: seq<T>, order: seq<nat>, items: seq<T>, dest: seq<nat>, i: nat)
    requires Underway(was, order, items, dest) && i < |dest| && dest[i] != i && Settled(dest, i)
    ensures var j := dest[i];
      j < |dest| && Underway(was, order, items[i := items[j]][j := items[i]], dest[i := dest[j]][j := j]) &&
      Settled(dest[i := dest[j]][j := j], i) && Misplaced(dest[i := dest[j]][j := j], |dest|) < Misplaced(dest, |dest|)
  {
    var j := dest[i];
    assert dest[i] != dest[j];
    assert j > i;
    SwapSettles(dest, i, j, |dest|);
    assert IsPermutation(dest[i := dest[j]][j := j], |dest|) by { SwapPermutes(dest, i, j); }
  }

  lemma SwapPermutes(dest: seq<nat>, i: nat, j: nat)
    requires IsPermutation(dest, |dest|) && i < |dest| && j < |dest| && i != j
    ensures IsPermutation(dest[i := dest[j]][j := dest[i]], |dest|)
  {
  }

  /** `apply_permutation`: position `i` gets the old item at `order[i]`. */
  method ApplyPermutation<T>(items: array<T>, order: seq<nat>)
    requires IsPermutation(order, items.Length)
    modifies items
    ensures forall i | 0 <= i < items.Length :: items[i] == old(items[order[i]])
    ensures multiset(items[..]) == multiset(old(items[..]))
  {
    hide IsPermutation, Misplaced, Underway;
    var n := items.Length;
    ghost var was := items[..];
    var dest := Inverted(order, n);
    Begin(was, order, dest[..]);
    for i := 0 to n
      invariant Underway(was, order, items[..], dest[..]) && multiset(items[..]) == multiset(was)
      invariant Settled(dest[..], i)
    {
      while dest[i] != i
        invariant Underway(was, order, items[..], dest[..]) && multiset(items[..]) == multiset(was)
        invariant Settled(dest[..], i)
        decreases Misplaced(dest[..], n)
      {
        ghost var s, d := items[..], dest[..];
        SwapStep(was, order, s, d, i);
        var j := dest[i];
        Swap(items, i, j);
        Swap(dest, i, j);
      }
    }
    Arrived(was, order, items[..], dest[..]);
  }

  /** `swap`. */
  method Swap<T>(a: array<T>, i: nat, j: nat)
    requires i < a.Length && j < a.Length
    modifies a
    ensures a[..] == old(a[..])[i := old(a[j])][j := old(a[i])]
    ensures multiset(a[..]) == multiset(old(a[..]))
  {
    a[i], a[j] := a[j], a[i];
  }

  method Inverted(order: seq<nat>, n: nat) returns (dest: array<nat>)
    requires IsPermutation(order, n)
    ensures fresh(dest) && dest.Length == n && forall i | 0 <= i < n :: order[i] < n && dest[order[i]] == i
  {
    dest := new nat[n](_ => 0);
    for k := 0 to n
      invariant forall i | 0 <= i < k :: dest[order[i]] == i
    {
      dest[order[k]] := k;
    }
  }

  lemma Begin<T>(was: seq<T>, order: seq<nat>, dest: seq<nat>)
    requires |was| == |dest| && IsPermutation(order, |dest|)
    requires forall i | 0 <= i < |dest| :: order[i] < |dest| && dest[order[i]] == i
    ensures Underway(was, order, was, dest)
  {
    Inverse(order, dest);
  }

  lemma Arrived<T>(was: seq<T>, order: seq<nat>, items: seq<T>, dest: seq<nat>)
    requires Underway(was, order, items, dest) && forall p | 0 <= p < |dest| :: dest[p] == p
    ensures |items| == |was| == |order|
    ensures forall i | 0 <= i < |items| :: order[i] < |was| && items[i] == was[order[i]]
  {
  }

  lemma Inverse(order: seq<nat>, dest: seq<nat>)
    requires IsPermutation(order, |dest|) && forall i | 0 <= i < |dest| :: dest[order[i]] == i
    ensures IsPermutation(dest, |dest|) && forall p | 0 <= p < |dest| :: order[dest[p]] == p
  {
    forall p | 0 <= p < |dest| ensures dest[p] < |dest| && order[dest[p]] == p {
      Surjective(order, |dest|, p);
    }
  }

  function KeysOfRow(row: Row, spec: seq<SortBy>, g: Engine): (ks: Keys)
    ensures |ks| == |spec|
  {
    seq(|spec|, i requires 0 <= i < |spec| => Eval(spec[i].e, row, g))
  }

  type ResultRow = (Row, seq<Text>)

  function AllKeys(rows: seq<ResultRow>, spec: seq<SortBy>, g: Engine): (keys: seq<Keys>)
    ensures |keys| == |rows|
  {
    seq(|rows|, i requires 0 <= i < |rows| => KeysOfRow(rows[i].0, spec, g))
  }

  /** Rows the program can hold give keys that can be compared. */
  lemma KeysAreOk(rows: seq<ResultRow>, spec: seq<SortBy>, g: Engine)
    requires Lawful(g) && forall r | r in rows :: RowHeld(r.0, g)
    ensures AllOk(AllKeys(rows, spec, g), spec)
  {
    hide Lawful, RowHeld, Eval;
    forall i, j | 0 <= i < |rows| && 0 <= j < |spec| ensures ValueOk(Eval(spec[j].e, rows[i].0, g)) {
      assert rows[i] in rows;
      EvalHeld(spec[j].e, rows[i].0, g);
    }
  }

  // What the order means

  /** Neither value sorts before the other. */
  ghost predicate Tied(x: ResultRow, y: ResultRow, s: SortBy, g: Engine) {
    var (k, l) := (Eval(s.e, x.0, g), Eval(s.e, y.0, g));
    !SortsBefore(k, l) && !SortsBefore(l, k)
  }

  /** A row may stand before another: its value does not sort after, or not before if DESC. */
  ghost predicate Follows(x: ResultRow, y: ResultRow, s: SortBy, g: Engine) {
    var (k, l) := (Eval(s.e, x.0, g), Eval(s.e, y.0, g));
    if s.desc then !SortsBefore(k, l) else !SortsBefore(l, k)
  }

  ghost predicate TiedBefore(x: ResultRow, y: ResultRow, spec: seq<SortBy>, c: nat, g: Engine)
    requires c <= |spec|
  {
    forall d | 0 <= d < c :: Tied(x, y, spec[d], g)
  }

  /** Rows that tie in all earlier columns stand as the next one asks. */
  ghost predicate Ordered(rows: seq<ResultRow>, spec: seq<SortBy>, g: Engine) {
    forall i, j, c: nat | 0 <= i < j < |rows| && c < |spec| && TiedBefore(rows[i], rows[j], spec, c, g) ::
      Follows(rows[i], rows[j], spec[c], g)
  }

  lemma ColumnMeans(x: ResultRow, y: ResultRow, s: SortBy, g: Engine)
    requires ValueOk(Eval(s.e, x.0, g)) && ValueOk(Eval(s.e, y.0, g))
    ensures var o := SortCmp(Eval(s.e, x.0, g), Eval(s.e, y.0, g));
      (Tied(x, y, s, g) <==> o == Equal) && (Follows(x, y, s, g) <==> o != if s.desc then Less else Greater)
  {
    hide Eval, SortCmp, SortsBefore;
    SortCmpIs(Eval(s.e, x.0, g), Eval(s.e, y.0, g));
  }

  /** The comparison closure says what its columns say. */
  lemma {:induction false} CompareMeans(x: ResultRow, y: ResultRow, spec: seq<SortBy>, g: Engine)
    requires KeysOk(KeysOfRow(x.0, spec, g)) && KeysOk(KeysOfRow(y.0, spec, g))
    ensures var o := CompareKeys(KeysOfRow(x.0, spec, g), KeysOfRow(y.0, spec, g), spec);
      (o == Equal <==> TiedBefore(x, y, spec, |spec|, g)) &&
      (o != Greater ==> forall c: nat | c < |spec| && TiedBefore(x, y, spec, c, g) :: Follows(x, y, spec[c], g))
  {
    hide Eval, SortCmp, Tied, Follows;
    if |spec| > 0 {
      var (ks, ls, rest) := (KeysOfRow(x.0, spec, g), KeysOfRow(y.0, spec, g), spec[1..]);
      assert ks[0] in ks && ls[0] in ls;
      ColumnMeans(x, y, spec[0], g);
      assert ks[1..] == KeysOfRow(x.0, rest, g) && ls[1..] == KeysOfRow(y.0, rest, g);
      CompareMeans(x, y, rest, g);
      forall c: nat | c < |spec| ensures c > 0 ==>
        (TiedBefore(x, y, spec, c, g) <==> Tied(x, y, spec[0], g) && TiedBefore(x, y, rest, c - 1, g))
      {
        if c > 0 {
          TiedFirst(x, y, spec, c, g);
        }
      }
      TiedFirst(x, y, spec, |spec|, g);
      forall c: nat | 0 < c < |spec| && TiedBefore(x, y, rest, c - 1, g) ensures spec[c] == rest[c - 1] {
      }
    }
  }

  lemma TiedFirst(x: ResultRow, y: ResultRow, spec: seq<SortBy>, c: nat, g: Engine)
    requires 0 < c <= |spec|
    ensures TiedBefore(x, y, spec, c, g) <==> Tied(x, y, spec[0], g) && TiedBefore(x, y, spec[1..], c - 1, g)
  {
    hide Tied;
    var rest := spec[1..];
    if Tied(x, y, spec[0], g) && TiedBefore(x, y, rest, c - 1, g) {
      forall d | 0 <= d < c ensures Tied(x, y, spec[d], g) {
        assert d > 0 ==> spec[d] == rest[d - 1];
      }
    }
    if TiedBefore(x, y, spec, c, g) {
      forall d | 0 <= d < c - 1 ensures Tied(x, y, rest[d], g) {
        assert rest[d] == spec[d + 1];
      }
    }
  }

  /** The new rows come from the old ones one to one, rows that tie throughout in their old order. */
  ghost predicate Rearranged(was: seq<ResultRow>, now: seq<ResultRow>, order: seq<nat>, spec: seq<SortBy>, g: Engine) {
    IsPermutation(order, |was|) && |now| == |was| && (forall i | 0 <= i < |now| :: now[i] == was[order[i]]) &&
    forall i, j | 0 <= i < j < |now| && TiedBefore(now[i], now[j], spec, |spec|, g) :: order[i] < order[j]
  }

  lemma StableMeans(was: seq<ResultRow>, now: seq<ResultRow>, order: seq<nat>, spec: seq<SortBy>, g: Engine)
    requires AllOk(AllKeys(was, spec, g), spec) && StableOrder(order, AllKeys(was, spec, g), spec)
    requires |now| == |was| && forall i | 0 <= i < |now| :: now[i] == was[order[i]]
    ensures Ordered(now, spec, g) && Rearranged(was, now, order, spec, g)
  {
    hide CompareKeys, TiedBefore, Follows;
    var keys := AllKeys(was, spec, g);
    forall i, j | 0 <= i < j < |now|
      ensures (forall c: nat | c < |spec| && TiedBefore(now[i], now[j], spec, c, g) :: Follows(now[i], now[j], spec[c], g)) &&
        (TiedBefore(now[i], now[j], spec, |spec|, g) ==> order[i] < order[j])
    {
      assert Before(keys, spec, order[i], order[j]);
      CompareMeans(now[i], now[j], spec, g);
    }
  }

  /** `apply_order_by_exprs`: the first column in which two rows differ puts the smaller
      value first, or last under DESC; rows that tie keep their old order. */
  method ApplyOrderBy(rows: array<ResultRow>, spec: seq<SortBy>, g: Engine)
    requires AllOk(AllKeys(rows[..], spec, g), spec)
    modifies rows
    ensures multiset(rows[..]) == multiset(old(rows[..]))
    ensures Ordered(rows[..], spec, g)
    ensures exists order: seq<nat> ::
      StableOrder(order, AllKeys(old(rows[..]), spec, g), spec) && Rearranged(old(rows[..]), rows[..], order, spec, g)
  {
    hide Ordered, Rearranged;
    var keys := AllKeys(rows[..], spec, g);
    var order := Sorted(keys, spec, |keys|);
    SortedIsStable(keys, spec, |keys|);
    assert StableOrder(order, keys, spec);
    ApplyPermutation(rows, order);
    StableMeans(old(rows[..]), rows[..], order, spec, g);
  }
}
