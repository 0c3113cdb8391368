/** The loops of the DDL and DML executors: constraint checks with a set of keys
    seen, row building, row rewriting, dropping names. */
module Statements {
  import opened Bytes
  import opened CatalogState

  // Constraint checks

  method CheckNotNull(rows: seq<Row>, notNull: seq<nat>) returns (ok: bool)
    ensures ok <==> NotNullHolds(rows, notNull)
  {
    for i := 0 to |rows|
      invariant NotNullHolds(rows[..i], notNull)
    {
      var row := rows[i];
      for j := 0 to |notNull|
        invariant forall c: nat | c in notNull[..j] :: c < |row| && !Missing(row[c])
      {
        if notNull[j] >= |row| || Missing(row[notNull[j]]) {
          assert row in rows && notNull[j] in notNull;
          return false;
        }
        assert notNull[..j + 1] == notNull[..j] + [notNull[j]];
      }
      assert notNull[..|notNull|] == notNull;
      assert rows[..i + 1] == rows[..i] + [row];
    }
    assert rows[..|rows|] == rows;
    ok := true;
  }

  /** All rows have the columns of the group. */
  predicate AllInRange(rows: seq<Row>, group: seq<nat>) {
    forall r | r in rows :: InRange(group, r)
  }

  ghost function Keys(rows: seq<Row>, group: seq<nat>): set<seq<Text>>
    requires AllInRange(rows, group)
  {
    set r | r in rows :: Key(group, r)
  }

  /** The loop over new rows: does inserting their keys into `start` ever hit a key already there? */
  method Disjoint(rows: seq<Row>, group: seq<nat>, start: set<seq<Text>>) returns (ok: bool)
    requires AllInRange(rows, group)
    ensures ok <==> (forall r | r in rows :: Key(group, r) !in start) && UniqueHolds(rows, group)
  {
    var seen := start;
    for i := 0 to |rows|
      invariant seen == start + set r | r in rows[..i] :: Key(group, r)
      invariant forall r | r in rows[..i] :: Key(group, r) !in start
      invariant UniqueHolds(rows[..i], group)
    {
      assert rows[i] in rows;
      var k := Key(group, rows[i]);
      if k in seen {
        KeySeen(rows, group, start, i);
        return false;
      }
      assert rows[..i + 1] == rows[..i] + [rows[i]];
      forall a | 0 <= a < i ensures Key(group, rows[a]) != k {
        assert rows[..i][a] in rows[..i];
      }
      seen := seen + {k};
    }
    assert rows[..|rows|] == rows;
    ok := true;
  }

  lemma KeySeen(rows: seq<Row>, group: seq<nat>, start: set<seq<Text>>, i: nat)
    requires AllInRange(rows, group) && i < |rows|
    requires Key(group, rows[i]) in start || exists r :: r in rows[..i] && Key(group, r) == Key(group, rows[i])
    ensures rows[i] in rows
    ensures Key(group, rows[i]) in start || !UniqueHolds(rows, group)
  {
    if r :| r in rows[..i] && Key(group, r) == Key(group, rows[i]) {
      var a :| 0 <= a < i && rows[a] == r;
      assert !UniqueHolds(rows, group);
    }
  }

  method KeysOf(rows: seq<Row>, group: seq<nat>) returns (keys: set<seq<Text>>)
    requires AllInRange(rows, group)
    ensures keys == Keys(rows, group)
  {
    keys := {};
    for i := 0 to |rows|
      invariant keys == set r | r in rows[..i] :: Key(group, r)
    {
      assert rows[i] in rows;
      assert rows[..i + 1] == rows[..i] + [rows[i]];
      keys := keys + {Key(group, rows[i])};
    }
    assert rows[..|rows|] == rows;
  }

  lemma GroupsInRange(t: Table, rows: seq<Row>, group: seq<nat>)
    requires Declared(t) && group in t.unique && forall r | r in rows :: |r| == |t.columns|
    ensures AllInRange(rows, group)
  {
  }

  /** `check_constraints`, over the whole resulting table. */
  method CheckConstraints(t: Table, rows: seq<Row>) returns (ok: bool)
    requires Declared(t) && Fitting(t, rows)
    ensures ok <==> ConstraintsHold(t, rows)
  {
    hide UniqueHolds, NotNullHolds;
    ok := CheckNotNull(rows, t.notNull);
    if !ok {
      return;
    }
    for i := 0 to |t.unique|
      invariant forall g | g in t.unique[..i] :: UniqueHolds(rows, g)
    {
      assert t.unique[i] in t.unique;
      GroupsInRange(t, rows, t.unique[i]);
      ok := Disjoint(rows, t.unique[i], {});
      if !ok {
        return;
      }
      assert t.unique[..i + 1] == t.unique[..i] + [t.unique[i]];
    }
    assert t.unique[..|t.unique|] == t.unique;
    ok := true;
  }

  lemma NewKeysSplit(had: seq<Row>, more: seq<Row>, group: seq<nat>)
    requires AllInRange(had, group) && AllInRange(more, group)
    ensures NewKeys(had, more, group) <==>
      (forall r | r in more :: Key(group, r) !in Keys(had, group)) && UniqueHolds(more, group)
  {
    if forall r | r in more :: Key(group, r) !in Keys(had, group) {
      forall o, r | o in had && r in more ensures Key(group, o) != Key(group, r) {
        assert Key(group, o) in Keys(had, group);
      }
    }
  }

  /** The checks of `exec_insert`: the new rows against themselves and the rows there. */
  method CheckInsert(t: Table, rows: seq<Row>) returns (ok: bool)
    requires Declared(t) && Fitting(t, t.rows) && forall r | r in rows :: |r| == |t.columns|
    ensures ok <==> InsertAllowed(t, rows)
  {
    hide UniqueHolds, NotNullHolds, NewKeys;
    ok := CheckNotNull(rows, t.notNull);
    if !ok {
      return;
    }
    for i := 0 to |t.unique|
      invariant forall g | g in t.unique[..i] :: NewKeys(t.rows, rows, g)
    {
      var group := t.unique[i];
      assert group in t.unique;
      GroupsInRange(t, rows, group);
      GroupsInRange(t, t.rows, group);
      NewKeysSplit(t.rows, rows, group);
      var there := KeysOf(t.rows, group);
      ok := Disjoint(rows, group, there);
      if !ok {
        return;
      }
      assert t.unique[..i + 1] == t.unique[..i] + [group];
    }
    assert t.unique[..|t.unique|] == t.unique;
    ok := true;
  }

  // Rows

  predicate ColumnsBelow(into: seq<nat>, n: nat) {
    forall c | c in into :: c < n
  }

  lemma PartBelow(into: seq<nat>, n: nat, i: nat, j: nat)
    requires ColumnsBelow(into, n) && i <= j <= |into|
    ensures ColumnsBelow(into[i..j], n)
  {
    forall c | c in into[i..j] ensures c in into {
    }
  }

  lemma {:induction false} PlacedStep(blank: Row, into: seq<nat>, src: Row, i: nat)
    requires ColumnsBelow(into, |blank|) && i < |into| && i < |src|
    ensures ColumnsBelow(into[..i], |blank|) && ColumnsBelow(into[..i + 1], |blank|)
    ensures into[i] in into
    ensures Placed(blank, into[..i + 1], src[..i + 1]) == Placed(blank, into[..i], src[..i])[into[i] := src[i]]
    decreases i
  {
    PartBelow(into, |blank|, 0, i);
    PartBelow(into, |blank|, 0, i + 1);
    assert into[i] in into && into[0] in into;
    if i == 0 {
      assert into[..1] == [into[0]] && src[..1] == [src[0]];
      assert into[..1][1..] == [] && into[..0] == [];
    } else {
      PartBelow(into, |blank|, 1, |into|);
      assert into[1..] == into[1..|into|];
      PlacedStep(blank[into[0] := src[0]], into[1..], src[1..], i - 1);
      assert into[1..][..i] == into[..i + 1][1..] && src[1..][..i] == src[..i + 1][1..];
      assert into[1..][..i - 1] == into[..i][1..] && src[1..][..i - 1] == src[..i][1..];
    }
  }

  lemma {:induction false} PlacedShort(blank: Row, into: seq<nat>, src: Row, n: nat)
    requires ColumnsBelow(into, |blank|)
    requires n == (if |src| < |into| then |src| else |into|)
    ensures ColumnsBelow(into[..n], |blank|) && Placed(blank, into, src) == Placed(blank, into[..n], src[..n])
    decreases n
  {
    PartBelow(into, |blank|, 0, n);
    if n > 0 {
      assert into[0] in into;
      PartBelow(into, |blank|, 1, |into|);
      assert into[1..] == into[1..|into|];
      PlacedShort(blank[into[0] := src[0]], into[1..], src[1..], n - 1);
      assert into[1..][..n - 1] == into[..n][1..] && src[1..][..n - 1] == src[..n][1..];
    }
  }

  /** The row an INSERT with a column list builds. */
  method PlaceCells(n: nat, into: seq<nat>, src: Row) returns (row: Row)
    requires forall c | c in into :: c < n
    ensures row == Placed(Blank(n), into, src)
  {
    row := Blank(n);
    ghost var len := if |src| < |into| then |src| else |into|;
    PlacedShort(Blank(n), into, src, len);
    var i := 0;
    while i < |into|
      invariant i <= |into| && |row| == n
      invariant var k := if i < len then i else len;
        ColumnsBelow(into[..k], n) && row == Placed(Blank(n), into[..k], src[..k])
    {
      if i < |src| {
        PlacedStep(Blank(n), into, src, i);
        row := row[into[i] := src[i]];
      }
      i := i + 1;
    }
  }

  lemma {:induction false} BuiltStep(n: nat, mapping: Option<seq<nat>>, src: seq<Row>, i: nat)
    requires (mapping.Some? ==> forall c | c in mapping.value :: c < n) && i < |src|
    ensures BuiltRows(n, mapping, src[..i + 1]) ==
      match BuiltRows(n, mapping, src[..i]) case Err => Err case Ok(rows) =>
        match BuiltRow(n, mapping, src[i]) case Err => Err case Ok(row) => Ok(rows + [row])
  {
    hide BuiltRow;
    if i == 0 {
      assert src[..1] == [src[0]] && src[..1][1..] == [] && src[..0] == [];
      var none: seq<Row> := [];
      assert forall row: Row :: [row] + none == none + [row];
    } else {
      BuiltStep(n, mapping, src[1..], i - 1);
      assert src[1..][..i] == src[..i + 1][1..] && src[1..][..i - 1] == src[..i][1..];
      var first, mid, last := BuiltRow(n, mapping, src[0]), BuiltRows(n, mapping, src[..i][1..]), BuiltRow(n, mapping, src[i]);
      if first.Ok? && mid.Ok? && last.Ok? {
        assert [first.value] + (mid.value + [last.value]) == ([first.value] + mid.value) + [last.value];
      }
    }
  }

  lemma {:induction false} BuiltFails(n: nat, mapping: Option<seq<nat>>, src: seq<Row>, i: nat)
    requires (mapping.Some? ==> forall c | c in mapping.value :: c < n) && i < |src|
    requires BuiltRow(n, mapping, src[i]).Err?
    ensures BuiltRows(n, mapping, src).Err?
  {
    hide BuiltRow;
    if i > 0 {
      BuiltFails(n, mapping, src[1..], i - 1);
    }
  }

  method BuildRows(n: nat, mapping: Option<seq<nat>>, src: seq<Row>) returns (r: Result<seq<Row>>)
    requires mapping.Some? ==> forall c | c in mapping.value :: c < n
    ensures r == BuiltRows(n, mapping, src)
  {
    hide BuiltRows;
    var rows := [];
    assert BuiltRows(n, mapping, src[..0]) == Ok([]) by { BuiltNone(n, mapping, src[..0]); }
    for i := 0 to |src|
      invariant BuiltRows(n, mapping, src[..i]) == Ok(rows)
    {
      BuiltStep(n, mapping, src, i);
      var row: Row;
      match mapping {
        case None =>
          if |src[i]| != n {
            BuiltFails(n, mapping, src, i);
            return Err;
          }
          row := src[i];
        case Some(into) =>
          row := PlaceCells(n, into, src[i]);
      }
      rows := rows + [row];
    }
    assert src[..|src|] == src;
    r := Ok(rows);
  }

  lemma {:induction false} BuiltNone(n: nat, mapping: Option<seq<nat>>, src: seq<Row>)
    requires (mapping.Some? ==> forall c | c in mapping.value :: c < n) && src == []
    ensures BuiltRows(n, mapping, src) == Ok([])
  {
  }

  lemma {:induction false} RewrittenStep(rows: seq<Row>, fate: Row -> Fate, i: nat)
    requires i < |rows|
    ensures Rewritten(rows[..i + 1], fate) ==
      match Rewritten(rows[..i], fate) case Err => Err case Ok(done) =>
        match fate(rows[i])
        case Broken => Err
        case Kept => Ok(done + [rows[i]])
        case Dropped => Ok(done)
        case Edited(changes) => Ok(done + [SetCells(rows[i], changes)])
  {
    var none: seq<Row> := [];
    if i == 0 {
      assert rows[..1] == [rows[0]] && rows[..1][1..] == [] && rows[..0] == [];
      assert forall row: Row :: [row] + none == none + [row];
    } else {
      RewrittenStep(rows[1..], fate, i - 1);
      assert rows[1..][..i] == rows[..i + 1][1..] && rows[1..][..i - 1] == rows[..i][1..];
      var mid := Rewritten(rows[..i][1..], fate);
      if mid.Ok? {
        assert forall a: Row, b: Row :: [a] + (mid.value + [b]) == ([a] + mid.value) + [b];
      }
    }
  }

  lemma {:induction false} RewriteFails(rows: seq<Row>, fate: Row -> Fate, i: nat)
    requires i < |rows| && fate(rows[i]).Broken?
    ensures Rewritten(rows, fate).Err?
  {
    if i > 0 {
      RewriteFails(rows[1..], fate, i - 1);
    }
  }

  /** The row loop of `rewrite_rows`. */
  method RewriteRows(rows: seq<Row>, fate: Row -> Fate) returns (r: Result<seq<Row>>, matched: nat)
    ensures r == Rewritten(rows, fate)
    ensures r.Ok? ==> (matched > 0 <==> AnyHit(rows, fate))
  {
    var done: seq<Row> := [];
    matched := 0;
    assert rows[..0] == [];
    for i := 0 to |rows|
      invariant Rewritten(rows[..i], fate) == Ok(done)
      invariant matched > 0 <==> AnyHit(rows[..i], fate)
    {
      RewrittenStep(rows, fate, i);
      HitStep(rows, fate, i);
      match fate(rows[i]) {
        case Broken =>
          RewriteFails(rows, fate, i);
          return Err, matched;
        case Kept =>
          done := done + [rows[i]];
        case Dropped =>
          matched := matched + 1;
        case Edited(changes) =>
          matched := matched + 1;
          done := done + [SetCells(rows[i], changes)];
      }
    }
    assert rows[..|rows|] == rows;
    r := Ok(done);
  }

  lemma HitStep(rows: seq<Row>, fate: Row -> Fate, i: nat)
    requires i < |rows|
    ensures AnyHit(rows[..i + 1], fate) <==> AnyHit(rows[..i], fate) || Hit(fate(rows[i]))
  {
    assert rows[..i + 1] == rows[..i] + [rows[i]];
    assert rows[i] in rows[..i + 1];
    assert forall r | r in rows[..i] :: r in rows[..i + 1];
  }

  // Dropping

  method MentionsBuiltIn(names: seq<Name>) returns (b: bool)
    ensures b <==> AnyBuiltIn(names)
  {
    for i := 0 to |names|
      invariant forall n | n in names[..i] :: !BuiltIn(n)
    {
      if BuiltIn(names[i]) {
        assert names[i] in names;
        return true;
      }
      assert names[..i + 1] == names[..i] + [names[i]];
    }
    assert names[..|names|] == names;
    b := false;
  }

  /** The two loops of a DROP: every name is validated before any is removed. */
  method DropNames<V>(m: map<Name, V>, names: seq<Name>, ifExists: bool)
      returns (r: Result<map<Name, V>>, removed: map<Name, V>)
    ensures r.Err? <==> !ifExists && !(Names(names) <= m.Keys)
    ensures r.Ok? ==> r.value == m - Names(names) && r.value + removed == m
    ensures r.Ok? ==> (removed != map[] <==> Names(names) * m.Keys != {})
  {
    removed := map[];
    if !ifExists {
      for i := 0 to |names|
        invariant forall n | n in names[..i] :: n in m
      {
        if names[i] !in m {
          assert names[i] in Names(names);
          return Err, removed;
        }
      }
      assert names[..|names|] == names;
    }
    var left := m;
    for i := 0 to |names|
      invariant left == m - Names(names[..i]) && left + removed == m
      invariant removed.Keys == Names(names[..i]) * m.Keys
    {
      assert Names(names[..i + 1]) == Names(names[..i]) + {names[i]} by {
        assert names[..i + 1] == names[..i] + [names[i]];
      }
      if names[i] in left {
        removed := removed[names[i] := left[names[i]]];
        left := left - {names[i]};
      }
    }
    assert names[..|names|] == names;
    assert removed != map[] ==> removed.Keys != {} by {
      if n :| n in removed {
        assert n in removed.Keys;
      } else {
        assert removed == map[];
      }
    }
    r := Ok(left);
  }
}
