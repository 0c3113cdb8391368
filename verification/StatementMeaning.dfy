/** What statements do to tables, in terms of the names and cells that they give; and
    that a table keeps the constraints it was declared with, over whole runs. */
module StatementMeaning {
  import opened Bytes
  import opened CatalogState

  // Names

  /** The names of the tables that show the documents. */
  predicate Reserved(name: Name) {
    name == Spelled("blocks") || name == Spelled("documents") || name == Spelled("links")
  }

  lemma ReservedIs(name: Name)
    ensures Reserved(name) <==> BuiltIn(name)
  {
    assert Spelled("blocks") == BLOCKS && Spelled("documents") == DOCUMENTS && Spelled("links") == LINKS;
  }

  /** A cell that is empty, or reads NULL. */
  predicate NothingIn(v: Text) { v == [] || v == Spelled("NULL") }

  lemma MissingIs(v: Text)
    ensures NothingIn(v) <==> Missing(v)
  {
    assert Spelled("NULL") == NULL_TEXT;
  }

  /** The first column with the name, ignoring ASCII case. */
  ghost predicate IsColumn(columns: seq<Name>, name: Name, i: nat) {
    i < |columns| && EqIgnoreCase(columns[i], name) && forall k | 0 <= k < i :: !EqIgnoreCase(columns[k], name)
  }

  lemma {:induction false} ColumnIndexNames(columns: seq<Name>, name: Name)
    ensures forall i: nat :: ColumnIndex(columns, name) == Some(i) <==> IsColumn(columns, name, i)
    ensures ColumnIndex(columns, name).None? <==> forall i: nat :: !IsColumn(columns, name, i)
  {
    hide EqIgnoreCase;
    FirstIndex(columns, name);
    if ColumnIndex(columns, name).Some? {
      assert IsColumn(columns, name, ColumnIndex(columns, name).value);
    }
  }

  lemma {:induction false} FirstIndex(columns: seq<Name>, name: Name)
    ensures ColumnIndex(columns, name).Some? ==>
      forall k | 0 <= k < ColumnIndex(columns, name).value :: !EqIgnoreCase(columns[k], name)
  {
    hide EqIgnoreCase;
    if |columns| > 0 && !EqIgnoreCase(columns[0], name) {
      FirstIndex(columns[1..], name);
    }
  }

  // Declared constraints

  /** Some of the names are of column `i`. */
  ghost predicate AmongNamed(columns: seq<Name>, names: seq<Name>, i: nat) {
    exists n :: n in names && IsColumn(columns, n, i)
  }

  lemma {:induction false} ResolvedIs(columns: seq<Name>, names: seq<Name>)
    ensures forall i: nat :: i in Resolved(columns, names) <==> AmongNamed(columns, names, i)
  {
    hide IsColumn;
    if |names| > 0 {
      ResolvedIs(columns, names[1..]);
      ColumnIndexNames(columns, names[0]);
      assert names == [names[0]] + names[1..];
      forall i: nat ensures AmongNamed(columns, names, i) <==> IsColumn(columns, names[0], i) || AmongNamed(columns, names[1..], i) {
        assert forall n :: n in names <==> n == names[0] || n in names[1..];
      }
    }
  }

  /** The definition of column `i`, or a PRIMARY KEY over it, forbids missing cells. */
  ghost predicate DeclaredNotNull(defs: seq<ColumnDef>, cs: seq<TableConstraint>, i: nat) {
    (i < |defs| && (defs[i].notNull || defs[i].primaryKey)) ||
    exists c :: c in cs && c.PrimaryKeyOver? && AmongNamed(ColumnNames(defs), c.columns, i)
  }

  /** The group is a column defined UNIQUE or PRIMARY KEY. */
  ghost predicate UniqueAlone(defs: seq<ColumnDef>, g: seq<nat>) {
    |g| == 1 && g[0] < |defs| && (defs[g[0]].unique || defs[g[0]].primaryKey)
  }

  /** The group is the columns that a constraint names, of which there is one. */
  ghost predicate NamedTogether(defs: seq<ColumnDef>, c: TableConstraint, g: seq<nat>) {
    g != [] && forall i: nat :: i in g <==> AmongNamed(ColumnNames(defs), c.columns, i)
  }

  lemma {:induction false} DefNotNullIs(defs: seq<ColumnDef>, at: nat)
    ensures forall i: nat :: i in DefNotNull(defs, at) <==> at <= i < at + |defs| && (defs[i - at].notNull || defs[i - at].primaryKey)
  {
    if |defs| > 0 {
      DefNotNullIs(defs[1..], at + 1);
    }
  }

  lemma {:induction false} DefUniqueIs(defs: seq<ColumnDef>, at: nat)
    ensures forall g :: g in DefUnique(defs, at) <==>
      |g| == 1 && at <= g[0] < at + |defs| && (defs[g[0] - at].unique || defs[g[0] - at].primaryKey)
  {
    if |defs| > 0 {
      DefUniqueIs(defs[1..], at + 1);
      forall g | |g| == 1 && g[0] == at ensures g == [at] {
      }
    }
  }

  lemma {:induction false} TableNotNullIs(columns: seq<Name>, cs: seq<TableConstraint>)
    ensures forall i: nat :: i in TableNotNull(columns, cs) <==> exists c :: c in cs && c.PrimaryKeyOver? && AmongNamed(columns, c.columns, i)
  {
    hide AmongNamed, Resolved;
    if |cs| > 0 {
      TableNotNullIs(columns, cs[1..]);
      ResolvedIs(columns, cs[0].columns);
      assert cs == [cs[0]] + cs[1..];
      assert forall c :: c in cs <==> c == cs[0] || c in cs[1..];
    }
  }

  lemma {:induction false} TableUniqueIs(columns: seq<Name>, cs: seq<TableConstraint>)
    ensures forall g :: g in TableUnique(columns, cs) <==> g != [] && exists c :: c in cs && g == Resolved(columns, c.columns)
  {
    hide Resolved;
    if |cs| > 0 {
      TableUniqueIs(columns, cs[1..]);
      assert cs == [cs[0]] + cs[1..];
      assert forall c :: c in cs <==> c == cs[0] || c in cs[1..];
    }
  }

  /** A new table has exactly the columns and the NOT NULL columns its statement declares. */
  lemma FreshColumns(defs: seq<ColumnDef>, cs: seq<TableConstraint>)
    ensures var t := Fresh(defs, cs); |t.columns| == |defs| && t.rows == [] && forall i | 0 <= i < |defs| :: t.columns[i] == defs[i].name
    ensures forall i: nat :: i in Fresh(defs, cs).notNull <==> DeclaredNotNull(defs, cs, i)
  {
    hide DefNotNull, TableNotNull, AmongNamed;
    DefNotNullIs(defs, 0);
    TableNotNullIs(ColumnNames(defs), cs);
  }

  /** And exactly its groups of unique columns. */
  lemma FreshGroups(defs: seq<ColumnDef>, cs: seq<TableConstraint>)
    ensures forall g | g in Fresh(defs, cs).unique :: UniqueAlone(defs, g) || exists c :: c in cs && NamedTogether(defs, c, g)
    ensures forall g | UniqueAlone(defs, g) :: g in Fresh(defs, cs).unique
    ensures forall c, i: nat | c in cs && AmongNamed(ColumnNames(defs), c.columns, i) ::
      exists g :: g in Fresh(defs, cs).unique && NamedTogether(defs, c, g)
  {
    hide DefUnique, TableUnique, AmongNamed, Resolved, ColumnNames;
    var columns := ColumnNames(defs);
    DefUniqueIs(defs, 0);
    TableUniqueIs(columns, cs);
    forall c | c in cs ensures Resolved(columns, c.columns) != [] ==> NamedTogether(defs, c, Resolved(columns, c.columns)) {
      ResolvedIs(columns, c.columns);
    }
    forall c, i: nat | c in cs && AmongNamed(columns, c.columns, i)
      ensures exists g :: g in Fresh(defs, cs).unique && NamedTogether(defs, c, g)
    {
      ResolvedIs(columns, c.columns);
      assert Resolved(columns, c.columns) in TableUnique(columns, cs);
    }
  }

  /** No cell is missing where the declaration forbids it. */
  ghost predicate NothingMissing(rows: seq<Row>, defs: seq<ColumnDef>, cs: seq<TableConstraint>) {
    forall r, i: nat | r in rows && DeclaredNotNull(defs, cs, i) :: i < |r| && !NothingIn(r[i])
  }

  /** Two rows have different cells in column `i`. */
  predicate Differ(x: Row, y: Row, i: nat) { i < |x| && i < |y| && x[i] != y[i] }

  /** They differ in every column declared unique, and in one at least of those a constraint names. */
  ghost predicate ToldApart(x: Row, y: Row, defs: seq<ColumnDef>, cs: seq<TableConstraint>) {
    (forall i: nat | i < |defs| && (defs[i].unique || defs[i].primaryKey) :: Differ(x, y, i)) &&
    forall c | c in cs && NamesSome(defs, c) :: DifferIn(x, y, defs, c)
  }

  ghost predicate NamesSome(defs: seq<ColumnDef>, c: TableConstraint) {
    exists i: nat :: AmongNamed(ColumnNames(defs), c.columns, i)
  }

  ghost predicate DifferIn(x: Row, y: Row, defs: seq<ColumnDef>, c: TableConstraint) {
    exists i: nat :: AmongNamed(ColumnNames(defs), c.columns, i) && Differ(x, y, i)
  }

  ghost predicate NothingTwice(rows: seq<Row>, defs: seq<ColumnDef>, cs: seq<TableConstraint>) {
    forall a, b | 0 <= a < b < |rows| :: ToldApart(rows[a], rows[b], defs, cs)
  }

  /** The table has the columns and constraints that the statement declares. */
  ghost predicate DeclaredBy(t: Table, defs: seq<ColumnDef>, cs: seq<TableConstraint>) {
    t.columns == Fresh(defs, cs).columns && t.notNull == Fresh(defs, cs).notNull && t.unique == Fresh(defs, cs).unique
  }

  lemma SameKeys(g: seq<nat>, x: Row, y: Row)
    requires InRange(g, x) && InRange(g, y)
    ensures (forall k | 0 <= k < |g| :: !Differ(x, y, g[k])) ==> Key(g, x) == Key(g, y)
  {
    assert forall k | 0 <= k < |g| :: g[k] in g;
  }

  lemma GroupsTellApart(t: Table, g: seq<nat>, a: nat, b: nat)
    requires TableOk(t) && g in t.unique && a < b < |t.rows|
    ensures exists i :: i in g && Differ(t.rows[a], t.rows[b], i)
  {
    hide Key, Differ;
    assert UniqueHolds(t.rows, g) && t.rows[a] in t.rows && t.rows[b] in t.rows;
    SameKeys(g, t.rows[a], t.rows[b]);
    var k :| 0 <= k < |g| && Differ(t.rows[a], t.rows[b], g[k]);
    assert g[k] in g;
  }

  lemma RowsToldApart(t: Table, defs: seq<ColumnDef>, cs: seq<TableConstraint>, a: nat, b: nat)
    requires TableOk(t) && DeclaredBy(t, defs, cs) && a < b < |t.rows|
    ensures ToldApart(t.rows[a], t.rows[b], defs, cs)
  {
    hide Fresh, TableOk, Differ, AmongNamed, ColumnNames;
    FreshGroups(defs, cs);
    var (x, y) := (t.rows[a], t.rows[b]);
    forall i: nat | i < |defs| && (defs[i].unique || defs[i].primaryKey) ensures Differ(x, y, i) {
      var g: seq<nat> := [i];
      assert UniqueAlone(defs, g);
      GroupsTellApart(t, g, a, b);
    }
    forall c | c in cs && NamesSome(defs, c) ensures DifferIn(x, y, defs, c) {
      var g :| g in Fresh(defs, cs).unique && NamedTogether(defs, c, g);
      GroupsTellApart(t, g, a, b);
      var i :| i in g && Differ(x, y, i);
    }
  }

  /** A table within its constraints has no cell missing and none twice where that was declared. */
  lemma DeclaredHolds(t: Table, defs: seq<ColumnDef>, cs: seq<TableConstraint>)
    requires TableOk(t) && DeclaredBy(t, defs, cs)
    ensures NothingMissing(t.rows, defs, cs) && NothingTwice(t.rows, defs, cs)
  {
    hide Fresh, DeclaredNotNull, TableOk, Missing, NothingIn, ToldApart;
    FreshColumns(defs, cs);
    OkIsNotNull(t);
    forall v: Text {
      MissingIs(v);
    }
    forall a, b | 0 <= a < b < |t.rows| ensures ToldApart(t.rows[a], t.rows[b], defs, cs) {
      RowsToldApart(t, defs, cs, a, b);
    }
  }

  lemma OkIsNotNull(t: Table)
    requires TableOk(t)
    ensures NotNullHolds(t.rows, t.notNull)
  {
  }

  // Over runs

  /** The statement drops or replaces the table, or is a ROLLBACK that goes through. */
  predicate TakesAway(db: Db, s: Stmt, name: Name) {
    (s.DropTables? && name in s.names) || (s.CreateTableAs? && s.orReplace && s.name == name) ||
    (s.Rollback? && db.tx.Some? && !db.tx.value.externalWrite)
  }

  lemma {:induction false} StaysDeclared(db: Db, session: nat, s: Stmt, ok: bool, next: Db, name: Name, defs: seq<ColumnDef>,
                                         cs: seq<TableConstraint>)
    requires Executes(db, session, s, ok, next) && name in db.tables && DeclaredBy(db.tables[name], defs, cs)
    requires !TakesAway(db, s, name)
    ensures name in next.tables && DeclaredBy(next.tables[name], defs, cs)
  {
    hide Fresh, InsertAllowed, BuiltRows, Mapping, Rewritten, AnyHit, ConstraintsHold;
  }

  /** From a CREATE TABLE that made it until it is dropped, replaced or rolled back, and
      whatever any session does, a table has no missing cell in a column declared NOT NULL
      or PRIMARY KEY, and nothing twice in what was declared UNIQUE or PRIMARY KEY. */
  lemma DeclaredConstraintsHold(states: seq<Db>, events: seq<Event>, b: nat, e: nat)
    requires Run(states, events) && DbOk(states[0]) && b < e < |states|
    requires var s := events[b].stmt; s.CreateTable? && events[b].ok && s.name !in states[b].tables
    requires forall k | b < k < e :: !TakesAway(states[k], events[k].stmt, events[b].stmt.name)
    ensures var s := events[b].stmt;
      s.name in states[e].tables && |states[e].tables[s.name].columns| == |s.columns| &&
      NothingMissing(states[e].tables[s.name].rows, s.columns, s.constraints) &&
      NothingTwice(states[e].tables[s.name].rows, s.columns, s.constraints)
  {
    hide Executes, DbOk, DeclaredBy, NothingMissing, NothingTwice;
    var s := events[b].stmt;
    StillDeclared(states, events, b, e);
    RunKeepsDb(states, events, e);
    TableIsOk(states[e], s.name);
    DeclaredHolds(states[e].tables[s.name], s.columns, s.constraints);
    DeclaredWidth(states[e].tables[s.name], s.columns, s.constraints);
  }

  lemma TableIsOk(db: Db, name: Name)
    requires DbOk(db) && name in db.tables
    ensures TableOk(db.tables[name])
  {
  }

  lemma DeclaredWidth(t: Table, defs: seq<ColumnDef>, cs: seq<TableConstraint>)
    requires DeclaredBy(t, defs, cs)
    ensures |t.columns| == |defs|
  {
  }

  lemma {:induction false} StillDeclared(states: seq<Db>, events: seq<Event>, b: nat, k: nat)
    requires Run(states, events) && b < k < |states|
    requires var s := events[b].stmt; s.CreateTable? && events[b].ok && s.name !in states[b].tables
    requires forall m | b < m < k :: !TakesAway(states[m], events[m].stmt, events[b].stmt.name)
    ensures var s := events[b].stmt; s.name in states[k].tables && DeclaredBy(states[k].tables[s.name], s.columns, s.constraints)
  {
    hide Fresh, TakesAway;
    var s := events[b].stmt;
    if k == b + 1 {
      assert Executes(states[b], events[b].session, s, true, states[k]);
    } else {
      StillDeclared(states, events, b, k - 1);
      hide Executes, DeclaredBy;
      var ev := events[k - 1];
      assert Executes(states[k - 1], ev.session, ev.stmt, ev.ok, states[k]);
      StaysDeclared(states[k - 1], ev.session, ev.stmt, ev.ok, states[k], s.name, s.columns, s.constraints);
    }
  }

  // INSERT

  /** The row that VALUES gives for a column list: in each column the last cell listed for
      it, and nothing in the others. */
  ghost predicate PlacedByName(columns: seq<Name>, names: seq<Name>, src: Row, row: Row) {
    |row| == |columns| && forall i | 0 <= i < |columns| ::
      (forall j: nat | j < |names| && j < |src| && IsColumn(columns, names[j], i) &&
         (forall k | j < k < |names| && k < |src| :: !IsColumn(columns, names[k], i)) :: row[i] == src[j]) &&
      ((forall j: nat | j < |names| && j < |src| :: !IsColumn(columns, names[j], i)) ==> row[i] == [])
  }

  /** The row an INSERT makes of a row of VALUES, with or without a column list. */
  ghost predicate MadeOf(columns: seq<Name>, into: Option<seq<Name>>, src: Row, row: Row) {
    match into
    case None => row == src && |src| == |columns|
    case Some(names) =>
      (forall n | n in names :: exists i: nat :: IsColumn(columns, n, i)) && PlacedByName(columns, names, src, row)
  }

  lemma {:induction false} MappingIs(columns: seq<Name>, names: seq<Name>)
    ensures Mapping(columns, names).Err? <==> exists n :: n in names && forall i: nat :: !IsColumn(columns, n, i)
    ensures Mapping(columns, names).Ok? ==> forall j | 0 <= j < |names| :: IsColumn(columns, names[j], Mapping(columns, names).value[j])
  {
    hide IsColumn;
    if |names| > 0 {
      ColumnIndexNames(columns, names[0]);
      MappingIs(columns, names[1..]);
      assert names == [names[0]] + names[1..] && names[0] in names;
      assert forall n :: n in names <==> n == names[0] || n in names[1..];
      if Mapping(columns, names).Ok? {
        forall j | 0 <= j < |names| ensures IsColumn(columns, names[j], Mapping(columns, names).value[j]) {
          if j > 0 {
            assert names[j] == names[1..][j - 1];
          }
        }
      }
    }
  }

  /** The last of the first `n` places that is `i` is the `j`-th. */
  predicate ListedLast(into: seq<nat>, n: nat, i: nat, j: nat) {
    j < |into| && j < n && into[j] == i && forall k | j < k < |into| && k < n :: into[k] != i
  }

  predicate NotListed(into: seq<nat>, n: nat, i: nat) {
    forall j | 0 <= j < |into| && j < n :: into[j] != i
  }

  lemma ListedInRest(into: seq<nat>, n: nat, i: nat)
    requires |into| > 0 && n > 0
    ensures NotListed(into, n, i) <==> into[0] != i && NotListed(into[1..], n - 1, i)
    ensures ListedLast(into, n, i, 0) <==> into[0] == i && NotListed(into[1..], n - 1, i)
    ensures forall j | j > 0 :: ListedLast(into, n, i, j) <==> ListedLast(into[1..], n - 1, i, j - 1)
  {
    var rest := into[1..];
    assert forall k | 0 < k < |into| :: into[k] == rest[k - 1];
    if NotListed(rest, n - 1, i) {
      assert forall k | 0 < k < |into| && k < n :: into[k] != i;
    }
    forall j | j > 0 ensures ListedLast(into, n, i, j) <==> ListedLast(rest, n - 1, i, j - 1) {
      if ListedLast(rest, n - 1, i, j - 1) {
        assert forall k | j < k < |into| && k < n :: into[k] == rest[k - 1];
      }
      if ListedLast(into, n, i, j) {
        forall k | j - 1 < k < |rest| && k < n - 1 ensures rest[k] != i {
          assert rest[k] == into[k + 1];
        }
      }
    }
  }

  /** Cells go to the listed places, the last one if a place is listed twice. */
  lemma {:induction false} PlacedIs(blank: Row, into: seq<nat>, src: Row, i: nat)
    requires (forall c | c in into :: c < |blank|) && i < |blank|
    ensures NotListed(into, |src|, i) ==> Placed(blank, into, src)[i] == blank[i]
    ensures forall j: nat | j < |src| && ListedLast(into, |src|, i, j) :: Placed(blank, into, src)[i] == src[j]
    decreases |into|
  {
    hide ListedLast, NotListed;
    if |into| > 0 && |src| > 0 {
      assert into[0] in into && forall c | c in into[1..] :: c in into;
      var next := blank[into[0] := src[0]];
      PlacedIs(next, into[1..], src[1..], i);
      ListedInRest(into, |src|, i);
      assert Placed(blank, into, src) == Placed(next, into[1..], src[1..]);
      forall j: nat | j < |src| && ListedLast(into, |src|, i, j) ensures Placed(blank, into, src)[i] == src[j] {
        assert j > 0 ==> src[1..][j - 1] == src[j];
      }
    } else {
      forall j: nat ensures !ListedLast(into, |src|, i, j) {
        NoneListed(into, |src|, i, j);
      }
    }
  }

  lemma NoneListed(into: seq<nat>, n: nat, i: nat, j: nat)
    requires into == [] || n == 0
    ensures !ListedLast(into, n, i, j)
  {
  }

  lemma NamesOnce(columns: seq<Name>, name: Name, i: nat, j: nat)
    requires IsColumn(columns, name, i) && IsColumn(columns, name, j)
    ensures i == j
  {
  }

  lemma BuiltIs(columns: seq<Name>, names: seq<Name>, src: Row)
    requires Mapping(columns, names).Ok?
    ensures PlacedByName(columns, names, src, Placed(Blank(|columns|), Mapping(columns, names).value, src))
  {
    hide IsColumn, Mapping, Placed;
    var into := Mapping(columns, names).value;
    MappingIs(columns, names);
    forall i: nat, j: nat | j < |names| ensures IsColumn(columns, names[j], i) <==> into[j] == i {
      if IsColumn(columns, names[j], i) {
        NamesOnce(columns, names[j], i, into[j]);
      }
    }
    forall i: nat | i < |columns| {
      PlacedIs(Blank(|columns|), into, src, i);
    }
  }

  lemma {:induction false} RowsAreMade(columns: seq<Name>, into: Option<seq<Name>>, mapping: Option<seq<nat>>, src: seq<Row>)
    requires match into case None => mapping.None? case Some(names) => mapping.Some? && Mapping(columns, names) == Ok(mapping.value)
    requires BuiltRows(|columns|, mapping, src).Ok?
    ensures forall k | 0 <= k < |src| :: MadeOf(columns, into, src[k], BuiltRows(|columns|, mapping, src).value[k])
  {
    hide PlacedByName, Mapping, Placed, IsColumn;
    if |src| > 0 {
      RowsAreMade(columns, into, mapping, src[1..]);
      if into.Some? {
        BuiltIs(columns, into.value, src[0]);
        MappingIs(columns, into.value);
      }
      forall k | 0 <= k < |src| ensures MadeOf(columns, into, src[k], BuiltRows(|columns|, mapping, src).value[k]) {
        if k > 0 {
          assert src[k] == src[1..][k - 1];
        }
      }
    }
  }

  /** An INSERT that returns Ok adds behind the rows of its table one row for each of VALUES,
      and changes no other table, nor a view. */
  lemma InsertMeans(db: Db, session: nat, s: Stmt, next: Db)
    requires s.Insert? && Executes(db, session, s, true, next)
    ensures s.values.Ok? && s.name in db.tables && s.name in next.tables && next.views == db.views
    ensures var (t, rows) := (db.tables[s.name], next.tables[s.name].rows);
      next.tables == db.tables[s.name := t.(rows := rows)] && |rows| == |t.rows| + |s.values.value| && rows[..|t.rows|] == t.rows &&
      forall k | 0 <= k < |s.values.value| :: MadeOf(t.columns, s.into, s.values.value[k], rows[|t.rows| + k])
  {
    hide InsertAllowed, BuiltRows, MadeOf, Mapping;
    var t := db.tables[s.name];
    var mapping: Option<seq<nat>> := match s.into case None => None case Some(names) => Some(Mapping(t.columns, names).value);
    RowsAreMade(t.columns, s.into, mapping, s.values.value);
  }

  // UPDATE and DELETE

  /** What is left of the rows: row `k` comes from row `from[k]`, as it was or with new cells. */
  ghost predicate LeftBy(rows: seq<Row>, fate: Row -> Fate, out: seq<Row>, from: seq<nat>) {
    |from| == |out| && (forall k, m | 0 <= k < m < |from| :: from[k] < from[m]) &&
    (forall k | 0 <= k < |from| :: from[k] < |rows|) &&
    (forall i: nat | i < |rows| :: i in from <==> !fate(rows[i]).Dropped?) &&
    forall k | 0 <= k < |out| :: ChangedInto(rows[from[k]], fate(rows[from[k]]), out[k])
  }

  ghost predicate ChangedInto(row: Row, f: Fate, now: Row) {
    match f
    case Kept => now == row
    case Edited(changes) => |now| == |row| && forall i | 0 <= i < |row| :: now[i] == if i in changes then changes[i] else row[i]
    case _ => false
  }

  lemma {:induction false} RewrittenIs(rows: seq<Row>, fate: Row -> Fate)
    ensures Rewritten(rows, fate).Err? <==> exists i: nat :: i < |rows| && fate(rows[i]).Broken?
    ensures Rewritten(rows, fate).Ok? ==> exists from :: LeftBy(rows, fate, Rewritten(rows, fate).value, from)
  {
    if |rows| == 0 {
      assert LeftBy(rows, fate, [], []);
    } else {
      var rest := rows[1..];
      RewrittenIs(rest, fate);
      assert forall i: nat | 0 < i < |rows| :: rows[i] == rest[i - 1];
      if Rewritten(rows, fate).Ok? {
        var from :| LeftBy(rest, fate, Rewritten(rest, fate).value, from);
        if fate(rows[0]).Dropped? {
          LeftDropped(rows, fate, Rewritten(rest, fate).value, from);
        } else {
          LeftKept(rows, fate, Rewritten(rest, fate).value, from, Rewritten(rows, fate).value[0]);
        }
      } else if Rewritten(rest, fate).Err? {
        var i: nat :| i < |rest| && fate(rest[i]).Broken?;
        assert fate(rows[i + 1]).Broken?;
      }
    }
  }

  function Up(from: seq<nat>): (up: seq<nat>)
    ensures |up| == |from| && forall k | 0 <= k < |from| :: up[k] == from[k] + 1
  {
    seq(|from|, k requires 0 <= k < |from| => from[k] + 1)
  }

  lemma InUp(from: seq<nat>, i: nat)
    ensures i in Up(from) <==> i > 0 && i - 1 in from
  {
    if i > 0 && i - 1 in from {
      var k :| 0 <= k < |from| && from[k] == i - 1;
      assert Up(from)[k] == i;
    }
  }

  lemma LeftDropped(rows: seq<Row>, fate: Row -> Fate, out: seq<Row>, from: seq<nat>)
    requires |rows| > 0 && LeftBy(rows[1..], fate, out, from) && fate(rows[0]).Dropped?
    ensures LeftBy(rows, fate, out, Up(from))
  {
    hide Up, ChangedInto;
    assert forall k | 0 <= k < |from| :: rows[Up(from)[k]] == rows[1..][from[k]];
    forall i: nat | i < |rows| ensures i in Up(from) <==> !fate(rows[i]).Dropped? {
      InUp(from, i);
      assert i > 0 ==> rows[i] == rows[1..][i - 1];
    }
  }

  lemma LeftKept(rows: seq<Row>, fate: Row -> Fate, out: seq<Row>, from: seq<nat>, first: Row)
    requires |rows| > 0 && LeftBy(rows[1..], fate, out, from) && ChangedInto(rows[0], fate(rows[0]), first)
    ensures LeftBy(rows, fate, [first] + out, [0] + Up(from))
  {
    assert !fate(rows[0]).Dropped?;
    hide Up, ChangedInto;
    var (now, all) := ([0] + Up(from), [first] + out);
    forall k | 0 <= k < |now| ensures now[k] < |rows| && ChangedInto(rows[now[k]], fate(rows[now[k]]), all[k]) {
      if k > 0 {
        assert rows[now[k]] == rows[1..][from[k - 1]];
      }
    }
    forall i: nat | i < |rows| ensures i in now <==> !fate(rows[i]).Dropped? {
      InUp(from, i);
      assert i in now <==> i == 0 || i in Up(from);
      assert i > 0 ==> rows[i] == rows[1..][i - 1];
    }
  }

  /** An UPDATE or DELETE that returns Ok leaves the rows its WHERE misses as they were,
      drops or changes exactly the others, in place, and touches no other table, nor a view. */
  lemma RewriteMeans(db: Db, session: nat, s: Stmt, next: Db)
    requires s.Rewrite? && Executes(db, session, s, true, next)
    ensures s.name in db.tables && s.name in next.tables && next.views == db.views
    ensures var (t, rows) := (db.tables[s.name], next.tables[s.name].rows);
      next.tables == db.tables[s.name := t.(rows := rows)] && exists from :: LeftBy(t.rows, s.fate, rows, from)
  {
    hide ConstraintsHold, LeftBy;
    var t := db.tables[s.name];
    RewrittenIs(t.rows, s.fate);
    if RewriteOutcome(db, s).Nothing? {
      NothingHit(t.rows, s.fate);
      assert db.tables[s.name := t.(rows := t.rows)] == db.tables;
    }
  }

  lemma {:induction false} NothingHit(rows: seq<Row>, fate: Row -> Fate)
    requires !AnyHit(rows, fate) && Rewritten(rows, fate).Ok?
    ensures Rewritten(rows, fate).value == rows
  {
    if |rows| > 0 {
      assert rows[0] in rows && forall r | r in rows[1..] :: r in rows;
      NothingHit(rows[1..], fate);
    }
  }

  // Creating and dropping

  /** A CREATE TABLE that returns Ok adds an empty table with the declared columns, unless
      IF NOT EXISTS finds one. */
  lemma CreateTableMeans(db: Db, session: nat, s: Stmt, next: Db)
    requires s.CreateTable? && Executes(db, session, s, true, next)
    ensures next.views == db.views && s.name !in db.views && !Reserved(s.name)
    ensures s.name in db.tables ==> s.ifNotExists && next.tables == db.tables
    ensures s.name !in db.tables ==>
      s.name in next.tables && next.tables[s.name].rows == [] && DeclaredBy(next.tables[s.name], s.columns, s.constraints) &&
      next.tables == db.tables[s.name := next.tables[s.name]]
  {
    hide Fresh;
    FreshColumns(s.columns, s.constraints);
    ReservedIs(s.name);
  }

  /** And a CREATE TABLE AS the rows of its query, under the query's column names. */
  lemma CreateTableAsMeans(db: Db, session: nat, s: Stmt, next: Db)
    requires s.CreateTableAs? && Executes(db, session, s, true, next)
    ensures next.views == db.views && s.name !in db.views && !Reserved(s.name)
    ensures s.name in db.tables && !s.orReplace ==> s.ifNotExists && next.tables == db.tables
    ensures s.name !in db.tables || s.orReplace ==>
      s.query.Ok? && s.name in next.tables && next.tables == db.tables[s.name := next.tables[s.name]] &&
      next.tables[s.name].columns == s.query.value.columns && next.tables[s.name].rows == s.query.value.rows &&
      Unconstrained(next.tables[s.name])
  {
    ReservedIs(s.name);
  }

  lemma CreateViewMeans(db: Db, session: nat, s: Stmt, next: Db)
    requires s.CreateView? && Executes(db, session, s, true, next)
    ensures next.tables == db.tables && s.name !in db.tables && !Reserved(s.name)
    ensures s.name in db.views && !s.orReplace ==> s.ifNotExists && next.views == db.views
    ensures s.name !in db.views || s.orReplace ==> s.sql.Ok? && |s.sql.value| <= 65535 && next.views == db.views[s.name := s.sql.value]
  {
    ReservedIs(s.name);
  }

  ghost predicate Dropped<T(!new)>(was: map<Name, T>, now: map<Name, T>, names: seq<Name>, ifExists: bool) {
    (forall n :: n in now <==> n in was && n !in names) && (forall n | n in now :: now[n] == was[n]) &&
    (!ifExists ==> forall n | n in names :: n in was)
  }

  /** A DROP that returns Ok removes the names it lists and nothing else; without IF EXISTS
      all of them were there. */
  lemma DropMeans(db: Db, session: nat, s: Stmt, next: Db)
    requires (s.DropTables? || s.DropViews?) && Executes(db, session, s, true, next)
    ensures s.DropTables? ==> next.views == db.views && Dropped(db.tables, next.tables, s.names, s.ifExists)
    ensures s.DropViews? ==> next.tables == db.tables && Dropped(db.views, next.views, s.names, s.ifExists)
  {
  }

  // What refuses a statement

  /** A CREATE is refused only for its name, for a clash that no clause allows, for a table
      without columns, or for a query or view text that is an error or too long. */
  lemma CreateRefused(db: Db, s: Stmt)
    requires s.CreateTable? || s.CreateTableAs? || s.CreateView?
    ensures OutcomeOf(db, s).Fails? ==>
      Reserved(s.name) || (s.name in (if s.CreateView? then db.tables.Keys else db.views.Keys)) ||
      (s.name in (if s.CreateView? then db.views.Keys else db.tables.Keys) && !s.ifNotExists && (s.CreateTable? || !s.orReplace)) ||
      (s.CreateTable? && s.columns == []) || (s.CreateTableAs? && s.query.Err?) ||
      (s.CreateView? && (s.sql.Err? || |s.sql.value| > 65535))
  {
    ReservedIs(s.name);
  }

  /** A DROP is refused only for a reserved name or, without IF EXISTS, an unknown one. */
  lemma DropRefused(db: Db, s: Stmt)
    requires s.DropTables? || s.DropViews?
    ensures OutcomeOf(db, s).Fails? <==>
      exists n :: n in s.names &&
        (Reserved(n) || (!s.ifExists && n !in (if s.DropViews? then db.views.Keys else db.tables.Keys)))
  {
    forall n: Name {
      ReservedIs(n);
    }
    var there := if s.DropViews? then db.views.Keys else db.tables.Keys;
    assert Names(s.names) <= there <==> forall n | n in s.names :: n in there;
  }

  /** Rows that keep every constraint of the table together with those it has are allowed. */
  lemma HeldIsAllowed(t: Table, rows: seq<Row>)
    requires ConstraintsHold(t, t.rows + rows)
    ensures InsertAllowed(t, rows)
  {
    hide Key, InRange, Missing;
    var all := t.rows + rows;
    assert forall r | r in rows :: r in all;
    assert forall r | r in t.rows :: r in all;
    forall g | g in t.unique ensures NewKeys(t.rows, rows, g) {
      assert UniqueHolds(all, g);
      forall o, r | o in t.rows && r in rows ensures Key(g, o) != Key(g, r) {
        var i, j :| 0 <= i < |t.rows| && 0 <= j < |rows| && t.rows[i] == o && rows[j] == r;
        assert all[i] == o && all[|t.rows| + j] == r;
      }
      forall i, j | 0 <= i < j < |rows| ensures Key(g, rows[i]) != Key(g, rows[j]) {
        assert all[|t.rows| + i] == rows[i] && all[|t.rows| + j] == rows[j];
      }
    }
  }

  /** `rows` are what the INSERT makes of its VALUES. */
  ghost predicate AllMade(t: Table, s: Stmt, rows: seq<Row>)
    requires s.Insert? && s.values.Ok?
  {
    |rows| == |s.values.value| && forall k | 0 <= k < |rows| :: MadeOf(t.columns, s.into, s.values.value[k], rows[k])
  }

  lemma {:induction false} NotBuilt(n: nat, mapping: Option<seq<nat>>, src: seq<Row>)
    requires mapping.Some? ==> forall i | i in mapping.value :: i < n
    ensures BuiltRows(n, mapping, src).Err? ==> mapping.None? && exists r :: r in src && |r| != n
  {
    hide Placed;
    if |src| > 0 {
      NotBuilt(n, mapping, src[1..]);
      assert src[0] in src && forall r | r in src[1..] :: r in src;
    }
  }

  /** An INSERT is refused only if its VALUES are an error, there is no such table or column,
      a row has the wrong number of cells, or the table would not keep its constraints. */
  lemma InsertRefused(db: Db, s: Stmt)
    requires s.Insert? && OutcomeOf(db, s).Fails?
    ensures s.values.Err? || s.name !in db.tables ||
      var t := db.tables[s.name];
      (s.into.Some? && exists n :: n in s.into.value && forall i: nat :: !IsColumn(t.columns, n, i)) ||
      (s.into.None? && exists r :: r in s.values.value && |r| != |t.columns|) ||
      exists rows :: AllMade(t, s, rows) && !ConstraintsHold(t, t.rows + rows)
  {
    hide InsertAllowed, ConstraintsHold, BuiltRows, MadeOf, Mapping, IsColumn;
    if s.values.Ok? && s.name in db.tables {
      var t := db.tables[s.name];
      if s.into.Some? {
        MappingIs(t.columns, s.into.value);
      }
      if s.into.None? || Mapping(t.columns, s.into.value).Ok? {
        var mapping: Option<seq<nat>> := match s.into case None => None case Some(names) => Some(Mapping(t.columns, names).value);
        var built := BuiltRows(|t.columns|, mapping, s.values.value);
        NotBuilt(|t.columns|, mapping, s.values.value);
        if built.Ok? {
          RowsAreMade(t.columns, s.into, mapping, s.values.value);
          assert AllMade(t, s, built.value);
          assert !InsertAllowed(t, built.value);
          if ConstraintsHold(t, t.rows + built.value) {
            HeldIsAllowed(t, built.value);
          }
        }
      }
    }
  }

  /** An UPDATE or DELETE is refused only for its table, for an expression in error, or if the
      rows left would not keep the constraints. */
  lemma RewriteRefused(db: Db, s: Stmt)
    requires s.Rewrite? && OutcomeOf(db, s).Fails?
    ensures Reserved(s.name) || s.name !in db.tables ||
      var t := db.tables[s.name];
      (exists i: nat :: i < |t.rows| && s.fate(t.rows[i]).Broken?) ||
      exists out, from :: LeftBy(t.rows, s.fate, out, from) && !ConstraintsHold(t, out)
  {
    hide ConstraintsHold, LeftBy;
    ReservedIs(s.name);
    if !BuiltIn(s.name) && s.name in db.tables {
      RewrittenIs(db.tables[s.name].rows, s.fate);
    }
  }
}
