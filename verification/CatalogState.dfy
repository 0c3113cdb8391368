/** Custom tables, views and the open transaction as values: what each statement
    does to them, and what holds in every state any interleaving of sessions reaches. */
module CatalogState {
  import opened Bytes

  type Name = seq<Byte>
  type Text = seq<Byte>
  type Row = seq<Text>

  datatype Table = Table(columns: seq<Name>, rows: seq<Row>, notNull: seq<nat>, unique: seq<seq<nat>>)

  /** The snapshot `BEGIN` takes. */
  datatype Tx = Tx(tables: map<Name, Table>, views: map<Name, Text>, owner: nat, externalWrite: bool)

  datatype Db = Db(tables: map<Name, Table>, views: map<Name, Text>, tx: Option<Tx>)

  // "blocks", "documents", "links"; and "NULL", the text a null value displays as.
  const BLOCKS: Name := [98, 108, 111, 99, 107, 115]
  const DOCUMENTS: Name := [100, 111, 99, 117, 109, 101, 110, 116, 115]
  const LINKS: Name := [108, 105, 110, 107, 115]
  const NULL_TEXT: Text := [78, 85, 76, 76]

  predicate BuiltIn(name: Name) { name == BLOCKS || name == DOCUMENTS || name == LINKS }

  /** `position` of a column by name, ignoring ASCII case. */
  function ColumnIndex(columns: seq<Name>, name: Name): (r: Option<nat>)
    ensures r.Some? ==> r.value < |columns| && EqIgnoreCase(columns[r.value], name)
    ensures r.None? ==> forall i | 0 <= i < |columns| :: !EqIgnoreCase(columns[i], name)
  {
    if |columns| == 0 then None
    else if EqIgnoreCase(columns[0], name) then Some(0)
    else match ColumnIndex(columns[1..], name) case None => None case Some(i) => Some(i + 1)
  }

  // Constraints

  predicate Missing(v: Text) { v == [] || v == NULL_TEXT }

  predicate NotNullHolds(rows: seq<Row>, notNull: seq<nat>) {
    forall r, i: nat | r in rows && i in notNull :: i < |r| && !Missing(r[i])
  }

  predicate InRange(group: seq<nat>, row: Row) { forall i | i in group :: i < |row| }

  function Key(group: seq<nat>, row: Row): seq<Text>
    requires InRange(group, row)
  {
    seq(|group|, i requires 0 <= i < |group| => assert group[i] in group; row[group[i]])
  }

  /** No two rows agree on all columns of the group. */
  predicate UniqueHolds(rows: seq<Row>, group: seq<nat>) {
    (forall r | r in rows :: InRange(group, r)) &&
    forall i, j | 0 <= i < j < |rows| :: Key(group, rows[i]) != Key(group, rows[j])
  }

  predicate ConstraintsHold(t: Table, rows: seq<Row>) {
    NotNullHolds(rows, t.notNull) && forall g | g in t.unique :: UniqueHolds(rows, g)
  }

  /** The constraints name columns of the table. */
  predicate Declared(t: Table) {
    (forall i | i in t.notNull :: i < |t.columns|) &&
    forall g, i | g in t.unique && i in g :: i < |t.columns|
  }

  predicate Unconstrained(t: Table) { t.notNull == [] && t.unique == [] }

  /** Every row has one cell per column, if the table has constraints. A table made by
      `CREATE TABLE ... AS` has none, and its rows may have other widths: those of VALUES
      have cells and no columns. */
  predicate Fitting(t: Table, rows: seq<Row>) {
    Unconstrained(t) || forall r | r in rows :: |r| == |t.columns|
  }

  predicate TableOk(t: Table) {
    Declared(t) && Fitting(t, t.rows) && ConstraintsHold(t, t.rows)
  }

  predicate CatalogOk(tables: map<Name, Table>, views: map<Name, Text>) {
    (forall n | n in tables :: TableOk(tables[n]) && n !in views && !BuiltIn(n)) &&
    (forall n | n in views :: !BuiltIn(n))
  }

  predicate DbOk(db: Db) {
    CatalogOk(db.tables, db.views) &&
    (db.tx.Some? ==> CatalogOk(db.tx.value.tables, db.tx.value.views))
  }

  // Statements

  /** What an UPDATE or DELETE makes of a row: its WHERE may fail to evaluate, miss
      the row, or hit it and drop it or give it new cells. */
  datatype Fate = Broken | Kept | Dropped | Edited(changes: map<nat, Text>)

  /** The cells after the SET clauses of an UPDATE. */
  function SetCells(row: Row, changes: map<nat, Text>): (r: Row)
    ensures |r| == |row|
  {
    seq(|row|, i requires 0 <= i < |row| => if i in changes then changes[i] else row[i])
  }

  datatype QueryOutput = QueryOutput(columns: seq<Name>, rows: seq<Row>)

  /** A column definition's NOT NULL / UNIQUE / PRIMARY KEY options. */
  datatype ColumnDef = ColumnDef(name: Name, notNull: bool, unique: bool, primaryKey: bool)

  datatype TableConstraint = UniqueOver(columns: seq<Name>) | PrimaryKeyOver(columns: seq<Name>)

  datatype Stmt =
    | CreateTable(name: Name, columns: seq<ColumnDef>, constraints: seq<TableConstraint>, ifNotExists: bool)
    | CreateTableAs(name: Name, query: Result<QueryOutput>, orReplace: bool, ifNotExists: bool)
    | CreateView(name: Name, sql: Result<Text>, orReplace: bool, ifNotExists: bool)
    | DropTables(names: seq<Name>, ifExists: bool)
    | DropViews(names: seq<Name>, ifExists: bool)
    | Insert(name: Name, into: Option<seq<Name>>, values: Result<seq<Row>>)
    | Rewrite(name: Name, fate: Row -> Fate)
    | Begin
    | CommitTx
    | Rollback

  /** What a statement would do: fail, succeed without touching the catalog, or write
      a new catalog; `noted` is whether it then counts as a catalog mutation. */
  datatype Outcome =
    | Fails
    | Nothing
    | Writes(tables: map<Name, Table>, views: map<Name, Text>, noted: bool)

  function Resolved(columns: seq<Name>, names: seq<Name>): seq<nat> {
    if |names| == 0 then []
    else
      var rest := Resolved(columns, names[1..]);
      match ColumnIndex(columns, names[0]) case None => rest case Some(i) => [i] + rest
  }

  lemma {:induction false} ResolvedInRange(columns: seq<Name>, names: seq<Name>)
    ensures forall i | i in Resolved(columns, names) :: i < |columns|
  {
    if |names| > 0 {
      ResolvedInRange(columns, names[1..]);
    }
  }

  function DefNotNull(defs: seq<ColumnDef>, at: nat): seq<nat> {
    if |defs| == 0 then []
    else (if defs[0].notNull || defs[0].primaryKey then [at] else []) + DefNotNull(defs[1..], at + 1)
  }

  function DefUnique(defs: seq<ColumnDef>, at: nat): seq<seq<nat>> {
    if |defs| == 0 then []
    else (if defs[0].unique || defs[0].primaryKey then [[at]] else []) + DefUnique(defs[1..], at + 1)
  }

  function TableNotNull(columns: seq<Name>, cs: seq<TableConstraint>): seq<nat> {
    if |cs| == 0 then []
    else (if cs[0].PrimaryKeyOver? then Resolved(columns, cs[0].columns) else []) + TableNotNull(columns, cs[1..])
  }

  function TableUnique(columns: seq<Name>, cs: seq<TableConstraint>): seq<seq<nat>> {
    if |cs| == 0 then []
    else
      var cols := Resolved(columns, cs[0].columns);
      (if cols == [] then [] else [cols]) + TableUnique(columns, cs[1..])
  }

  function ColumnNames(defs: seq<ColumnDef>): (c: seq<Name>)
    ensures |c| == |defs|
  {
    seq(|defs|, i requires 0 <= i < |defs| => defs[i].name)
  }

  /** `table_constraints`: the column options, then the table constraints. */
  function Fresh(defs: seq<ColumnDef>, cs: seq<TableConstraint>): Table {
    var columns := ColumnNames(defs);
    Table(columns, [], DefNotNull(defs, 0) + TableNotNull(columns, cs), DefUnique(defs, 0) + TableUnique(columns, cs))
  }

  function CreateTableOutcome(db: Db, s: Stmt): Outcome
    requires s.CreateTable?
  {
    if BuiltIn(s.name) || s.name in db.views || |s.columns| == 0 then Fails
    else if s.name in db.tables then (if s.ifNotExists then Nothing else Fails)
    else Writes(db.tables[s.name := Fresh(s.columns, s.constraints)], db.views, true)
  }

  function CreateTableAsOutcome(db: Db, s: Stmt): Outcome
    requires s.CreateTableAs?
  {
    if BuiltIn(s.name) || s.name in db.views then Fails
    else if s.name in db.tables && !s.orReplace then (if s.ifNotExists then Nothing else Fails)
    else
      match s.query
      case Err => Fails
      case Ok(out) => Writes(db.tables[s.name := Table(out.columns, out.rows, [], [])], db.views, true)
  }

  function CreateViewOutcome(db: Db, s: Stmt): Outcome
    requires s.CreateView?
  {
    if BuiltIn(s.name) || s.name in db.tables then Fails
    else if s.name in db.views && !s.orReplace then (if s.ifNotExists then Nothing else Fails)
    else
      match s.sql
      case Err => Fails
      case Ok(sql) => if |sql| > 65535 then Fails else Writes(db.tables, db.views[s.name := sql], true)
  }

  predicate AnyBuiltIn(names: seq<Name>) { exists n :: n in names && BuiltIn(n) }

  function Names(names: seq<Name>): set<Name> { set n | n in names }

  function DropTablesOutcome(db: Db, s: Stmt): Outcome
    requires s.DropTables?
  {
    if AnyBuiltIn(s.names) then Fails
    else if !s.ifExists && !(Names(s.names) <= db.tables.Keys) then Fails
    else Writes(db.tables - Names(s.names), db.views, Names(s.names) * db.tables.Keys != {})
  }

  function DropViewsOutcome(db: Db, s: Stmt): Outcome
    requires s.DropViews?
  {
    if AnyBuiltIn(s.names) then Fails
    else if !s.ifExists && !(Names(s.names) <= db.views.Keys) then Fails
    else Writes(db.tables, db.views - Names(s.names), Names(s.names) * db.views.Keys != {})
  }

  /** The row an INSERT builds from one source row: by position, or into the named columns. */
  function Placed(blank: Row, into: seq<nat>, src: Row): (r: Row)
    requires forall i | i in into :: i < |blank|
    ensures |r| == |blank|
    decreases |into|
  {
    if |into| == 0 || |src| == 0 then blank
    else
      assert into[0] in into && forall i | i in into[1..] :: i in into;
      Placed(blank[into[0] := src[0]], into[1..], src[1..])
  }

  function Blank(n: nat): (r: Row)
    ensures |r| == n
  {
    seq(n, _ => [])
  }

  function Mapping(columns: seq<Name>, names: seq<Name>): (r: Result<seq<nat>>)
    ensures r.Ok? ==> |r.value| == |names| && forall i | i in r.value :: i < |columns|
  {
    if |names| == 0 then Ok([])
    else
      match ColumnIndex(columns, names[0]) case None => Err case Some(i) =>
      match Mapping(columns, names[1..]) case Err => Err case Ok(rest) => Ok([i] + rest)
  }

  function BuiltRow(n: nat, mapping: Option<seq<nat>>, src: Row): (r: Result<Row>)
    requires mapping.Some? ==> forall i | i in mapping.value :: i < n
    ensures r.Ok? ==> |r.value| == n
  {
    match mapping
    case None => if |src| == n then Ok(src) else Err
    case Some(m) => Ok(Placed(Blank(n), m, src))
  }

  function BuiltRows(n: nat, mapping: Option<seq<nat>>, src: seq<Row>): (r: Result<seq<Row>>)
    requires mapping.Some? ==> forall i | i in mapping.value :: i < n
    ensures r.Ok? ==> |r.value| == |src| && forall row | row in r.value :: |row| == n
  {
    if |src| == 0 then Ok([])
    else
      match BuiltRow(n, mapping, src[0]) case Err => Err case Ok(row) =>
      match BuiltRows(n, mapping, src[1..]) case Err => Err case Ok(rest) => Ok([row] + rest)
  }

  /** The keys of the new rows differ from all existing ones and from each other. */
  predicate NewKeys(had: seq<Row>, more: seq<Row>, group: seq<nat>) {
    (forall r | r in had :: InRange(group, r)) && (forall r | r in more :: InRange(group, r)) &&
    (forall o, r | o in had && r in more :: Key(group, o) != Key(group, r)) &&
    forall i, j | 0 <= i < j < |more| :: Key(group, more[i]) != Key(group, more[j])
  }

  /** The checks INSERT makes: on the new rows, and against the keys already there. */
  predicate InsertAllowed(t: Table, rows: seq<Row>) {
    NotNullHolds(rows, t.notNull) && forall g | g in t.unique :: NewKeys(t.rows, rows, g)
  }

  function InsertOutcome(db: Db, s: Stmt): Outcome
    requires s.Insert?
  {
    if s.values.Err? || s.name !in db.tables then Fails
    else
      var t := db.tables[s.name];
      var mapping: Result<Option<seq<nat>>> :=
        match s.into
        case None => Ok(None)
        case Some(names) => match Mapping(t.columns, names) case Err => Err case Ok(m) => Ok(Some(m));
      if mapping.Err? then Fails
      else
        match BuiltRows(|t.columns|, mapping.value, s.values.value)
        case Err => Fails
        case Ok(rows) =>
          if InsertAllowed(t, rows) then
            Writes(db.tables[s.name := t.(rows := t.rows + rows)], db.views, rows != [])
          else Fails
  }

  /** The rows left by a rewrite; fails if some row's predicate does. */
  function Rewritten(rows: seq<Row>, fate: Row -> Fate): Result<seq<Row>> {
    if |rows| == 0 then Ok([])
    else
      match fate(rows[0])
      case Broken => Err
      case Kept =>
        (match Rewritten(rows[1..], fate) case Err => Err case Ok(rest) => Ok([rows[0]] + rest))
      case Dropped => Rewritten(rows[1..], fate)
      case Edited(changes) =>
        (match Rewritten(rows[1..], fate) case Err => Err case Ok(rest) => Ok([SetCells(rows[0], changes)] + rest))
  }

  predicate Hit(f: Fate) { f.Dropped? || f.Edited? }

  predicate AnyHit(rows: seq<Row>, fate: Row -> Fate) { exists r :: r in rows && Hit(fate(r)) }

  function RewriteOutcome(db: Db, s: Stmt): Outcome
    requires s.Rewrite?
  {
    if BuiltIn(s.name) || s.name !in db.tables then Fails
    else
      var t := db.tables[s.name];
      match Rewritten(t.rows, s.fate)
      case Err => Fails
      case Ok(rows) =>
        if !AnyHit(t.rows, s.fate) then Nothing
        else if ConstraintsHold(t, rows) then Writes(db.tables[s.name := t.(rows := rows)], db.views, true)
        else Fails
  }

  predicate Control(s: Stmt) { s.Begin? || s.CommitTx? || s.Rollback? }

  function OutcomeOf(db: Db, s: Stmt): Outcome
    requires !Control(s)
  {
    match s
    case CreateTable(_, _, _, _) => CreateTableOutcome(db, s)
    case CreateTableAs(_, _, _, _) => CreateTableAsOutcome(db, s)
    case CreateView(_, _, _, _) => CreateViewOutcome(db, s)
    case DropTables(_, _) => DropTablesOutcome(db, s)
    case DropViews(_, _) => DropViewsOutcome(db, s)
    case Insert(_, _, _) => InsertOutcome(db, s)
    case Rewrite(_, _) => RewriteOutcome(db, s)
  }

  /** `note_catalog_mutation`: marks an open transaction of another session. */
  function Noted(tx: Option<Tx>, session: nat): Option<Tx> {
    match tx
    case None => None
    case Some(t) => if t.owner != session then Some(t.(externalWrite := true)) else tx
  }

  /** A statement of `session` that returns Ok (`ok`) or an error takes `db` to `next`.
      A write whose flush fails returns an error. */
  ghost predicate Executes(db: Db, session: nat, s: Stmt, ok: bool, next: Db) {
    match s
    case Begin =>
      if db.tx.Some? then !ok && next == db
      else ok && next == db.(tx := Some(Tx(db.tables, db.views, session, false)))
    case CommitTx => ok == db.tx.Some? && next == db.(tx := None)
    case Rollback =>
      if db.tx.None? then !ok && next == db
      else if db.tx.value.externalWrite then !ok && next == db.(tx := None)
      else next == Db(db.tx.value.tables, db.tx.value.views, None)
    case _ =>
      match OutcomeOf(db, s)
      case Fails => !ok && next == db
      case Nothing => ok && next == db
      case Writes(tables, views, noted) =>
        (!ok && next == db) || (ok && next == Db(tables, views, if noted then Noted(db.tx, session) else db.tx))
  }

  // Constraints hold in every reachable state

  lemma {:induction false} DefsInRange(defs: seq<ColumnDef>, at: nat)
    ensures forall i | i in DefNotNull(defs, at) :: i < at + |defs|
    ensures forall g, i | g in DefUnique(defs, at) && i in g :: i < at + |defs|
  {
    if |defs| > 0 {
      DefsInRange(defs[1..], at + 1);
    }
  }

  lemma {:induction false} TableConstraintsInRange(columns: seq<Name>, cs: seq<TableConstraint>)
    ensures forall i | i in TableNotNull(columns, cs) :: i < |columns|
    ensures forall g, i | g in TableUnique(columns, cs) && i in g :: i < |columns|
  {
    if |cs| > 0 {
      ResolvedInRange(columns, cs[0].columns);
      TableConstraintsInRange(columns, cs[1..]);
    }
  }

  lemma FreshIsOk(defs: seq<ColumnDef>, cs: seq<TableConstraint>)
    ensures TableOk(Fresh(defs, cs))
  {
    DefsInRange(defs, 0);
    TableConstraintsInRange(ColumnNames(defs), cs);
  }

  lemma InsertKeepsTable(t: Table, rows: seq<Row>)
    requires TableOk(t) && InsertAllowed(t, rows) && forall r | r in rows :: |r| == |t.columns|
    ensures TableOk(t.(rows := t.rows + rows))
  {
    hide UniqueHolds, NewKeys, Key;
    forall g | g in t.unique ensures UniqueHolds(t.rows + rows, g) {
      UniqueTogether(t.rows, rows, g);
    }
    assert NotNullHolds(t.rows + rows, t.notNull);
  }

  lemma UniqueTogether(had: seq<Row>, more: seq<Row>, g: seq<nat>)
    requires UniqueHolds(had, g) && NewKeys(had, more, g)
    ensures UniqueHolds(had + more, g)
  {
    hide Key;
    var all := had + more;
    forall i, j | 0 <= i < j < |all| ensures Key(g, all[i]) != Key(g, all[j]) {
      if j < |had| {
        assert all[i] == had[i] && all[j] == had[j];
      } else if i < |had| {
        assert all[i] in had && all[j] in more;
      } else {
        assert all[i] == more[i - |had|] && all[j] == more[j - |had|];
      }
    }
  }

  lemma {:induction false} RewrittenIsRectangular(rows: seq<Row>, fate: Row -> Fate, n: nat)
    requires (forall r | r in rows :: |r| == n) && Rewritten(rows, fate).Ok?
    ensures forall r | r in Rewritten(rows, fate).value :: |r| == n
  {
    if |rows| > 0 {
      RewrittenIsRectangular(rows[1..], fate, n);
    }
  }

  lemma RewrittenFits(t: Table, fate: Row -> Fate)
    requires Fitting(t, t.rows) && Rewritten(t.rows, fate).Ok?
    ensures Fitting(t, Rewritten(t.rows, fate).value)
  {
    if !Unconstrained(t) {
      RewrittenIsRectangular(t.rows, fate, |t.columns|);
    }
  }

  lemma RewriteKeepsCatalog(db: Db, s: Stmt)
    requires CatalogOk(db.tables, db.views) && s.Rewrite?
    ensures RewriteOutcome(db, s).Writes? ==> CatalogOk(RewriteOutcome(db, s).tables, RewriteOutcome(db, s).views)
  {
    hide NotNullHolds, UniqueHolds;
    if RewriteOutcome(db, s).Writes? {
      RewrittenFits(db.tables[s.name], s.fate);
    }
  }

  lemma CreateKeepsCatalog(db: Db, s: Stmt)
    requires CatalogOk(db.tables, db.views) && (s.CreateTable? || s.CreateTableAs? || s.CreateView?)
    ensures OutcomeOf(db, s).Writes? ==> CatalogOk(OutcomeOf(db, s).tables, OutcomeOf(db, s).views)
  {
    hide Fresh;
    if s.CreateTable? {
      FreshIsOk(s.columns, s.constraints);
    }
  }

  lemma OutcomeKeepsCatalog(db: Db, s: Stmt)
    requires CatalogOk(db.tables, db.views) && !Control(s)
    ensures OutcomeOf(db, s).Writes? ==> CatalogOk(OutcomeOf(db, s).tables, OutcomeOf(db, s).views)
  {
    hide TableOk, InsertOutcome, RewriteOutcome, CreateTableOutcome, CreateTableAsOutcome, CreateViewOutcome;
    match s
    case DropTables(_, _) =>
    case DropViews(_, _) =>
    case Insert(_, _, _) => InsertKeepsCatalog(db, s);
    case Rewrite(_, _) => RewriteKeepsCatalog(db, s);
    case _ => CreateKeepsCatalog(db, s);
  }

  lemma InsertKeepsCatalog(db: Db, s: Stmt)
    requires CatalogOk(db.tables, db.views) && s.Insert?
    ensures InsertOutcome(db, s).Writes? ==> CatalogOk(InsertOutcome(db, s).tables, InsertOutcome(db, s).views)
  {
    if InsertOutcome(db, s).Writes? {
      var t := db.tables[s.name];
      var u := InsertOutcome(db, s).tables[s.name];
      var rows := u.rows[|t.rows|..];
      assert u.rows == t.rows + rows;
      InsertKeepsTable(t, rows);
    }
  }

  /** Every statement, successful or not, keeps every table within its constraints,
      table and view names apart, and built-in names free, in the open snapshot too. */
  lemma StatementKeepsDb(db: Db, session: nat, s: Stmt, ok: bool, next: Db)
    requires DbOk(db) && Executes(db, session, s, ok, next)
    ensures DbOk(next)
  {
    hide OutcomeOf, TableOk;
    if !Control(s) {
      OutcomeKeepsCatalog(db, s);
    }
  }

  /** A statement other than ROLLBACK that returns an error changes nothing. */
  lemma FailureChangesNothing(db: Db, session: nat, s: Stmt, next: Db)
    requires Executes(db, session, s, false, next) && !s.Rollback?
    ensures next == db
  {
  }

  // Runs of sessions

  datatype Event = Event(session: nat, stmt: Stmt, ok: bool)

  /** Statements of any sessions one after the other, as `catalog_commit` serializes them. */
  ghost predicate Run(states: seq<Db>, events: seq<Event>) {
    |states| == |events| + 1 &&
    forall i | 0 <= i < |events| ::
      Executes(states[i], events[i].session, events[i].stmt, events[i].ok, states[i + 1])
  }

  lemma {:induction false} RunKeepsDb(states: seq<Db>, events: seq<Event>, i: nat)
    requires Run(states, events) && DbOk(states[0]) && i < |states|
    ensures DbOk(states[i])
  {
    hide Executes, DbOk;
    if i > 0 {
      RunKeepsDb(states, events, i - 1);
      StatementKeepsDb(states[i - 1], events[i - 1].session, events[i - 1].stmt, events[i - 1].ok, states[i]);
    }
  }

  predicate Changed(a: Db, b: Db) { a.tables != b.tables || a.views != b.views }

  /** A transaction begun in step `b` is open until step `e`: no COMMIT or ROLLBACK in between. */
  ghost predicate OpenFrom(states: seq<Db>, events: seq<Event>, b: nat, e: nat) {
    Run(states, events) && b < e < |events| && events[b].stmt.Begin? && events[b].ok &&
    forall k | b < k < e :: !events[k].stmt.CommitTx? && !events[k].stmt.Rollback?
  }

  /** Somebody but the owner changed the catalog in steps `b+1..k`. */
  ghost predicate ForeignChange(states: seq<Db>, events: seq<Event>, b: nat, k: nat)
    requires |states| == |events| + 1 && b < k <= |events|
  {
    exists m :: b < m < k && events[m].session != events[b].session && Changed(states[m], states[m + 1])
  }

  /** A change made by a statement is noted. */
  lemma ChangeIsNoted(db: Db, session: nat, s: Stmt, ok: bool, next: Db)
    requires Executes(db, session, s, ok, next) && !s.CommitTx? && !s.Rollback?
    ensures Changed(db, next) ==> ok && next.tx == Noted(db.tx, session)
    ensures !s.Begin? ==> next.tx == db.tx || next.tx == Noted(db.tx, session)
    ensures s.Begin? && db.tx.Some? ==> next == db
  {
    if !Control(s) && OutcomeOf(db, s).Writes? && !OutcomeOf(db, s).noted {
      UnnotedIsSame(db, s);
    }
  }

  lemma RemovingNothing<T>(m: map<Name, T>, names: set<Name>)
    requires names * m.Keys == {}
    ensures m - names == m
  {
    forall n | n in m ensures n !in names {
      assert n in names ==> n in names * m.Keys;
    }
  }

  lemma UnnotedIsSame(db: Db, s: Stmt)
    requires !Control(s) && OutcomeOf(db, s).Writes? && !OutcomeOf(db, s).noted
    ensures OutcomeOf(db, s).tables == db.tables && OutcomeOf(db, s).views == db.views
  {
    match s
    case Insert(name, _, _) =>
      var t := db.tables[name];
      assert t.rows + [] == t.rows;
      assert db.tables[name := t] == db.tables;
    case DropTables(names, _) =>
      RemovingNothing(db.tables, Names(names));
    case DropViews(names, _) =>
      RemovingNothing(db.views, Names(names));
    case _ =>
  }

  /** While the transaction is open its snapshot is the catalog at BEGIN, and it is
      marked as soon as another session changes the catalog. */
  lemma {:induction false} SnapshotStays(states: seq<Db>, events: seq<Event>, b: nat, e: nat, k: nat)
    requires OpenFrom(states, events, b, e) && b < k <= e
    ensures states[k].tx.Some?
    ensures var tx := states[k].tx.value;
      tx.tables == states[b].tables && tx.views == states[b].views && tx.owner == events[b].session
    ensures ForeignChange(states, events, b, k) ==> states[k].tx.value.externalWrite
  {
    hide OutcomeOf;
    if k == b + 1 {
      assert Executes(states[b], events[b].session, events[b].stmt, events[b].ok, states[b + 1]);
    } else {
      SnapshotStays(states, events, b, e, k - 1);
      var ev := events[k - 1];
      assert Executes(states[k - 1], ev.session, ev.stmt, ev.ok, states[k]);
      ChangeIsNoted(states[k - 1], ev.session, ev.stmt, ev.ok, states[k]);
      if ForeignChange(states, events, b, k) && !ForeignChange(states, events, b, k - 1) {
        assert Changed(states[k - 1], states[k]) && ev.session != events[b].session;
      }
    }
  }

  /** A ROLLBACK that returns Ok brings back the tables and views of BEGIN, and
      nobody but the owner changed the catalog since. */
  lemma RollbackRestores(states: seq<Db>, events: seq<Event>, b: nat, e: nat)
    requires OpenFrom(states, events, b, e) && events[e].stmt.Rollback? && events[e].ok
    ensures states[e + 1].tables == states[b].tables && states[e + 1].views == states[b].views
    ensures forall m | b < m < e && Changed(states[m], states[m + 1]) :: events[m].session == events[b].session
  {
    hide OutcomeOf;
    SnapshotStays(states, events, b, e, e);
    assert Executes(states[e], events[e].session, events[e].stmt, events[e].ok, states[e + 1]);
    assert !ForeignChange(states, events, b, e);
  }

  /** If somebody else did change it, ROLLBACK returns an error and alters no table or view. */
  lemma RollbackRefuses(states: seq<Db>, events: seq<Event>, b: nat, e: nat)
    requires OpenFrom(states, events, b, e) && events[e].stmt.Rollback? && ForeignChange(states, events, b, e)
    ensures !events[e].ok && !Changed(states[e], states[e + 1])
  {
    hide OutcomeOf;
    SnapshotStays(states, events, b, e, e);
    assert Executes(states[e], events[e].session, events[e].stmt, events[e].ok, states[e + 1]);
  }

  /** The statement wrote the catalog; an INSERT or a DROP counts only if it changed something. */
  predicate Wrote(before: Db, ev: Event, after: Db) {
    ev.ok && !Control(ev.stmt) && OutcomeOf(before, ev.stmt).Writes? &&
    (ev.stmt.Insert? || ev.stmt.DropTables? || ev.stmt.DropViews? ==> Changed(before, after))
  }

  lemma NotedIsChange(db: Db, s: Stmt)
    requires !Control(s) && OutcomeOf(db, s).Writes? && OutcomeOf(db, s).noted
    requires s.Insert? || s.DropTables? || s.DropViews?
    ensures OutcomeOf(db, s).tables != db.tables || OutcomeOf(db, s).views != db.views
  {
    var out := OutcomeOf(db, s);
    match s
    case Insert(name, _, _) =>
      assert |out.tables[name].rows| > |db.tables[name].rows|;
    case DropTables(names, _) =>
      var n :| n in Names(names) * db.tables.Keys;
      assert n in db.tables && n !in out.tables;
    case DropViews(names, _) =>
      var n :| n in Names(names) * db.views.Keys;
      assert n in db.views && n !in out.views;
  }

  lemma UnwrittenIsUnmarked(before: Db, ev: Event, after: Db)
    requires Executes(before, ev.session, ev.stmt, ev.ok, after) && !ev.stmt.CommitTx? && !ev.stmt.Rollback?
    requires before.tx.Some? && !before.tx.value.externalWrite
    requires ev.session == before.tx.value.owner || !Wrote(before, ev, after)
    ensures after.tx == before.tx
  {
    hide OutcomeOf;
    if !Control(ev.stmt) && OutcomeOf(before, ev.stmt).Writes? && OutcomeOf(before, ev.stmt).noted && ev.session != before.tx.value.owner {
      if ev.stmt.Insert? || ev.stmt.DropTables? || ev.stmt.DropViews? {
        NotedIsChange(before, ev.stmt);
      }
    }
  }

  lemma {:induction false} StaysUnmarked(states: seq<Db>, events: seq<Event>, b: nat, e: nat, k: nat)
    requires OpenFrom(states, events, b, e) && b < k <= e
    requires forall m | b < m < k && events[m].session != events[b].session :: !Wrote(states[m], events[m], states[m + 1])
    ensures states[k].tx == Some(Tx(states[b].tables, states[b].views, events[b].session, false))
  {
    hide OutcomeOf, Wrote;
    if k == b + 1 {
      assert Executes(states[b], events[b].session, events[b].stmt, events[b].ok, states[b + 1]);
    } else {
      StaysUnmarked(states, events, b, e, k - 1);
      assert Executes(states[k - 1], events[k - 1].session, events[k - 1].stmt, events[k - 1].ok, states[k]);
      UnwrittenIsUnmarked(states[k - 1], events[k - 1], states[k]);
    }
  }

  /** Nothing else makes it refuse: if no other session wrote the catalog since BEGIN,
      ROLLBACK brings its tables and views back. */
  lemma RollbackIsGranted(states: seq<Db>, events: seq<Event>, b: nat, e: nat)
    requires OpenFrom(states, events, b, e) && events[e].stmt.Rollback?
    requires forall m | b < m < e && events[m].session != events[b].session :: !Wrote(states[m], events[m], states[m + 1])
    ensures states[e + 1].tables == states[b].tables && states[e + 1].views == states[b].views && states[e + 1].tx.None?
  {
    hide OutcomeOf, Wrote;
    StaysUnmarked(states, events, b, e, e);
    assert Executes(states[e], events[e].session, events[e].stmt, events[e].ok, states[e + 1]);
  }
}
