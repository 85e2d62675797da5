/** Restoring an archive: what is checked first, and the transaction that empties the tables
    and fills them again. */
module BackupRestore {
  import opened Common
  import opened BackupText
  import opened Parts
  import opened BackupJson
  import opened BackupValues
  import opened BackupArchive
  import opened BackupSnapshot

  const NEWLINE: Byte := 0x0A

  // ---- what an archive must be ----

  function NameOf(t: TableData): Text { t.name }

  function Names(a: Archive): seq<Text> {
    Mapped(a.tables, NameOf)
  }

  function AsSet(list: seq<Text>): set<Text> {
    set x | x in list
  }

  /** One of the table lists some release wrote. */
  predicate KnownTables(cat: Catalog, names: Text) {
    || names == Join(cat.tables, NEWLINE)
    || exists o :: o in cat.omitted && names == Join(Without(cat.tables, AsSet(o)), NEWLINE)
  }

  predicate SameColumns(cat: Catalog, db: Database, t: TableData) {
    t.name in db.tables && Join(CarriedColumns(cat, t.name, db.tables[t.name].columns), COMMA) == t.columnsCSV
  }

  predicate Validated(cat: Catalog, db: Database, a: Archive) {
    && KnownTables(cat, Join(Names(a), NEWLINE))
    && (forall t :: t in a.tables ==> SameColumns(cat, db, t))
    && Join(db.migrations, NEWLINE) == Join(a.migrations, NEWLINE)
  }

  function Decoder(f: Formats): Value -> Option<SqlValue> {
    v => DecodeValue(v, f)
  }

  /** Values under columns; a column named twice keeps the last. */
  function RowOf(columns: seq<Text>, values: seq<SqlValue>): Row
    requires |columns| == |values|
  {
    if columns == [] then map[]
    else RowOf(columns[..|columns| - 1], values[..|values| - 1])[columns[|columns| - 1] := values[|values| - 1]]
  }

  /** The row an INSERT makes, if its values decode, are as many as the columns, and the
      columns are the table's. */
  function InsertedRow(table: seq<Text>, columns: seq<Text>, f: Formats): seq<Value> -> Option<Row> {
    row =>
      match Every(row, Decoder(f))
      case None => None
      case Some(values) =>
        if |values| == |columns| && (forall c :: c in columns ==> c in table) then Some(RowOf(columns, values)) else None
  }

  /** The rows one table of the archive adds, if every one of them goes in. */
  function InsertedRows(db: Database, t: TableData, f: Formats): Option<seq<Row>> {
    if t.name !in db.tables then None
    else Every(t.rows, InsertedRow(db.tables[t.name].columns, Split(t.columnsCSV, COMMA), f))
  }

  /** Everything the archive adds to `name`. */
  function Added(db: Database, tables: seq<TableData>, name: Text, f: Formats): seq<Row> {
    if tables == [] then []
    else
      var last := tables[|tables| - 1];
      Added(db, tables[..|tables| - 1], name, f)
      + (if last.name == name && InsertedRows(db, last, f).Some? then InsertedRows(db, last, f).value else [])
  }

  ghost predicate AllGoIn(db: Database, tables: seq<TableData>, f: Formats) {
    forall i :: 0 <= i < |tables| ==> InsertedRows(db, tables[i], f).Some?
  }

  predicate Cleared(cat: Catalog, name: Text) {
    name in cat.ephemeral || name in cat.tables
  }

  /** What the database's own constraints let a transaction do, as things stand then: empty a
      table, take a row into one, and commit. */
  datatype Rules = Rules(empties: (Database, Text) -> bool, takes: (Database, Text, Row) -> bool, commits: Database -> bool)

  /** The database with the tables of `names` emptied. */
  function WithEmptied(db: Database, names: set<Text>): Database {
    db.(tables := map name | name in db.tables :: if name in names then db.tables[name].(rows := []) else db.tables[name])
  }

  function AddRows(tx: Database, name: Text, rows: seq<Row>): Database
    requires name in tx.tables
  {
    tx.(tables := tx.tables[name := tx.tables[name].(rows := tx.tables[name].rows + rows)])
  }

  /** The order in which tables are emptied: the ephemeral ones, then the program's own list
      from its end. */
  function ClearingOrder(cat: Catalog): seq<Text> {
    cat.ephemeral + seq(|cat.tables|, i requires 0 <= i < |cat.tables| => cat.tables[|cat.tables| - 1 - i])
  }

  ghost predicate PermitsClearing(rules: Rules, cat: Catalog, db: Database) {
    var order := ClearingOrder(cat);
    forall k :: 0 <= k < |order| ==> rules.empties(WithEmptied(db, AsSet(order[..k])), order[k])
  }

  ghost predicate PermitsRows(rules: Rules, tx: Database, name: Text, rows: seq<Row>)
    requires name in tx.tables
  {
    forall j :: 0 <= j < |rows| ==> rules.takes(AddRows(tx, name, rows[..j]), name, rows[j])
  }

  ghost predicate PermitsTables(rules: Rules, cat: Catalog, db: Database, tables: seq<TableData>, f: Formats) {
    forall i :: 0 <= i < |tables| && InsertedRows(db, tables[i], f).Some? ==>
      PermitsRows(rules, Restored(cat, db, tables[..i], f), tables[i].name, InsertedRows(db, tables[i], f).value)
  }

  /** Every statement of the restore and its commit. */
  ghost predicate Permits(rules: Rules, cat: Catalog, db: Database, tables: seq<TableData>, f: Formats) {
    && PermitsClearing(rules, cat, db)
    && PermitsTables(rules, cat, db, tables, f)
    && rules.commits(Restored(cat, db, tables, f))
  }

  ghost predicate Acceptable(cat: Catalog, rules: Rules, db: Database, a: Archive, f: Formats) {
    && Validated(cat, db, a)
    && (forall name :: Cleared(cat, name) ==> name in db.tables)
    && AllGoIn(db, a.tables, f)
    && Permits(rules, cat, db, a.tables, f)
  }

  /** The rows of a table after the given tables have been restored. */
  function RestoredRows(cat: Catalog, before: Database, tables: seq<TableData>, name: Text, f: Formats): seq<Row>
    requires name in before.tables
  {
    (if Cleared(cat, name) then [] else before.tables[name].rows) + Added(before, tables, name, f)
  }

  function Restored(cat: Catalog, before: Database, tables: seq<TableData>, f: Formats): Database {
    before.(tables := map name | name in before.tables :: Table(before.tables[name].columns, RestoredRows(cat, before, tables, name, f)))
  }

  /** The database after a restore: every table the program backs up or never carries holds
      exactly what the archive has for it, and nothing else moved. */
  ghost predicate IsRestored(cat: Catalog, before: Database, after: Database, tables: seq<TableData>, f: Formats) {
    && after.migrations == before.migrations
    && after.tables.Keys == before.tables.Keys
    && forall name :: name in before.tables ==>
         after.tables[name] == Table(before.tables[name].columns, RestoredRows(cat, before, tables, name, f))
  }

  lemma IsTheRestored(cat: Catalog, before: Database, after: Database, tables: seq<TableData>, f: Formats)
    ensures IsRestored(cat, before, after, tables, f) <==> after == Restored(cat, before, tables, f)
  {
    if IsRestored(cat, before, after, tables, f) {
      assert after.tables == Restored(cat, before, tables, f).tables;
    }
  }

  // ---- what acceptance comes to ----

  /** Names that a list in one text tells apart: none has a line break, and there is not just
      an empty one. */
  predicate Tellable(names: seq<Text>) {
    names != [[]] && forall i :: 0 <= i < |names| ==> 0x0A !in names[i]
  }

  /** The table is there, its columns but the derived ones are those the archive names, in
      order, and every row has a value for each of them that decodes. */
  ghost predicate Matches(cat: Catalog, db: Database, t: TableData, f: Formats) {
    && t.name in db.tables
    && var columns := Split(t.columnsCSV, COMMA);
    && (forall row :: row in t.rows ==> |row| == |columns| && forall i :: 0 <= i < |row| ==> DecodeValue(row[i], f).Some?)
    && (t.rows != [] ==> forall c :: c in columns ==> c in db.tables[t.name].columns)
    && (var kept := CarriedColumns(cat, t.name, db.tables[t.name].columns);
        kept != [] && Free(kept, COMMA) ==> columns == kept)
  }

  lemma TableMatches(cat: Catalog, db: Database, t: TableData, f: Formats)
    requires SameColumns(cat, db, t) && InsertedRows(db, t, f).Some?
    ensures Matches(cat, db, t, f)
  {
    var table, columns := db.tables[t.name].columns, Split(t.columnsCSV, COMMA);
    EveryIs(t.rows, InsertedRow(table, columns, f));
    forall row | row in t.rows
      ensures |row| == |columns| && (forall i :: 0 <= i < |row| ==> DecodeValue(row[i], f).Some?) && forall c :: c in columns ==> c in table
    {
      var k :| 0 <= k < |t.rows| && t.rows[k] == row;
      assert InsertedRow(table, columns, f)(row).Some?;
      EveryIs(row, Decoder(f));
      assert forall i :: 0 <= i < |row| ==> Decoder(f)(row[i]).Some?;
    }
    var kept := CarriedColumns(cat, t.name, table);
    if kept != [] && Free(kept, COMMA) {
      SplitJoin(kept, COMMA);
    }
  }

  /** An archive is accepted only into a database that has had the same migrations, in the
      same order, and whose tables are those it describes. */
  lemma AcceptedMatches(cat: Catalog, rules: Rules, db: Database, a: Archive, f: Formats)
    requires Acceptable(cat, rules, db, a, f)
    ensures Tellable(db.migrations) && Tellable(a.migrations) ==> a.migrations == db.migrations
    ensures forall t :: t in a.tables ==> Matches(cat, db, t, f)
    ensures forall name :: name in cat.ephemeral || name in cat.tables ==> name in db.tables
  {
    if Tellable(db.migrations) && Tellable(a.migrations) {
      JoinTells(db.migrations, a.migrations, NEWLINE);
    }
    forall t | t in a.tables ensures Matches(cat, db, t, f) {
      var i :| 0 <= i < |a.tables| && a.tables[i] == t;
      TableMatches(cat, db, t, f);
    }
    forall name | name in cat.ephemeral || name in cat.tables ensures name in db.tables {
      assert Cleared(cat, name);
    }
  }

  lemma AcceptedOnlyMatching(cat: Catalog, rules: Rules, db: Database, a: Archive, f: Formats)
    ensures Acceptable(cat, rules, db, a, f) ==>
      && (Tellable(db.migrations) && Tellable(a.migrations) ==> a.migrations == db.migrations)
      && forall t :: t in a.tables ==> Matches(cat, db, t, f)
  {
    if Acceptable(cat, rules, db, a, f) {
      AcceptedMatches(cat, rules, db, a, f);
    }
  }

  // ---- the transaction ----

  method DeleteFrom(rules: Rules, tx: Database, name: Text) returns (ok: bool, out: Database)
    ensures ok <==> name in tx.tables && rules.empties(tx, name)
    ensures ok ==> out == WithEmptied(tx, {name})
  {
    if name !in tx.tables || !rules.empties(tx, name) {
      return false, tx;
    }
    out := tx.(tables := tx.tables[name := tx.tables[name].(rows := [])]);
    assert out.tables == WithEmptied(tx, {name}).tables;
    ok := true;
  }

  lemma EmptiedNone(db: Database)
    ensures WithEmptied(db, {}) == db
  {
    assert WithEmptied(db, {}).tables == db.tables;
  }

  lemma EmptiedOneMore(db: Database, cat: Catalog, k: nat)
    requires k < |ClearingOrder(cat)|
    ensures var order := ClearingOrder(cat);
            WithEmptied(WithEmptied(db, AsSet(order[..k])), {order[k]}) == WithEmptied(db, AsSet(order[..k + 1]))
  {
    var order := ClearingOrder(cat);
    assert order[..k + 1] == order[..k] + [order[k]];
    assert WithEmptied(WithEmptied(db, AsSet(order[..k])), {order[k]}).tables == WithEmptied(db, AsSet(order[..k + 1])).tables;
  }

  /** The first `n` of the order are there and may be emptied. */
  ghost predicate ClearedSoFar(rules: Rules, cat: Catalog, db: Database, n: nat)
    requires n <= |ClearingOrder(cat)|
  {
    var order := ClearingOrder(cat);
    forall k :: 0 <= k < n ==> order[k] in db.tables && rules.empties(WithEmptied(db, AsSet(order[..k])), order[k])
  }

  /** The database when the first `n` of the order have been emptied. */
  function EmptiedFirst(cat: Catalog, db: Database, n: nat): Database
    requires n <= |ClearingOrder(cat)|
  {
    WithEmptied(db, AsSet(ClearingOrder(cat)[..n]))
  }

  /** The first `n` of the order are cleared in `tx`. */
  ghost predicate ClearedIn(rules: Rules, cat: Catalog, db: Database, tx: Database, n: nat) {
    n <= |ClearingOrder(cat)| && ClearedSoFar(rules, cat, db, n) && tx == EmptiedFirst(cat, db, n)
  }

  /** One table of the order. */
  method ClearNext(rules: Rules, ghost db: Database, tx: Database, ghost cat: Catalog, name: Text, ghost k: nat)
    returns (ok: bool, out: Database)
    requires k < |ClearingOrder(cat)| && name == ClearingOrder(cat)[k] && ClearedIn(rules, cat, db, tx, k)
    ensures ok ==> ClearedIn(rules, cat, db, out, k + 1)
    ensures !ok ==> !ClearedSoFar(rules, cat, db, |ClearingOrder(cat)|)
  {
    EmptiedOneMore(db, cat, k);
    ok, out := DeleteFrom(rules, tx, name);
  }

  lemma EphemeralAt(cat: Catalog, e: nat)
    requires e < |cat.ephemeral|
    ensures e < |ClearingOrder(cat)| && ClearingOrder(cat)[e] == cat.ephemeral[e]
  {
  }

  lemma ListedAt(cat: Catalog, i: nat)
    requires i < |cat.tables|
    ensures |ClearingOrder(cat)| == |cat.ephemeral| + |cat.tables|
    ensures ClearingOrder(cat)[|cat.ephemeral| + |cat.tables| - 1 - i] == cat.tables[i]
  {
  }

  lemma EmptiedAtEnds(cat: Catalog, db: Database)
    ensures EmptiedFirst(cat, db, 0) == db
    ensures EmptiedFirst(cat, db, |ClearingOrder(cat)|) == WithEmptied(db, AsSet(cat.ephemeral) + AsSet(cat.tables))
  {
    var order := ClearingOrder(cat);
    EmptiedNone(db);
    OrderIsAll(cat);
    assert AsSet(order[..0]) == {} && order[..|order|] == order;
  }

  lemma OrderIsAll(cat: Catalog)
    ensures AsSet(ClearingOrder(cat)) == AsSet(cat.ephemeral) + AsSet(cat.tables)
    ensures forall name :: Cleared(cat, name) <==> name in ClearingOrder(cat)
  {
    var order, n, e := ClearingOrder(cat), |cat.tables|, |cat.ephemeral|;
    forall name | name in cat.tables ensures name in order {
      var i :| 0 <= i < n && cat.tables[i] == name;
      assert order[e + (n - 1 - i)] == name;
    }
    forall name | name in cat.ephemeral ensures name in order {
      var i :| 0 <= i < e && cat.ephemeral[i] == name;
      assert order[i] == name;
    }
  }

  lemma AllCleared(rules: Rules, cat: Catalog, db: Database)
    ensures ClearedSoFar(rules, cat, db, |ClearingOrder(cat)|) <==>
      (forall name :: Cleared(cat, name) ==> name in db.tables) && PermitsClearing(rules, cat, db)
  {
    OrderIsAll(cat);
    var order := ClearingOrder(cat);
    if forall name :: Cleared(cat, name) ==> name in db.tables {
      assert forall k :: 0 <= k < |order| ==> order[k] in order;
    }
  }

  method ClearEphemeral(rules: Rules, db: Database, cat: Catalog) returns (ok: bool, tx: Database)
    ensures ok ==> ClearedIn(rules, cat, db, tx, |cat.ephemeral|)
    ensures !ok ==> !ClearedSoFar(rules, cat, db, |ClearingOrder(cat)|)
  {
    EmptiedAtEnds(cat, db);
    tx := db;
    var e := 0;
    while e < |cat.ephemeral|
      invariant 0 <= e <= |cat.ephemeral| && ClearedIn(rules, cat, db, tx, e)
    {
      EphemeralAt(cat, e);
      ok, tx := ClearNext(rules, db, tx, cat, cat.ephemeral[e], e);
      if !ok {
        return;
      }
      e := e + 1;
    }
    ok := true;
  }

  /** One table of the program's own list, counted from its end. */
  method ClearListedAt(rules: Rules, ghost db: Database, tx: Database, cat: Catalog, i: nat) returns (ok: bool, out: Database)
    requires i < |cat.tables| && ClearedIn(rules, cat, db, tx, |cat.ephemeral| + |cat.tables| - 1 - i)
    ensures ok ==> ClearedIn(rules, cat, db, out, |cat.ephemeral| + |cat.tables| - i)
    ensures !ok ==> !ClearedSoFar(rules, cat, db, |ClearingOrder(cat)|)
  {
    ListedAt(cat, i);
    ok, out := ClearNext(rules, db, tx, cat, cat.tables[i], |cat.ephemeral| + |cat.tables| - 1 - i);
  }

  /** The program's own list from its end. */
  method ClearListed(rules: Rules, ghost db: Database, start: Database, cat: Catalog) returns (ok: bool, tx: Database)
    requires ClearedIn(rules, cat, db, start, |cat.ephemeral|)
    ensures ok ==> ClearedIn(rules, cat, db, tx, |cat.ephemeral| + |cat.tables|)
    ensures !ok ==> !ClearedSoFar(rules, cat, db, |ClearingOrder(cat)|)
  {
    tx := start;
    var i := |cat.tables|;
    while i > 0
      invariant 0 <= i <= |cat.tables| && ClearedIn(rules, cat, db, tx, |cat.ephemeral| + |cat.tables| - i)
    {
      i := i - 1;
      ok, tx := ClearListedAt(rules, db, tx, cat, i);
      if !ok {
        return;
      }
    }
    ok := true;
  }

  lemma OrderLength(cat: Catalog)
    ensures |ClearingOrder(cat)| == |cat.ephemeral| + |cat.tables|
  {
  }

  lemma ClearedAtEnd(rules: Rules, cat: Catalog, db: Database, tx: Database, n: nat)
    requires ClearedIn(rules, cat, db, tx, n) && n == |ClearingOrder(cat)|
    ensures ClearedSoFar(rules, cat, db, n) && tx == EmptiedFirst(cat, db, n)
  {
  }

  /** The ephemeral tables first, then the others. */
  method ClearTables(rules: Rules, db: Database, cat: Catalog) returns (ok: bool, tx: Database)
    ensures ok <==> (forall name :: Cleared(cat, name) ==> name in db.tables) && PermitsClearing(rules, cat, db)
    ensures ok ==> tx == WithEmptied(db, AsSet(cat.ephemeral) + AsSet(cat.tables))
  {
    AllCleared(rules, cat, db);
    ok, tx := ClearEphemeral(rules, db, cat);
    if ok {
      ok, tx := ClearListed(rules, db, tx, cat);
    }
    if ok {
      OrderLength(cat);
      ClearedAtEnd(rules, cat, db, tx, |cat.ephemeral| + |cat.tables|);
      EmptiedAtEnds(cat, db);
    }
  }

  /** One INSERT. */
  method InsertInto(rules: Rules, tx: Database, name: Text, columns: seq<Text>, values: seq<SqlValue>) returns (ok: bool, out: Database)
    requires name in tx.tables
    ensures ok <==>
      |values| == |columns| && (forall c :: c in columns ==> c in tx.tables[name].columns) && rules.takes(tx, name, RowOf(columns, values))
    ensures ok ==> out == AddRows(tx, name, [RowOf(columns, values)])
  {
    if |values| != |columns| || exists c :: c in columns && c !in tx.tables[name].columns {
      return false, tx;
    }
    if !rules.takes(tx, name, RowOf(columns, values)) {
      return false, tx;
    }
    return true, AddRows(tx, name, [RowOf(columns, values)]);
  }

  lemma AddNone(tx: Database, name: Text)
    requires name in tx.tables
    ensures AddRows(tx, name, []) == tx
  {
    assert tx.tables[name].rows + [] == tx.tables[name].rows;
    assert tx.tables[name := tx.tables[name]] == tx.tables;
  }

  lemma AddMore(tx: Database, name: Text, rows: seq<Row>, row: Row)
    requires name in tx.tables
    ensures AddRows(AddRows(tx, name, rows), name, [row]) == AddRows(tx, name, rows + [row])
  {
    assert tx.tables[name].rows + rows + [row] == tx.tables[name].rows + (rows + [row]);
  }

  method DecodeRow(row: seq<Value>, f: Formats) returns (args: Option<seq<SqlValue>>)
    ensures args == Every(row, Decoder(f))
  {
    var values: seq<SqlValue> := [];
    var i := 0;
    while i < |row|
      invariant 0 <= i == |values| <= |row|
      invariant forall k :: 0 <= k < i ==> Decoder(f)(row[k]) == Some(values[k])
    {
      EveryIs(row, Decoder(f));
      var value := DecodeValue(row[i], f);
      if value.None? {
        return None;
      }
      values := values + [value.value];
      i := i + 1;
    }
    EverySoFar(row, Decoder(f), values);
    args := Some(values);
  }

  /** One row of the archive. */
  method InsertRow(rules: Rules, tx: Database, name: Text, columns: seq<Text>, row: seq<Value>, f: Formats)
    returns (ok: bool, out: Database)
    requires name in tx.tables
    ensures var inserted := InsertedRow(tx.tables[name].columns, columns, f)(row);
            && (ok <==> inserted.Some? && rules.takes(tx, name, inserted.value))
            && (ok ==> out == AddRows(tx, name, [inserted.value]))
  {
    var args := DecodeRow(row, f);
    if args.None? {
      return false, tx;
    }
    ok, out := InsertInto(rules, tx, name, columns, args.value);
  }

  /** The rows so far were let in, and the next one does not decode, does not fit or is
      refused. */
  lemma RowStops(rules: Rules, tx: Database, t: TableData, f: Formats, inserted: seq<Value> -> Option<Row>, rows: seq<Row>)
    requires t.name in tx.tables && inserted == InsertedRow(tx.tables[t.name].columns, Split(t.columnsCSV, COMMA), f)
    requires |rows| < |t.rows| && forall k :: 0 <= k < |rows| ==> inserted(t.rows[k]) == Some(rows[k])
    requires inserted(t.rows[|rows|]).None? || !rules.takes(AddRows(tx, t.name, rows), t.name, inserted(t.rows[|rows|]).value)
    ensures !(InsertedRows(tx, t, f).Some? && PermitsRows(rules, tx, t.name, InsertedRows(tx, t, f).value))
  {
    EveryIs(t.rows, inserted);
    if InsertedRows(tx, t, f).Some? {
      var all := InsertedRows(tx, t, f).value;
      assert all[..|rows|] == rows;
      assert inserted(t.rows[|rows|]) == Some(all[|rows|]);
    }
  }

  /** All the rows of one table of the archive. */
  method InsertAll(rules: Rules, tx: Database, t: TableData, f: Formats) returns (ok: bool, out: Database)
    requires t.name in tx.tables
    ensures ok <==> InsertedRows(tx, t, f).Some? && PermitsRows(rules, tx, t.name, InsertedRows(tx, t, f).value)
    ensures ok ==> out == AddRows(tx, t.name, InsertedRows(tx, t, f).value)
  {
    var columns := Split(t.columnsCSV, COMMA);
    ghost var inserted := InsertedRow(tx.tables[t.name].columns, columns, f);
    ghost var rows: seq<Row> := [];
    out := tx;
    AddNone(tx, t.name);
    var i := 0;
    while i < |t.rows|
      invariant 0 <= i == |rows| <= |t.rows|
      invariant forall k :: 0 <= k < i ==> inserted(t.rows[k]) == Some(rows[k])
      invariant PermitsRows(rules, tx, t.name, rows)
      invariant out == AddRows(tx, t.name, rows)
    {
      ok, out := InsertRow(rules, out, t.name, columns, t.rows[i], f);
      if !ok {
        RowStops(rules, tx, t, f, inserted, rows);
        return;
      }
      AddMore(tx, t.name, rows, inserted(t.rows[i]).value);
      OneMorePermitted(rules, tx, t.name, rows, inserted(t.rows[i]).value);
      rows := rows + [inserted(t.rows[i]).value];
      i := i + 1;
    }
    EverySoFar(t.rows, inserted, rows);
    ok := true;
  }

  lemma OneMorePermitted(rules: Rules, tx: Database, name: Text, rows: seq<Row>, row: Row)
    requires name in tx.tables && PermitsRows(rules, tx, name, rows) && rules.takes(AddRows(tx, name, rows), name, row)
    ensures PermitsRows(rules, tx, name, rows + [row])
  {
    forall j | 0 <= j < |rows + [row]| ensures rules.takes(AddRows(tx, name, (rows + [row])[..j]), name, (rows + [row])[j]) {
      assert (rows + [row])[..j] == rows[..j];
    }
  }

  /** The first `n` tables go in and are let in. */
  ghost predicate FilledSoFar(rules: Rules, cat: Catalog, db: Database, tables: seq<TableData>, n: nat, f: Formats)
    requires n <= |tables|
  {
    forall i :: 0 <= i < n ==>
      && InsertedRows(db, tables[i], f).Some?
      && PermitsRows(rules, Restored(cat, db, tables[..i], f), tables[i].name, InsertedRows(db, tables[i], f).value)
  }

  lemma AllFilled(rules: Rules, cat: Catalog, db: Database, tables: seq<TableData>, f: Formats)
    ensures FilledSoFar(rules, cat, db, tables, |tables|, f) <==> AllGoIn(db, tables, f) && PermitsTables(rules, cat, db, tables, f)
  {
  }

  lemma FilledOneMore(rules: Rules, cat: Catalog, db: Database, tables: seq<TableData>, i: nat, f: Formats)
    requires i < |tables| && FilledSoFar(rules, cat, db, tables, i, f) && InsertedRows(db, tables[i], f).Some?
    requires PermitsRows(rules, Restored(cat, db, tables[..i], f), tables[i].name, InsertedRows(db, tables[i], f).value)
    ensures FilledSoFar(rules, cat, db, tables, i + 1, f)
    ensures AddRows(Restored(cat, db, tables[..i], f), tables[i].name, InsertedRows(db, tables[i], f).value)
            == Restored(cat, db, tables[..i + 1], f)
  {
    assert tables[..i + 1] == tables[..i] + [tables[i]];
    TableRestored(cat, db, tables[..i], tables[i], f);
  }

  /** One table of the archive. */
  method FillNext(rules: Rules, ghost db: Database, tx: Database, ghost cat: Catalog, ghost tables: seq<TableData>, t: TableData, ghost i: nat,
                  f: Formats)
    returns (ok: bool, out: Database)
    requires i < |tables| && t == tables[i] && t.name in db.tables
    requires FilledSoFar(rules, cat, db, tables, i, f) && tx == Restored(cat, db, tables[..i], f)
    ensures ok ==> FilledSoFar(rules, cat, db, tables, i + 1, f) && out == Restored(cat, db, tables[..i + 1], f)
    ensures !ok ==> !FilledSoFar(rules, cat, db, tables, |tables|, f)
  {
    SameInserts(cat, db, tx, tables[..i], t, f);
    ok, out := InsertAll(rules, tx, t, f);
    if ok {
      FilledOneMore(rules, cat, db, tables, i, f);
    }
  }

  /** The tables of the archive, in its order, into emptied ones. */
  method FillTables(rules: Rules, ghost db: Database, emptied: Database, ghost cat: Catalog, tables: seq<TableData>, f: Formats)
    returns (ok: bool, tx: Database)
    requires emptied == Restored(cat, db, [], f)
    requires forall k :: 0 <= k < |tables| ==> tables[k].name in db.tables
    ensures ok <==> AllGoIn(db, tables, f) && PermitsTables(rules, cat, db, tables, f)
    ensures ok ==> tx == Restored(cat, db, tables, f)
  {
    AllFilled(rules, cat, db, tables, f);
    tx := emptied;
    var i := 0;
    assert tables[..i] == [];
    while i < |tables|
      invariant 0 <= i <= |tables|
      invariant FilledSoFar(rules, cat, db, tables, i, f) && tx == Restored(cat, db, tables[..i], f)
    {
      ok, tx := FillNext(rules, db, tx, cat, tables, tables[i], i, f);
      if !ok {
        return;
      }
      i := i + 1;
    }
    assert tables[..i] == tables;
    ok := true;
  }

  lemma SameInserts(cat: Catalog, db: Database, tx: Database, tables: seq<TableData>, t: TableData, f: Formats)
    requires tx == Restored(cat, db, tables, f) && t.name in db.tables
    ensures t.name in tx.tables && InsertedRows(tx, t, f) == InsertedRows(db, t, f)
  {
  }

  lemma EmptiedIsRestored(cat: Catalog, db: Database, f: Formats)
    ensures WithEmptied(db, AsSet(cat.ephemeral) + AsSet(cat.tables)) == Restored(cat, db, [], f)
  {
    var a, b := WithEmptied(db, AsSet(cat.ephemeral) + AsSet(cat.tables)), Restored(cat, db, [], f);
    forall name | name in db.tables ensures a.tables[name] == b.tables[name] {
      assert db.tables[name].rows + [] == db.tables[name].rows;
    }
    assert a.tables == b.tables;
  }

  // ---- the store ----

  class Store {
    const rules: Rules
    var db: Database

    constructor (rules: Rules, db: Database)
      ensures this.rules == rules && this.db == db
    {
      this.rules, this.db := rules, db;
    }

    method Validate(cat: Catalog, a: Archive) returns (ok: bool)
      ensures ok <==> Validated(cat, db, a)
    {
      var actual := Join(Names(a), NEWLINE);
      ok := actual == Join(cat.tables, NEWLINE);
      var i := 0;
      while i < |cat.omitted|
        invariant 0 <= i <= |cat.omitted|
        invariant ok <==> actual == Join(cat.tables, NEWLINE)
                          || exists k :: 0 <= k < i && actual == Join(Without(cat.tables, AsSet(cat.omitted[k])), NEWLINE)
      {
        ok := ok || actual == Join(Without(cat.tables, AsSet(cat.omitted[i])), NEWLINE);
        i := i + 1;
      }
      if !ok {
        return;
      }
      var j := 0;
      while j < |a.tables|
        invariant 0 <= j <= |a.tables|
        invariant forall k :: 0 <= k < j ==> SameColumns(cat, db, a.tables[k])
      {
        if !SameColumns(cat, db, a.tables[j]) {
          return false;
        }
        j := j + 1;
      }
      return Join(db.migrations, NEWLINE) == Join(a.migrations, NEWLINE);
    }

    /** All or nothing: on any error the database is what it was. */
    method RestoreArchive(cat: Catalog, a: Archive, f: Formats) returns (ok: bool)
      modifies this
      ensures ok <==> Acceptable(cat, rules, old(db), a, f)
      ensures ok ==> IsRestored(cat, old(db), db, a.tables, f)
      ensures !ok ==> db == old(db)
      ensures Tellable(old(db).migrations) && Tellable(a.migrations) && a.migrations != old(db).migrations ==> !ok && db == old(db)
      ensures ok ==> forall t :: t in a.tables ==> Matches(cat, old(db), t, f)
    {
      AcceptedOnlyMatching(cat, rules, db, a, f);
      ok := Validate(cat, a);
      if !ok {
        return;
      }
      var tx;
      ok, tx := ClearTables(rules, db, cat);
      if !ok {
        return;
      }
      EmptiedIsRestored(cat, db, f);
      assert forall k :: 0 <= k < |a.tables| ==> a.tables[k] in a.tables && SameColumns(cat, db, a.tables[k]);
      ok, tx := FillTables(rules, db, tx, cat, a.tables, f);
      if !ok || !rules.commits(tx) {
        return false;
      }
      IsTheRestored(cat, db, tx, a.tables, f);
      db := tx;
    }
  }

  lemma TableRestored(cat: Catalog, db: Database, tables: seq<TableData>, last: TableData, f: Formats)
    requires last.name in db.tables && InsertedRows(db, last, f).Some?
    ensures AddRows(Restored(cat, db, tables, f), last.name, InsertedRows(db, last, f).value) == Restored(cat, db, tables + [last], f)
  {
    assert (tables + [last])[..|tables|] == tables;
    var more := InsertedRows(db, last, f).value;
    var a, b := AddRows(Restored(cat, db, tables, f), last.name, more), Restored(cat, db, tables + [last], f);
    forall name | name in db.tables ensures a.tables[name] == b.tables[name] {
      RowsPlus(cat, db, tables, last, name, f);
    }
    assert a.tables == b.tables;
  }

  lemma RowsPlus(cat: Catalog, db: Database, tables: seq<TableData>, last: TableData, name: Text, f: Formats)
    requires name in db.tables && InsertedRows(db, last, f).Some?
    ensures RestoredRows(cat, db, tables + [last], name, f)
            == RestoredRows(cat, db, tables, name, f) + (if last.name == name then InsertedRows(db, last, f).value else [])
  {
    assert (tables + [last])[..|tables|] == tables;
  }
}
