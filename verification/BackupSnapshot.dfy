/** Taking a backup: the database as the program sees it, and the archive it makes of it. */
module BackupSnapshot {
  import opened Common
  import opened BackupText
  import opened Parts
  import opened BackupJson
  import opened BackupValues
  import opened BackupArchive

  type Row = map<Text, SqlValue>

  datatype Table = Table(columns: seq<Text>, rows: seq<Row>)

  datatype Database = Database(tables: map<Text, Table>, migrations: seq<Text>)

  /** The program's own lists: the tables it backs up, in order; the ones a restore always
      empties; the columns the database computes for itself; and, for each older format, the
      tables that format did not have. */
  datatype Catalog = Catalog(tables: seq<Text>, ephemeral: seq<Text>, derived: map<Text, set<Text>>, omitted: seq<seq<Text>>)

  /** A table's columns without the derived ones. */
  function CarriedColumns(cat: Catalog, name: Text, columns: seq<Text>): seq<Text> {
    if name !in cat.derived then columns else Without(columns, cat.derived[name])
  }

  function Without(list: seq<Text>, dropped: set<Text>): (r: seq<Text>)
    ensures forall x :: x in r <==> x in list && x !in dropped
  {
    if list == [] then []
    else if list[0] in dropped then Without(list[1..], dropped)
    else [list[0]] + Without(list[1..], dropped)
  }

  /** The cells of a row under the given columns, in order. */
  function Cells(row: Row, columns: seq<Text>): seq<SqlValue> {
    seq(|columns|, i requires 0 <= i < |columns| => if columns[i] in row then row[columns[i]] else SNull)
  }

  function Encoder(f: Formats): SqlValue -> Option<Value> {
    v => EncodeValue(v, f)
  }

  function EncodeRow(columns: seq<Text>, f: Formats): Row -> Option<seq<Value>> {
    row => Every(Cells(row, columns), Encoder(f))
  }

  function EncodeTable(cat: Catalog, db: Database, f: Formats): Text -> Option<TableData> {
    name =>
      if name !in db.tables then None
      else
        var columns := CarriedColumns(cat, name, db.tables[name].columns);
        match Every(db.tables[name].rows, EncodeRow(columns, f))
        case None => None
        case Some(rows) => Some(TableData(name, Join(columns, COMMA), rows))
  }

  const LOGICAL_V1 := Ascii("git-ctx-logical-v1")

  function Snapshot(cat: Catalog, db: Database, f: Formats, driver: Text, createdAt: Text): Option<Archive> {
    match Every(cat.tables, EncodeTable(cat, db, f))
    case None => None
    case Some(tables) => Some(Archive(LOGICAL_V1, driver, createdAt, db.migrations, tables))
  }

  lemma {:induction false} EveryIs<A, B>(items: seq<A>, f: A -> Option<B>)
    ensures Every(items, f).Some? <==> forall i :: 0 <= i < |items| ==> f(items[i]).Some?
    ensures Every(items, f).Some? ==> |Every(items, f).value| == |items|
    ensures Every(items, f).Some? ==> forall i :: 0 <= i < |items| ==> f(items[i]) == Some(Every(items, f).value[i])
  {
    if items != [] {
      EveryIs(items[1..], f);
      assert forall i :: 1 <= i < |items| ==> items[i] == items[1..][i - 1];
    }
  }

  /** `soFar` are the first answers. */
  lemma EverySoFar<A, B>(items: seq<A>, f: A -> Option<B>, soFar: seq<B>)
    requires |soFar| <= |items| && forall k :: 0 <= k < |soFar| ==> f(items[k]) == Some(soFar[k])
    ensures |soFar| == |items| ==> Every(items, f) == Some(soFar)
    ensures Every(items, f).Some? && |soFar| < |items| ==>
      soFar < Every(items, f).value && f(items[|soFar|]).Some? && soFar + [f(items[|soFar|]).value] <= Every(items, f).value
  {
    EveryIs(items, f);
    if Every(items, f).Some? {
      var all := Every(items, f).value;
      forall k | 0 <= k < |soFar| ensures all[k] == soFar[k] {
        assert f(items[k]) == Some(all[k]);
      }
      FrontOf(soFar, all);
    }
  }

  lemma FrontOf<T>(front: seq<T>, all: seq<T>)
    requires |front| <= |all| && forall k :: 0 <= k < |front| ==> all[k] == front[k]
    ensures front <= all
    ensures |front| == |all| ==> front == all
    ensures |front| < |all| ==> front < all && front + [all[|front|]] <= all
  {
  }
}
