/** From one database to another through a backup: what a snapshot is restored as, when it is
    refused, and what archives of older formats leave behind. */
module BackupRoundTrip {
  import opened Common
  import opened BackupText
  import opened Parts
  import opened BackupJson
  import opened BackupValues
  import opened BackupArchive
  import opened BackupSnapshot
  import opened BackupRestore

  predicate Distinct(names: seq<Text>) {
    forall i, j :: 0 <= i < j < |names| ==> names[i] != names[j]
  }

  // ---- column lists ----

  lemma {:induction false} JoinValid(parts: seq<Text>)
    requires forall x :: x in parts ==> ValidUtf8(x)
    ensures ValidUtf8(Join(parts, COMMA))
  {
    if |parts| > 1 {
      JoinValid(parts[1..]);
      ValidAscii([COMMA]);
      ValidConcat(parts[0], [COMMA]);
      ValidConcat(parts[0] + [COMMA], Join(parts[1..], COMMA));
    }
  }

  // ---- rows ----

  lemma {:induction false} RowOfAt(columns: seq<Text>, values: seq<SqlValue>)
    requires |columns| == |values| && Distinct(columns)
    ensures RowOf(columns, values).Keys == AsSet(columns)
    ensures forall i :: 0 <= i < |columns| ==> columns[i] in RowOf(columns, values) && RowOf(columns, values)[columns[i]] == values[i]
  {
    if columns != [] {
      RowOfAt(columns[..|columns| - 1], values[..|values| - 1]);
    }
  }

  /** Every carried cell of `source` is in `row`, in its own column and type. */
  predicate Carries(columns: seq<Text>, source: Row, row: Row) {
    forall i :: 0 <= i < |columns| ==> columns[i] in row && row[columns[i]] == Carried(Cells(source, columns)[i])
  }

  predicate CarriableRow(columns: seq<Text>, row: Row, f: Formats) {
    forall i :: 0 <= i < |columns| ==> Carriable(Cells(row, columns)[i], f)
  }

  /** One row, encoded, sent through JSON and decoded. */
  lemma RowRoundTrip(columns: seq<Text>, row: Row, f: Formats)
    requires CarriableRow(columns, row, f)
    ensures EncodeRow(columns, f)(row).Some?
    ensures Every(CleanRow(EncodeRow(columns, f)(row).value), Decoder(f)) == Some(Mapped(Cells(row, columns), Carried))
  {
    var cells := Cells(row, columns);
    forall i | 0 <= i < |cells|
      ensures Encoder(f)(cells[i]).Some?
      ensures DecodeValue(CleanValue(Encoder(f)(cells[i]).value), f) == Some(Carried(cells[i]))
    {
      ValueRoundTrip(cells[i], f);
    }
    EveryIs(cells, Encoder(f));
    var encoded := CleanRow(Every(cells, Encoder(f)).value);
    EverySoFar(encoded, Decoder(f), Mapped(cells, Carried));
  }

  /** It goes in again exactly when no carried column has a comma in its name. */
  lemma RowGoesIn(table: seq<Text>, columns: seq<Text>, row: Row, f: Formats)
    requires columns != [] && Distinct(columns) && CarriableRow(columns, row, f)
    requires forall c :: c in columns ==> c in table
    requires EncodeRow(columns, f)(row).Some?
    ensures var r := InsertedRow(table, Split(Join(columns, COMMA), COMMA), f)(CleanRow(EncodeRow(columns, f)(row).value));
            && (r.Some? <==> Free(columns, COMMA))
            && (r.Some? ==> Carries(columns, row, r.value) && r.value.Keys == AsSet(columns))
  {
    RowRoundTrip(columns, row, f);
    SplitJoinCount(columns, COMMA);
    if Free(columns, COMMA) {
      SplitJoin(columns, COMMA);
      RowOfAt(columns, Mapped(Cells(row, columns), Carried));
    }
  }

  // ---- tables ----

  function Carrying(cat: Catalog, db: Database, name: Text): seq<Text>
    requires name in db.tables
  {
    CarriedColumns(cat, name, db.tables[name].columns)
  }

  /** Columns with names of their own, in UTF-8, and values a backup can spell. */
  predicate GoodTable(cat: Catalog, db: Database, name: Text, f: Formats) {
    && name in db.tables && ValidUtf8(name)
    && var columns := Carrying(cat, db, name);
    && columns != [] && Distinct(columns)
    && (forall c :: c in columns ==> ValidUtf8(c))
    && forall row :: row in db.tables[name].rows ==> CarriableRow(columns, row, f)
  }

  /** No carried column of a table with rows has a comma in its name. */
  predicate CommaFree(cat: Catalog, db: Database, name: Text)
    requires name in db.tables
  {
    db.tables[name].rows == [] || Free(Carrying(cat, db, name), COMMA)
  }

  predicate CarriesAll(columns: seq<Text>, source: seq<Row>, rows: seq<Row>) {
    |rows| == |source| && forall i :: 0 <= i < |rows| ==> Carries(columns, source[i], rows[i]) && rows[i].Keys == AsSet(columns)
  }

  function Encoded(cat: Catalog, db: Database, name: Text, f: Formats): Option<TableData> {
    match EncodeTable(cat, db, f)(name) case None => None case Some(t) => Some(CleanTable(t))
  }

  lemma RowsGoIn(table: seq<Text>, columns: seq<Text>, rows: seq<Row>, f: Formats)
    requires columns != [] && Distinct(columns)
    requires forall row :: row in rows ==> CarriableRow(columns, row, f)
    requires forall c :: c in columns ==> c in table
    ensures Every(rows, EncodeRow(columns, f)).Some?
    ensures var r := Every(Mapped(Every(rows, EncodeRow(columns, f)).value, CleanRow), InsertedRow(table, Split(Join(columns, COMMA), COMMA), f));
            && (r.Some? <==> rows == [] || Free(columns, COMMA))
            && (r.Some? ==> CarriesAll(columns, rows, r.value))
  {
    var encode, insert := EncodeRow(columns, f), InsertedRow(table, Split(Join(columns, COMMA), COMMA), f);
    forall i | 0 <= i < |rows|
      ensures encode(rows[i]).Some?
      ensures var r := insert(CleanRow(encode(rows[i]).value));
              && (r.Some? <==> Free(columns, COMMA))
              && (r.Some? ==> Carries(columns, rows[i], r.value) && r.value.Keys == AsSet(columns))
    {
      assert rows[i] in rows;
      RowRoundTrip(columns, rows[i], f);
      RowGoesIn(table, columns, rows[i], f);
    }
    EveryIs(rows, encode);
    var sent := Mapped(Every(rows, encode).value, CleanRow);
    EveryIs(sent, insert);
    assert forall i :: 0 <= i < |rows| ==> sent[i] == CleanRow(encode(rows[i]).value);
    if rows != [] {
      assert insert(sent[0]).Some? <==> Free(columns, COMMA);
    }
  }

  lemma TableGoesIn(cat: Catalog, source: Database, target: Database, name: Text, f: Formats)
    requires GoodTable(cat, source, name, f)
    requires name in target.tables && Carrying(cat, target, name) == Carrying(cat, source, name)
    ensures Encoded(cat, source, name, f).Some?
    ensures var t := Encoded(cat, source, name, f).value;
            && t.name == name && SameColumns(cat, target, t)
            && (InsertedRows(target, t, f).Some? <==> CommaFree(cat, source, name))
            && (InsertedRows(target, t, f).Some? ==>
                  CarriesAll(Carrying(cat, source, name), source.tables[name].rows, InsertedRows(target, t, f).value))
  {
    var columns := Carrying(cat, source, name);
    RowsGoIn(target.tables[name].columns, columns, source.tables[name].rows, f);
    JoinValid(columns);
    SanitizeValid(Join(columns, COMMA));
    SanitizeValid(name);
  }

  // ---- what a list of tables adds ----

  lemma {:induction false} AddedNothing(db: Database, tables: seq<TableData>, name: Text, f: Formats)
    requires forall t :: t in tables ==> t.name != name
    ensures Added(db, tables, name, f) == []
  {
    if tables != [] {
      AddedNothing(db, tables[..|tables| - 1], name, f);
    }
  }

  /** A table named once in the archive gets that entry's rows. */
  lemma {:induction false} AddedOnce(db: Database, tables: seq<TableData>, k: nat, f: Formats)
    requires k < |tables| && InsertedRows(db, tables[k], f).Some?
    requires forall i :: 0 <= i < |tables| && i != k ==> tables[i].name != tables[k].name
    ensures Added(db, tables, tables[k].name, f) == InsertedRows(db, tables[k], f).value
  {
    var front := tables[..|tables| - 1];
    if k == |tables| - 1 {
      AddedNothing(db, front, tables[k].name, f);
    } else {
      AddedOnce(db, front, k, f);
    }
  }

  // ---- databases ----

  /** The tables `wrote` lists are all of the current ones or one older format's. */
  predicate WroteBy(cat: Catalog, wrote: Catalog) {
    && wrote.derived == cat.derived
    && (wrote.tables == cat.tables || exists o :: o in cat.omitted && wrote.tables == Without(cat.tables, AsSet(o)))
  }

  /** A source whose every listed table and migration name is good. */
  predicate GoodSource(cat: Catalog, db: Database, f: Formats) {
    && Distinct(cat.tables)
    && (forall name :: name in cat.tables ==> GoodTable(cat, db, name, f))
    && (forall m :: m in db.migrations ==> ValidUtf8(m))
  }

  /** A target at the same schema: the derived columns may differ, the carried ones not. */
  ghost predicate SameSchema(cat: Catalog, source: Database, target: Database) {
    && target.migrations == source.migrations
    && (forall name :: Cleared(cat, name) ==> name in target.tables)
    && (forall name :: name in cat.tables && name in source.tables ==>
          Carrying(cat, target, name) == Carrying(cat, source, name))
  }

  /** A backup written by a release with the tables of `wrote` from `source`, and a target
      database of the current release. */
  ghost predicate Ready(cat: Catalog, wrote: Catalog, source: Database, target: Database, f: Formats) {
    WroteBy(cat, wrote) && GoodSource(wrote, source, f) && SameSchema(cat, source, target)
  }

  lemma ReadyAt(cat: Catalog, wrote: Catalog, source: Database, target: Database, f: Formats, name: Text)
    requires Ready(cat, wrote, source, target, f) && name in wrote.tables
    ensures name in cat.tables && Cleared(cat, name) && GoodTable(wrote, source, name, f)
    ensures name in target.tables && Carrying(wrote, target, name) == Carrying(wrote, source, name)
  {
    assert Carrying(cat, target, name) == Carrying(cat, source, name);
  }

  /** `tables` is what a parsed snapshot of `source` lists. */
  predicate ListsAll(wrote: Catalog, source: Database, tables: seq<TableData>, f: Formats) {
    |tables| == |wrote.tables| && forall i :: 0 <= i < |tables| ==> Encoded(wrote, source, wrote.tables[i], f) == Some(tables[i])
  }

  lemma TableAt(cat: Catalog, wrote: Catalog, source: Database, target: Database, tables: seq<TableData>, i: nat, f: Formats)
    requires Ready(cat, wrote, source, target, f) && ListsAll(wrote, source, tables, f)
    requires i < |tables|
    ensures tables[i].name == wrote.tables[i] && wrote.tables[i] in source.tables && SameColumns(cat, target, tables[i])
    ensures InsertedRows(target, tables[i], f).Some? <==> CommaFree(wrote, source, wrote.tables[i])
    ensures InsertedRows(target, tables[i], f).Some? ==>
      CarriesAll(Carrying(wrote, source, wrote.tables[i]), source.tables[wrote.tables[i]].rows, InsertedRows(target, tables[i], f).value)
  {
    ReadyAt(cat, wrote, source, target, f, wrote.tables[i]);
    TableGoesIn(wrote, source, target, wrote.tables[i], f);
  }

  lemma TablesEncode(cat: Catalog, wrote: Catalog, source: Database, target: Database, f: Formats)
    requires Ready(cat, wrote, source, target, f)
    ensures Every(wrote.tables, EncodeTable(wrote, source, f)).Some?
    ensures ListsAll(wrote, source, Mapped(Every(wrote.tables, EncodeTable(wrote, source, f)).value, CleanTable), f)
  {
    forall i | 0 <= i < |wrote.tables| ensures EncodeTable(wrote, source, f)(wrote.tables[i]).Some? {
      ReadyAt(cat, wrote, source, target, f, wrote.tables[i]);
      TableGoesIn(wrote, source, target, wrote.tables[i], f);
    }
    EveryIs(wrote.tables, EncodeTable(wrote, source, f));
  }

  lemma ValidTexts(texts: seq<Text>)
    requires forall x :: x in texts ==> ValidUtf8(x)
    ensures Mapped(texts, Sanitize) == texts
  {
    forall i | 0 <= i < |texts| ensures Sanitize(texts[i]) == texts[i] {
      assert texts[i] in texts;
      SanitizeValid(texts[i]);
    }
  }

  /** What a restored database has to hold. */
  ghost predicate Reproduces(cat: Catalog, wrote: Catalog, source: Database, target: Database, after: Database) {
    && after.migrations == target.migrations
    && after.tables.Keys == target.tables.Keys
    && (forall name :: name in target.tables ==> after.tables[name].columns == target.tables[name].columns)
    && (forall name :: name in wrote.tables && name in source.tables && name in after.tables ==>
          CarriesAll(Carrying(wrote, source, name), source.tables[name].rows, after.tables[name].rows))
    && (forall name :: Cleared(cat, name) && name !in wrote.tables && name in after.tables ==> after.tables[name].rows == [])
    && (forall name :: name in target.tables && !Cleared(cat, name) ==> after.tables[name] == target.tables[name])
  }

  /** Snapshot one database, with the current tables or an older release's, print it, parse
      the text, restore it into another at the same schema. It is accepted exactly when no
      carried column of a table with rows has a comma in its name and the target's constraints
      permit every step. Then every carried cell of
      every table it lists is there in its own row, column and type, text being the same
      unless it was not UTF-8; the tables it does not list, and the ephemeral ones, are empty. */
  lemma SnapshotRestores(cat: Catalog, wrote: Catalog, source: Database, rules: Rules, target: Database, f: Formats,
                         driver: Text, createdAt: Text)
    requires Ready(cat, wrote, source, target, f)
    ensures Snapshot(wrote, source, f, driver, createdAt).Some?
    ensures var text := Print(ArchiveJson(Snapshot(wrote, source, f, driver, createdAt).value));
            var parsed := ParseDocument(text);
            && parsed.Some? && ReadArchive(parsed.value).Some?
            && var a := ReadArchive(parsed.value).value;
            && a.format == LOGICAL_V1
            && (Acceptable(cat, rules, target, a, f) <==>
                  && (forall name :: name in wrote.tables ==> CommaFree(wrote, source, name))
                  && Permits(rules, cat, target, a.tables, f))
            && (Acceptable(cat, rules, target, a, f) ==>
                  forall after :: IsRestored(cat, target, after, a.tables, f) ==> Reproduces(cat, wrote, source, target, after))
  {
    TablesEncode(cat, wrote, source, target, f);
    var sent := Snapshot(wrote, source, f, driver, createdAt).value;
    ArchiveRoundTrip(sent);
    SanitizeAscii(LOGICAL_V1);
    ValidTexts(sent.migrations);
    var a := CleanArchive(sent);
    AcceptedIff(cat, wrote, source, rules, target, a, f);
    if Acceptable(cat, rules, target, a, f) {
      forall after | IsRestored(cat, target, after, a.tables, f) ensures Reproduces(cat, wrote, source, target, after) {
        RestoredReproduces(cat, wrote, source, target, a.tables, f, after);
      }
    }
  }

  lemma NamesOf(cat: Catalog, wrote: Catalog, source: Database, target: Database, a: Archive, f: Formats)
    requires Ready(cat, wrote, source, target, f) && ListsAll(wrote, source, a.tables, f)
    ensures Names(a) == wrote.tables
  {
    forall i | 0 <= i < |a.tables| ensures Names(a)[i] == wrote.tables[i] {
      TableAt(cat, wrote, source, target, a.tables, i, f);
      assert Names(a)[i] == NameOf(a.tables[i]);
    }
  }

  lemma AllGoInIff(cat: Catalog, wrote: Catalog, source: Database, target: Database, tables: seq<TableData>, f: Formats)
    requires Ready(cat, wrote, source, target, f) && ListsAll(wrote, source, tables, f)
    ensures AllGoIn(target, tables, f) <==> forall name :: name in wrote.tables ==> CommaFree(wrote, source, name)
  {
    forall i | 0 <= i < |tables| ensures InsertedRows(target, tables[i], f).Some? <==> CommaFree(wrote, source, wrote.tables[i]) {
      TableAt(cat, wrote, source, target, tables, i, f);
    }
    if AllGoIn(target, tables, f) {
      forall name | name in wrote.tables ensures CommaFree(wrote, source, name) {
        var i :| 0 <= i < |wrote.tables| && wrote.tables[i] == name;
        assert InsertedRows(target, tables[i], f).Some?;
      }
    }
    if forall name :: name in wrote.tables ==> CommaFree(wrote, source, name) {
      forall i | 0 <= i < |tables| ensures InsertedRows(target, tables[i], f).Some? {
        assert wrote.tables[i] in wrote.tables;
      }
    }
  }

  lemma AcceptedIff(cat: Catalog, wrote: Catalog, source: Database, rules: Rules, target: Database, a: Archive, f: Formats)
    requires Ready(cat, wrote, source, target, f) && ListsAll(wrote, source, a.tables, f)
    requires a.migrations == source.migrations
    ensures Acceptable(cat, rules, target, a, f) <==>
      (forall name :: name in wrote.tables ==> CommaFree(wrote, source, name)) && Permits(rules, cat, target, a.tables, f)
  {
    forall t | t in a.tables ensures SameColumns(cat, target, t) {
      var i :| 0 <= i < |a.tables| && a.tables[i] == t;
      TableAt(cat, wrote, source, target, a.tables, i, f);
    }
    NamesOf(cat, wrote, source, target, a, f);
    assert Validated(cat, target, a);
    AllGoInIff(cat, wrote, source, target, a.tables, f);
  }

  /** A cleared table named once holds that entry's rows and no others. */
  lemma RestoredOnce(cat: Catalog, db: Database, after: Database, tables: seq<TableData>, k: nat, f: Formats)
    requires IsRestored(cat, db, after, tables, f)
    requires k < |tables| && InsertedRows(db, tables[k], f).Some? && Cleared(cat, tables[k].name)
    requires forall i :: 0 <= i < |tables| && i != k ==> tables[i].name != tables[k].name
    ensures tables[k].name in after.tables && after.tables[tables[k].name].rows == InsertedRows(db, tables[k], f).value
  {
    AddedOnce(db, tables, k, f);
  }

  lemma NamesDiffer(cat: Catalog, wrote: Catalog, source: Database, target: Database, tables: seq<TableData>, i: nat, k: nat, f: Formats)
    requires Ready(cat, wrote, source, target, f) && ListsAll(wrote, source, tables, f)
    requires i < |tables| && k < |tables| && i != k
    ensures tables[i].name != tables[k].name
  {
    TableAt(cat, wrote, source, target, tables, i, f);
    TableAt(cat, wrote, source, target, tables, k, f);
  }

  lemma RestoredTable(cat: Catalog, wrote: Catalog, source: Database, target: Database, tables: seq<TableData>, i: nat, f: Formats,
                      after: Database)
    requires Ready(cat, wrote, source, target, f) && ListsAll(wrote, source, tables, f)
    requires AllGoIn(target, tables, f) && IsRestored(cat, target, after, tables, f) && i < |tables|
    ensures wrote.tables[i] in source.tables && wrote.tables[i] in after.tables
    ensures CarriesAll(Carrying(wrote, source, wrote.tables[i]), source.tables[wrote.tables[i]].rows, after.tables[wrote.tables[i]].rows)
  {
    TableAt(cat, wrote, source, target, tables, i, f);
    ReadyAt(cat, wrote, source, target, f, wrote.tables[i]);
    forall k | 0 <= k < |tables| && k != i ensures tables[k].name != tables[i].name {
      NamesDiffer(cat, wrote, source, target, tables, i, k, f);
    }
    RestoredOnce(cat, target, after, tables, i, f);
  }

  lemma RestoredReproduces(cat: Catalog, wrote: Catalog, source: Database, target: Database, tables: seq<TableData>, f: Formats, after: Database)
    requires Ready(cat, wrote, source, target, f) && ListsAll(wrote, source, tables, f)
    requires AllGoIn(target, tables, f) && IsRestored(cat, target, after, tables, f)
    ensures Reproduces(cat, wrote, source, target, after)
  {
    forall name | name in wrote.tables && name in source.tables && name in after.tables
      ensures CarriesAll(Carrying(wrote, source, name), source.tables[name].rows, after.tables[name].rows)
    {
      var i :| 0 <= i < |wrote.tables| && wrote.tables[i] == name;
      RestoredTable(cat, wrote, source, target, tables, i, f, after);
    }
    forall t | t in tables ensures t.name in wrote.tables {
      var i :| 0 <= i < |tables| && tables[i] == t;
      TableAt(cat, wrote, source, target, tables, i, f);
    }
    forall name | name in target.tables && name !in wrote.tables ensures Added(target, tables, name, f) == [] {
      AddedNothing(target, tables, name, f);
    }
  }

  /** Every name an accepted archive lists is one of the database's own tables. */
  lemma AcceptedNamesAreTables(cat: Catalog, rules: Rules, db: Database, a: Archive, f: Formats)
    requires Acceptable(cat, rules, db, a, f) && forall name :: name in db.tables ==> NEWLINE !in name
    ensures Free(Names(a), NEWLINE) && Free(cat.tables, NEWLINE)
  {
    forall i | 0 <= i < |Names(a)| ensures NEWLINE !in Names(a)[i] {
      assert a.tables[i] in a.tables && Names(a)[i] == NameOf(a.tables[i]);
      assert SameColumns(cat, db, a.tables[i]);
    }
    forall i | 0 <= i < |cat.tables| ensures NEWLINE !in cat.tables[i] {
      assert Cleared(cat, cat.tables[i]);
    }
  }

  /** Lists are compared as one text each. In a database none of whose own tables has a line
      break in its name that is as good as comparing the lists: an accepted archive has
      exactly one of the known ones. */
  lemma AcceptedTablesAreKnown(cat: Catalog, rules: Rules, db: Database, a: Archive, f: Formats)
    requires Acceptable(cat, rules, db, a, f) && forall name :: name in db.tables ==> NEWLINE !in name
    requires cat.tables != [] && cat.tables[0] != [] && forall o :: o in cat.omitted ==> cat.tables[0] !in o
    ensures Names(a) == cat.tables || exists o :: o in cat.omitted && Names(a) == Without(cat.tables, AsSet(o))
    ensures forall name :: name in cat.tables && name !in Names(a) ==> exists o :: o in cat.omitted && name in o
  {
    AcceptedNamesAreTables(cat, rules, db, a, f);
    var names := Names(a);
    if Join(names, NEWLINE) == Join(cat.tables, NEWLINE) {
      JoinInjective(names, cat.tables, NEWLINE);
    } else {
      var o :| o in cat.omitted && Join(names, NEWLINE) == Join(Without(cat.tables, AsSet(o)), NEWLINE);
      var kept := Without(cat.tables, AsSet(o));
      forall i | 0 <= i < |kept| ensures NEWLINE !in kept[i] {
        assert kept[i] in cat.tables;
      }
      JoinInjective(names, kept, NEWLINE);
    }
  }
}
