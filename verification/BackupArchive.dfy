/** What a logical backup carries: the archive, its JSON, and reading the JSON back. */
module BackupArchive {
  import opened Common
  import opened BackupText
  import opened BackupJson
  import opened BackupValues

  datatype TableData = TableData(name: Text, columnsCSV: Text, rows: seq<seq<Value>>)

  datatype Archive = Archive(format: Text, sourceDriver: Text, createdAt: Text, migrations: seq<Text>, tables: seq<TableData>)

  // ---- an archive as JSON ----

  const FORMAT := Ascii("Format")
  const SOURCE_DRIVER := Ascii("SourceDriver")
  const CREATED_AT := Ascii("CreatedAt")
  const MIGRATIONS := Ascii("Migrations")
  const TABLES := Ascii("Tables")
  const NAME := Ascii("Name")
  const COLUMNS_CSV := Ascii("ColumnsCSV")
  const ROWS := Ascii("Rows")
  const KIND := Ascii("Kind")
  const DATA := Ascii("Data")

  function Mapped<A, B>(items: seq<A>, f: A -> B): seq<B> {
    seq(|items|, i requires 0 <= i < |items| => f(items[i]))
  }

  function ValueJson(v: Value): Json {
    JObj([Member(KIND, JStr(v.kind)), Member(DATA, JStr(v.data))])
  }

  function TextJson(t: Text): Json { JStr(t) }

  function RowJson(row: seq<Value>): Json {
    JArr(Mapped(row, ValueJson))
  }

  function RowsJson(rows: seq<seq<Value>>): Json {
    JArr(Mapped(rows, RowJson))
  }

  function TableJson(t: TableData): Json {
    JObj([Member(NAME, JStr(t.name)), Member(COLUMNS_CSV, JStr(t.columnsCSV)), Member(ROWS, RowsJson(t.rows))])
  }

  function TextsJson(texts: seq<Text>): Json {
    JArr(Mapped(texts, TextJson))
  }

  function TablesJson(tables: seq<TableData>): Json {
    JArr(Mapped(tables, TableJson))
  }

  function ArchiveJson(a: Archive): Json {
    JObj([Member(FORMAT, JStr(a.format)), Member(SOURCE_DRIVER, JStr(a.sourceDriver)),
          Member(CREATED_AT, JStr(a.createdAt)),
          Member(MIGRATIONS, TextsJson(a.migrations)), Member(TABLES, TablesJson(a.tables))])
  }

  // ---- and back: fields by name, the last one winning, a missing one left empty ----

  function Field(members: seq<Member>, key: Text): Option<Json> {
    if members == [] then None
    else if members[|members| - 1].key == key then Some(members[|members| - 1].value)
    else Field(members[..|members| - 1], key)
  }

  function AsText(v: Option<Json>): Option<Text> {
    match v
    case None => Some([])
    case Some(JStr(t)) => Some(t)
    case Some(_) => None
  }

  function AsItems(v: Option<Json>): Option<seq<Json>> {
    match v
    case None => Some([])
    case Some(JArr(items)) => Some(items)
    case Some(_) => None
  }

  function ReadText(j: Json): Option<Text> { AsText(Some(j)) }

  /** Every item read by `f`, or nothing if one cannot be. */
  function Every<A, B>(items: seq<A>, f: A -> Option<B>): Option<seq<B>> {
    if items == [] then Some([])
    else
      match (f(items[0]), Every(items[1..], f))
      case (Some(x), Some(more)) => Some([x] + more)
      case _ => None
  }

  function ReadValue(j: Json): Option<Value> {
    if !j.JObj? then None
    else
      match (AsText(Field(j.members, KIND)), AsText(Field(j.members, DATA)))
      case (Some(kind), Some(data)) => Some(Value(kind, data))
      case _ => None
  }

  function ReadRow(j: Json): Option<seq<Value>> {
    if j.JArr? then Every(j.items, ReadValue) else None
  }

  function ReadRows(items: Option<seq<Json>>): Option<seq<seq<Value>>> {
    match items
    case None => None
    case Some(rows) => Every(rows, ReadRow)
  }

  function ReadTable(j: Json): Option<TableData> {
    if !j.JObj? then None
    else
      match (AsText(Field(j.members, NAME)), AsText(Field(j.members, COLUMNS_CSV)), ReadRows(AsItems(Field(j.members, ROWS))))
      case (Some(name), Some(csv), Some(rows)) => Some(TableData(name, csv, rows))
      case _ => None
  }

  function ReadTables(items: Option<seq<Json>>): Option<seq<TableData>> {
    match items
    case None => None
    case Some(tables) => Every(tables, ReadTable)
  }

  function ReadTexts(items: Option<seq<Json>>): Option<seq<Text>> {
    match items
    case None => None
    case Some(texts) => Every(texts, ReadText)
  }

  function ReadArchive(j: Json): Option<Archive> {
    if !j.JObj? then None
    else
      match (AsText(Field(j.members, FORMAT)), AsText(Field(j.members, SOURCE_DRIVER)), AsText(Field(j.members, CREATED_AT)),
             ReadTexts(AsItems(Field(j.members, MIGRATIONS))), ReadTables(AsItems(Field(j.members, TABLES))))
      case (Some(format), Some(driver), Some(created), Some(migrations), Some(tables)) =>
        Some(Archive(format, driver, created, migrations, tables))
      case _ => None
  }

  lemma {:induction false} FieldAt(members: seq<Member>, i: nat)
    requires i < |members|
    requires forall j :: i < j < |members| ==> members[j].key != members[i].key
    ensures Field(members, members[i].key) == Some(members[i].value)
    decreases |members|
  {
    if i < |members| - 1 {
      FieldAt(members[..|members| - 1], i);
    }
  }

  lemma {:induction false} EveryMapped<A, B>(items: seq<B>, make: B -> A, read: A -> Option<B>)
    requires forall x :: x in items ==> read(make(x)) == Some(x)
    ensures Every(Mapped(items, make), read) == Some(items)
  {
    if items != [] {
      EveryMapped(items[1..], make, read);
      assert Mapped(items, make)[1..] == Mapped(items[1..], make);
      assert items == [items[0]] + items[1..];
    }
  }

  lemma FieldNames()
    ensures FORMAT != SOURCE_DRIVER && FORMAT != CREATED_AT && FORMAT != MIGRATIONS && FORMAT != TABLES
    ensures SOURCE_DRIVER != CREATED_AT && SOURCE_DRIVER != MIGRATIONS && SOURCE_DRIVER != TABLES
    ensures CREATED_AT != MIGRATIONS && CREATED_AT != TABLES && MIGRATIONS != TABLES
    ensures NAME != COLUMNS_CSV && NAME != ROWS && COLUMNS_CSV != ROWS && KIND != DATA
  {
    assert FORMAT[0] == 0x46 && SOURCE_DRIVER[0] == 0x53 && CREATED_AT[0] == 0x43 && MIGRATIONS[0] == 0x4D && TABLES[0] == 0x54;
    assert NAME[0] == 0x4E && COLUMNS_CSV[0] == 0x43 && ROWS[0] == 0x52 && KIND[0] == 0x4B && DATA[0] == 0x44;
  }

  lemma ReadValueJson(v: Value)
    ensures ReadValue(ValueJson(v)) == Some(v)
  {
    FieldNames();
    FieldAt(ValueJson(v).members, 0);
    FieldAt(ValueJson(v).members, 1);
  }

  lemma ReadRowJson(row: seq<Value>)
    ensures ReadRow(RowJson(row)) == Some(row)
  {
    forall v | v in row ensures ReadValue(ValueJson(v)) == Some(v) {
      ReadValueJson(v);
    }
    EveryMapped(row, ValueJson, ReadValue);
  }

  lemma ReadTableJson(t: TableData)
    ensures ReadTable(TableJson(t)) == Some(t)
  {
    FieldNames();
    var members := TableJson(t).members;
    FieldAt(members, 0);
    FieldAt(members, 1);
    FieldAt(members, 2);
    forall r | r in t.rows ensures ReadRow(RowJson(r)) == Some(r) {
      ReadRowJson(r);
    }
    EveryMapped(t.rows, RowJson, ReadRow);
  }

  /** The JSON of an archive is read back as that archive. */
  lemma ReadArchiveJson(a: Archive)
    ensures ReadArchive(ArchiveJson(a)) == Some(a)
  {
    FieldNames();
    var members := ArchiveJson(a).members;
    FieldAt(members, 0);
    FieldAt(members, 1);
    FieldAt(members, 2);
    FieldAt(members, 3);
    FieldAt(members, 4);
    EveryMapped(a.migrations, TextJson, ReadText);
    forall t | t in a.tables ensures ReadTable(TableJson(t)) == Some(t) {
      ReadTableJson(t);
    }
    EveryMapped(a.tables, TableJson, ReadTable);
  }

  // ---- what printing and parsing does to an archive ----

  function CleanRow(row: seq<Value>): seq<Value> {
    Mapped(row, CleanValue)
  }

  function CleanTable(t: TableData): TableData {
    TableData(Sanitize(t.name), Sanitize(t.columnsCSV), Mapped(t.rows, CleanRow))
  }

  function CleanArchive(a: Archive): Archive {
    Archive(Sanitize(a.format), Sanitize(a.sourceDriver), Sanitize(a.createdAt),
            Mapped(a.migrations, Sanitize), Mapped(a.tables, CleanTable))
  }

  lemma CleanMapped<A>(items: seq<A>, make: A -> Json, clean: A -> A)
    requires forall x :: x in items ==> Clean(make(x)) == make(clean(x))
    ensures CleanItems(Mapped(items, make)) == Mapped(Mapped(items, clean), make)
  {
    CleanItemsAt(Mapped(items, make));
  }

  lemma {:induction false} CleanObject(members: seq<Member>, cleaned: seq<Member>)
    requires |cleaned| == |members|
    requires forall i :: 0 <= i < |members| ==> cleaned[i] == CleanMember(members[i])
    ensures CleanMembers(members) == cleaned
  {
    if members != [] {
      CleanObject(members[1..], cleaned[1..]);
    }
  }

  lemma CleanField(key: Text, value: Json, cleaned: Json)
    requires forall i :: 0 <= i < |key| ==> key[i] < 128
    requires Clean(value) == cleaned
    ensures CleanMember(Member(key, value)) == Member(key, cleaned)
  {
    SanitizeAscii(key);
  }

  lemma CleanText(key: Text, t: Text)
    requires forall i :: 0 <= i < |key| ==> key[i] < 128
    ensures CleanMember(Member(key, JStr(t))) == Member(key, JStr(Sanitize(t)))
  {
    CleanField(key, JStr(t), JStr(Sanitize(t)));
  }

  lemma CleanValueJson(v: Value)
    ensures Clean(ValueJson(v)) == ValueJson(CleanValue(v))
  {
    CleanText(KIND, v.kind);
    CleanText(DATA, v.data);
    CleanObject(ValueJson(v).members, ValueJson(CleanValue(v)).members);
  }

  lemma CleanRowJson(row: seq<Value>)
    ensures Clean(RowJson(row)) == RowJson(CleanRow(row))
  {
    forall v | v in row ensures Clean(ValueJson(v)) == ValueJson(CleanValue(v)) {
      CleanValueJson(v);
    }
    CleanMapped(row, ValueJson, CleanValue);
  }

  lemma CleanRowsJson(rows: seq<seq<Value>>)
    ensures Clean(RowsJson(rows)) == RowsJson(Mapped(rows, CleanRow))
  {
    forall r | r in rows ensures Clean(RowJson(r)) == RowJson(CleanRow(r)) {
      CleanRowJson(r);
    }
    CleanMapped(rows, RowJson, CleanRow);
  }

  /** An object is cleaned field by field. */
  lemma CleanThree(a: Member, b: Member, c: Member, a': Member, b': Member, c': Member)
    requires CleanMember(a) == a' && CleanMember(b) == b' && CleanMember(c) == c'
    ensures Clean(JObj([a, b, c])) == JObj([a', b', c'])
  {
    CleanObject([a, b, c], [a', b', c']);
  }

  lemma CleanFive(a: Member, b: Member, c: Member, d: Member, e: Member, a': Member, b': Member, c': Member, d': Member, e': Member)
    requires CleanMember(a) == a' && CleanMember(b) == b' && CleanMember(c) == c' && CleanMember(d) == d' && CleanMember(e) == e'
    ensures Clean(JObj([a, b, c, d, e])) == JObj([a', b', c', d', e'])
  {
    CleanObject([a, b, c, d, e], [a', b', c', d', e']);
  }

  lemma CleanTableJson(t: TableData)
    ensures Clean(TableJson(t)) == TableJson(CleanTable(t))
  {
    var u := CleanTable(t);
    CleanText(NAME, t.name);
    CleanText(COLUMNS_CSV, t.columnsCSV);
    CleanRowsJson(t.rows);
    CleanField(ROWS, RowsJson(t.rows), RowsJson(u.rows));
    CleanThree(Member(NAME, JStr(t.name)), Member(COLUMNS_CSV, JStr(t.columnsCSV)), Member(ROWS, RowsJson(t.rows)),
               Member(NAME, JStr(u.name)), Member(COLUMNS_CSV, JStr(u.columnsCSV)), Member(ROWS, RowsJson(u.rows)));
  }

  lemma CleanTextsJson(texts: seq<Text>)
    ensures Clean(TextsJson(texts)) == TextsJson(Mapped(texts, Sanitize))
  {
    CleanMapped(texts, TextJson, Sanitize);
  }

  lemma CleanTablesJson(tables: seq<TableData>)
    ensures Clean(TablesJson(tables)) == TablesJson(Mapped(tables, CleanTable))
  {
    forall t | t in tables ensures Clean(TableJson(t)) == TableJson(CleanTable(t)) {
      CleanTableJson(t);
    }
    CleanMapped(tables, TableJson, CleanTable);
  }

  lemma CleanArchiveJson(a: Archive)
    ensures Clean(ArchiveJson(a)) == ArchiveJson(CleanArchive(a))
  {
    var b := CleanArchive(a);
    CleanText(FORMAT, a.format);
    CleanText(SOURCE_DRIVER, a.sourceDriver);
    CleanText(CREATED_AT, a.createdAt);
    CleanTextsJson(a.migrations);
    CleanTablesJson(a.tables);
    CleanField(MIGRATIONS, TextsJson(a.migrations), TextsJson(b.migrations));
    CleanField(TABLES, TablesJson(a.tables), TablesJson(b.tables));
    CleanFive(Member(FORMAT, JStr(a.format)), Member(SOURCE_DRIVER, JStr(a.sourceDriver)), Member(CREATED_AT, JStr(a.createdAt)),
              Member(MIGRATIONS, TextsJson(a.migrations)), Member(TABLES, TablesJson(a.tables)),
              Member(FORMAT, JStr(b.format)), Member(SOURCE_DRIVER, JStr(b.sourceDriver)), Member(CREATED_AT, JStr(b.createdAt)),
              Member(MIGRATIONS, TextsJson(b.migrations)), Member(TABLES, TablesJson(b.tables)));
  }

  /** Parse a printed archive, read it, and it is the archive that was printed, each text
      in it sanitized. */
  lemma ArchiveRoundTrip(a: Archive)
    ensures ParseDocument(Print(ArchiveJson(a))) == Some(ArchiveJson(CleanArchive(a)))
    ensures ReadArchive(ArchiveJson(CleanArchive(a))) == Some(CleanArchive(a))
  {
    DocumentRoundTrip(ArchiveJson(a));
    CleanArchiveJson(a);
    ReadArchiveJson(CleanArchive(a));
  }
}
