/** The streaming printer that writes a backup's archive row by row, stopping at the first
    thing that goes wrong. */
module BackupPrinter {
  import opened Common
  import opened BackupText
  import opened Parts
  import opened BackupJson
  import opened BackupValues
  import opened BackupWriter
  import opened BackupArchive
  import opened BackupSnapshot

  // ---- texts ----

  function Quoted(key: Text): Text {
    [QUOTE] + key + [QUOTE]
  }

  predicate Plain(t: Text) {
    forall i :: 0 <= i < |t| ==> t[i] < 0x80 && EscapeLetter(t[i]).None? && !NeedsHex(t[i])
  }

  /** A plain key is printed as it stands. */
  lemma {:induction false} PlainKey(key: Text)
    requires Plain(key)
    ensures Escape(key) == key
    ensures JsonString(key) == Quoted(key)
  {
    if key != [] {
      PlainKey(key[1..]);
      assert key == [key[0]] + key[1..];
    }
  }

  function PrintAll(items: seq<Json>): (texts: seq<Text>)
    ensures |texts| == |items|
  {
    seq(|items|, i requires 0 <= i < |items| => Print(items[i]))
  }

  /** The items of an array are their texts with commas between. */
  lemma {:induction false} PrintItemsJoin(items: seq<Json>)
    ensures PrintItems(items) == Join(PrintAll(items), COMMA)
  {
    if |items| > 1 {
      PrintItemsJoin(items[1..]);
      assert PrintAll(items)[1..] == PrintAll(items[1..]);
    }
  }

  // ---- pieces ----

  datatype SnapshotError = Writing(error: WriteError) | Unsupported | NoSuchTable

  /** A text to print, and what stops the printer after it, if anything does. */
  datatype Piece = Piece(text: Text, fault: Option<SnapshotError>)

  function Whole(text: Text): Piece {
    Piece(text, None)
  }

  function Then(a: Piece, b: Piece): Piece {
    if a.fault.Some? then a else Piece(a.text + b.text, b.fault)
  }

  lemma ThenAssociates(a: Piece, b: Piece, c: Piece)
    ensures Then(a, Then(b, c)) == Then(Then(a, b), c)
  {
    assert a.text + (b.text + c.text) == a.text + b.text + c.text;
  }

  lemma NothingFirst(a: Piece)
    ensures Then(Whole([]), a) == a
  {
    assert [] + a.text == a.text;
  }

  /** Printing a piece took what was delivered from `before` to `after` and ended with `err`:
      an error of the writer after a prefix of the text, or the piece's own fault after all
      of it. */
  ghost predicate Delivered(limit: int, healthy: bool, before: Text, after: Text, piece: Piece, err: Option<SnapshotError>) {
    match err
    case None => piece.fault.None? && Emitted(limit, healthy, before, after, piece.text, None)
    case Some(Writing(e)) => Emitted(limit, healthy, before, after, piece.text, Some(e))
    case Some(_) => piece.fault == err && Emitted(limit, healthy, before, after, piece.text, None)
  }

  lemma DeliveredThen(limit: int, healthy: bool, a: Text, b: Text, c: Text, first: Piece, second: Piece, err: Option<SnapshotError>)
    requires Delivered(limit, healthy, a, b, first, None) && Delivered(limit, healthy, b, c, second, err)
    ensures Delivered(limit, healthy, a, c, Then(first, second), err)
  {
    EmittedThen(limit, healthy, a, b, c, first.text, second.text,
                if err.Some? && err.value.Writing? then Some(err.value.error) else None);
  }

  lemma DeliveredStop(limit: int, healthy: bool, a: Text, b: Text, first: Piece, second: Piece, err: Option<SnapshotError>)
    requires Delivered(limit, healthy, a, b, first, err) && err.Some?
    ensures Delivered(limit, healthy, a, b, Then(first, second), err)
  {
    if err.value.Writing? {
      EmittedStop(limit, healthy, a, b, first.text, second.text, Some(err.value.error));
    }
  }

  ghost predicate Printed(w: LimitWriter, before: Text, piece: Piece, err: Option<SnapshotError>)
    reads w.destination
  {
    Delivered(w.limit, w.destination.healthy, before, w.destination.data, piece, err)
  }

  /** The next piece of `total`: either it is printed, or the whole of it has stopped. */
  lemma Onward(w: LimitWriter, before: Text, middle: Text, done: Piece, piece: Piece, rest: Piece, total: Piece, err: Option<SnapshotError>)
    requires Delivered(w.limit, w.destination.healthy, before, middle, done, None) && Printed(w, middle, piece, err)
    requires total == Then(done, Then(piece, rest))
    ensures err.None? ==> Printed(w, before, Then(done, piece), None) && total == Then(Then(done, piece), rest)
    ensures err.Some? ==> Printed(w, before, total, err)
  {
    DeliveredThen(w.limit, w.destination.healthy, before, middle, w.destination.data, done, piece, err);
    ThenAssociates(done, piece, rest);
    if err.Some? {
      DeliveredStop(w.limit, w.destination.healthy, before, w.destination.data, Then(done, piece), rest, err);
    }
  }

  /** The last piece. */
  lemma AtLast(w: LimitWriter, before: Text, middle: Text, done: Piece, piece: Piece, err: Option<SnapshotError>)
    requires Delivered(w.limit, w.destination.healthy, before, middle, done, None) && Printed(w, middle, piece, err)
    ensures Printed(w, before, Then(done, piece), err)
  {
    DeliveredThen(w.limit, w.destination.healthy, before, middle, w.destination.data, done, piece, err);
  }

  method Put(w: LimitWriter, text: Text) returns (err: Option<SnapshotError>)
    requires w.Valid()
    modifies w`written, w.destination, w.scratch
    ensures w.Valid() && Printed(w, old(w.destination.data), Whole(text), err)
  {
    var _, e := w.WriteString(text);
    err := if e.None? then None else Some(Writing(e.value));
  }

  method PutString(w: LimitWriter, text: Text) returns (err: Option<SnapshotError>)
    requires w.Valid()
    modifies w`written, w.destination, w.scratch
    ensures w.Valid() && Printed(w, old(w.destination.data), Whole(JsonString(text)), err)
  {
    var e := w.WriteJSONString(text);
    err := if e.None? then None else Some(Writing(e.value));
  }

  // ---- lists ----

  function Sep(first: bool): Text {
    if first then [] else [COMMA]
  }

  /** The pieces of a list; what each of them is may depend on its being the first. */
  function Items<A>(items: seq<A>, piece: (A, bool) -> Piece, first: bool): Piece {
    if items == [] then Whole([]) else Then(piece(items[0], first), Items(items[1..], piece, false))
  }

  /** The next item of a list that `close` follows. */
  lemma ListOnward<A>(w: LimitWriter, before: Text, middle: Text, done: Piece, items: seq<A>, piece: (A, bool) -> Piece, i: nat,
                      close: Piece, total: Piece, err: Option<SnapshotError>)
    requires i < |items|
    requires Delivered(w.limit, w.destination.healthy, before, middle, done, None) && Printed(w, middle, piece(items[i], i == 0), err)
    requires total == Then(done, Then(Items(items[i..], piece, i == 0), close))
    ensures err.None? ==>
      && Printed(w, before, Then(done, piece(items[i], i == 0)), None)
      && total == Then(Then(done, piece(items[i], i == 0)), Then(Items(items[i + 1..], piece, false), close))
    ensures err.Some? ==> Printed(w, before, total, err)
  {
    var next, rest := piece(items[i], i == 0), Items(items[i + 1..], piece, false);
    assert items[i..][1..] == items[i + 1..];
    ThenAssociates(next, rest, close);
    Onward(w, before, middle, done, next, Then(rest, close), total, err);
  }

  lemma ListStarts<A>(done: Piece, items: seq<A>, piece: (A, bool) -> Piece, close: Piece)
    ensures Then(done, Then(Items(items[0..], piece, true), close)) == Then(done, Then(Items(items, piece, true), close))
  {
    assert items[0..] == items;
  }

  lemma ListEnds<A>(done: Piece, items: seq<A>, piece: (A, bool) -> Piece, first: bool, close: Piece)
    ensures Then(done, Then(Items(items[|items|..], piece, first), close)) == Then(done, close)
  {
    NothingFirst(close);
  }

  /** When every item comes to a text, the list comes to those texts with commas between, and
      otherwise it has a fault. */
  lemma {:induction false} ItemsJoin<A>(items: seq<A>, piece: (A, bool) -> Piece, text: A -> Option<Text>, first: bool)
    requires forall x, b :: x in items ==>
      match text(x) case None => piece(x, b).fault.Some? case Some(t) => piece(x, b) == Whole(Sep(b) + t)
    ensures match Every(items, text)
            case None => Items(items, piece, first).fault.Some?
            case Some(texts) => Items(items, piece, first) == Whole(if items == [] then [] else Sep(first) + Join(texts, COMMA))
  {
    if items != [] {
      assert items[0] in items;
      assert forall x :: x in items[1..] ==> x in items;
      ItemsJoin(items[1..], piece, text, false);
      if text(items[0]).Some? && Every(items[1..], text).Some? {
        EveryIs(items[1..], text);
        JoinStep(Sep(first), text(items[0]).value, Every(items[1..], text).value);
      }
    }
  }

  lemma JoinStep(before: Text, text: Text, more: seq<Text>)
    ensures before + text + (if more == [] then [] else [COMMA] + Join(more, COMMA)) == before + Join([text] + more, COMMA)
  {
    assert ([text] + more)[1..] == more;
    if more != [] {
      assert before + text + ([COMMA] + Join(more, COMMA)) == before + (text + [COMMA] + Join(more, COMMA));
    }
  }

  // ---- a value ----

  function KeyText(key: Text): Text {
    Quoted(key) + [COLON]
  }

  lemma PrintOneMember(a: Member)
    ensures PrintMembers([a]) == PrintMember(a)
  {
  }

  lemma PrintMoreMembers(a: Member, more: seq<Member>)
    requires more != []
    ensures PrintMembers([a] + more) == PrintMember(a) + [COMMA] + PrintMembers(more)
  {
    assert ([a] + more)[1..] == more;
  }

  predicate Letters(s: string) {
    forall i :: 0 <= i < |s| ==> 'A' <= s[i] <= 'Z' || 'a' <= s[i] <= 'z'
  }

  lemma LettersArePlain(s: string)
    requires Letters(s)
    ensures Plain(Ascii(s))
  {
  }

  lemma KeysArePlain()
    ensures Plain(FORMAT) && Plain(SOURCE_DRIVER) && Plain(CREATED_AT) && Plain(MIGRATIONS) && Plain(TABLES)
    ensures Plain(NAME) && Plain(COLUMNS_CSV) && Plain(ROWS) && Plain(KIND) && Plain(DATA)
  {
    LettersArePlain("Format");
    LettersArePlain("SourceDriver");
    LettersArePlain("CreatedAt");
    LettersArePlain("Migrations");
    LettersArePlain("Tables");
    LettersArePlain("Name");
    LettersArePlain("ColumnsCSV");
    LettersArePlain("Rows");
    LettersArePlain("Kind");
    LettersArePlain("Data");
  }

  lemma MemberText(key: Text, value: Json)
    requires Plain(key)
    ensures PrintMember(Member(key, value)) == KeyText(key) + Print(value)
  {
    PlainKey(key);
  }

  /** The value object, piece by piece as it is written. */
  lemma ValueText(v: Value)
    ensures Print(ValueJson(v)) ==
      [LBRACE] + KeyText(KIND) + JsonString(v.kind) + ([COMMA] + KeyText(DATA)) + JsonString(v.data) + [RBRACE]
  {
    var a, b := Member(KIND, JStr(v.kind)), Member(DATA, JStr(v.data));
    KeysArePlain();
    MemberText(KIND, JStr(v.kind));
    MemberText(DATA, JStr(v.data));
    PrintOneMember(b);
    PrintMoreMembers(a, [b]);
    assert [a] + [b] == [a, b];
    Braces(KeyText(KIND), JsonString(v.kind), KeyText(DATA), JsonString(v.data));
  }

  lemma Braces(k: Text, x: Text, l: Text, y: Text)
    ensures [LBRACE] + (k + x + [COMMA] + (l + y)) + [RBRACE] == [LBRACE] + k + x + ([COMMA] + l) + y + [RBRACE]
  {
  }

  /** A text, a JSON string, a text, a JSON string, a text. */
  function Alternating(p: Text, x: Text, q: Text, y: Text, r: Text): Piece {
    Then(Whole(p), Then(Whole(JsonString(x)), Then(Whole(q), Then(Whole(JsonString(y)), Whole(r)))))
  }

  lemma AlternatingText(p: Text, x: Text, q: Text, y: Text, r: Text)
    ensures Alternating(p, x, q, y, r) == Whole(p + JsonString(x) + q + JsonString(y) + r)
  {
    assert p + (JsonString(x) + (q + (JsonString(y) + r))) == p + JsonString(x) + q + JsonString(y) + r;
  }

  method WriteAlternating(w: LimitWriter, p: Text, x: Text, q: Text, y: Text, r: Text) returns (err: Option<SnapshotError>)
    requires w.Valid()
    modifies w`written, w.destination, w.scratch
    ensures w.Valid() && Printed(w, old(w.destination.data), Alternating(p, x, q, y, r), err)
  {
    ghost var before, total := w.destination.data, Alternating(p, x, q, y, r);
    err := Put(w, p);
    if err.Some? {
      DeliveredStop(w.limit, w.destination.healthy, before, w.destination.data, Whole(p),
                    Then(Whole(JsonString(x)), Then(Whole(q), Then(Whole(JsonString(y)), Whole(r)))), err);
      return;
    }
    ghost var done, middle := Whole(p), w.destination.data;
    err := PutString(w, x);
    Onward(w, before, middle, done, Whole(JsonString(x)), Then(Whole(q), Then(Whole(JsonString(y)), Whole(r))), total, err);
    if err.Some? { return; }
    done, middle := Then(done, Whole(JsonString(x))), w.destination.data;
    err := Put(w, q);
    Onward(w, before, middle, done, Whole(q), Then(Whole(JsonString(y)), Whole(r)), total, err);
    if err.Some? { return; }
    done, middle := Then(done, Whole(q)), w.destination.data;
    err := PutString(w, y);
    Onward(w, before, middle, done, Whole(JsonString(y)), Whole(r), total, err);
    if err.Some? { return; }
    done, middle := Then(done, Whole(JsonString(y))), w.destination.data;
    err := Put(w, r);
    AtLast(w, before, middle, done, Whole(r), err);
  }

  method WriteSnapshotValue(w: LimitWriter, v: Value) returns (err: Option<SnapshotError>)
    requires w.Valid()
    modifies w`written, w.destination, w.scratch
    ensures w.Valid() && Printed(w, old(w.destination.data), Whole(Print(ValueJson(v))), err)
  {
    ValueText(v);
    AlternatingText([LBRACE] + KeyText(KIND), v.kind, [COMMA] + KeyText(DATA), v.data, [RBRACE]);
    err := WriteAlternating(w, [LBRACE] + KeyText(KIND), v.kind, [COMMA] + KeyText(DATA), v.data, [RBRACE]);
  }

  // ---- a row ----

  /** The texts of a row's cells, if all of them can be encoded. */
  function CellText(f: Formats): SqlValue -> Option<Text> {
    v => match EncodeValue(v, f) case None => None case Some(e) => Some(Print(ValueJson(e)))
  }

  function CellPiece(v: SqlValue, first: bool, f: Formats): Piece {
    match EncodeValue(v, f)
    case None => Piece(Sep(first), Some(Unsupported))
    case Some(e) => Whole(Sep(first) + Print(ValueJson(e)))
  }

  function OfCells(f: Formats): (SqlValue, bool) -> Piece {
    (v, first) => CellPiece(v, first, f)
  }

  function RowPiece(cells: seq<SqlValue>, f: Formats): Piece {
    Then(Whole([LBRACKET]), Then(Items(cells, OfCells(f), true), Whole([RBRACKET])))
  }

  /** The comma before every item but the first. */
  method Comma(w: LimitWriter, first: bool) returns (err: Option<SnapshotError>)
    requires w.Valid()
    modifies w`written, w.destination, w.scratch
    ensures w.Valid() && Printed(w, old(w.destination.data), Whole(Sep(first)), err)
  {
    err := Put(w, Sep(first));
  }

  method NextCell(w: LimitWriter, cell: SqlValue, f: Formats, first: bool) returns (err: Option<SnapshotError>)
    requires w.Valid()
    modifies w`written, w.destination, w.scratch
    ensures w.Valid() && Printed(w, old(w.destination.data), CellPiece(cell, first, f), err)
  {
    ghost var before := w.destination.data;
    err := Comma(w, first);
    if err.Some? {
      DeliveredStop(w.limit, w.destination.healthy, before, w.destination.data, Whole(Sep(first)),
                    Piece(if EncodeValue(cell, f).Some? then Print(ValueJson(EncodeValue(cell, f).value)) else [],
                          if EncodeValue(cell, f).Some? then None else Some(Unsupported)), err);
      assert Sep(first) + [] == Sep(first);
      return;
    }
    var encoded := EncodeValue(cell, f);
    if encoded.None? {
      return Some(Unsupported);
    }
    ghost var middle := w.destination.data;
    err := WriteSnapshotValue(w, encoded.value);
    AtLast(w, before, middle, Whole(Sep(first)), Whole(Print(ValueJson(encoded.value))), err);
  }

  method WriteRow(w: LimitWriter, cells: seq<SqlValue>, f: Formats) returns (err: Option<SnapshotError>)
    requires w.Valid()
    modifies w`written, w.destination, w.scratch
    ensures w.Valid() && Printed(w, old(w.destination.data), RowPiece(cells, f), err)
  {
    ghost var before, total, close := w.destination.data, RowPiece(cells, f), Whole([RBRACKET]);
    err := Put(w, [LBRACKET]);
    if err.Some? {
      DeliveredStop(w.limit, w.destination.healthy, before, w.destination.data, Whole([LBRACKET]),
                    Then(Items(cells, OfCells(f), true), close), err);
      return;
    }
    ghost var done := Whole([LBRACKET]);
    ListStarts(done, cells, OfCells(f), close);
    var i := 0;
    while i < |cells|
      invariant 0 <= i <= |cells|
      invariant w.Valid() && Printed(w, before, done, None)
      invariant total == Then(done, Then(Items(cells[i..], OfCells(f), i == 0), close))
    {
      ghost var middle := w.destination.data;
      err := NextCell(w, cells[i], f, i == 0);
      ListOnward(w, before, middle, done, cells, OfCells(f), i, close, total, err);
      if err.Some? { return; }
      done := Then(done, CellPiece(cells[i], i == 0, f));
      i := i + 1;
    }
    ListEnds(done, cells, OfCells(f), i == 0, close);
    ghost var middle := w.destination.data;
    err := Put(w, [RBRACKET]);
    AtLast(w, before, middle, done, close, err);
  }

  // ---- a table ----

  /** The texts of the rows of a table, if every cell of every row can be encoded. */
  function RowText(columns: seq<Text>, f: Formats): Row -> Option<Text> {
    row =>
      match Every(Cells(row, columns), CellText(f))
      case None => None
      case Some(texts) => Some([LBRACKET] + Join(texts, COMMA) + [RBRACKET])
  }

  function TableHead(name: Text, csv: Text): Text {
    [LBRACE] + KeyText(NAME) + JsonString(name) + ([COMMA] + KeyText(COLUMNS_CSV)) + JsonString(csv)
    + ([COMMA] + KeyText(ROWS) + [LBRACKET])
  }

  const TABLE_END: Text := [RBRACKET, RBRACE]

  function OfRows(columns: seq<Text>, f: Formats): (Row, bool) -> Piece {
    (row, first) => Then(Whole(Sep(first)), RowPiece(Cells(row, columns), f))
  }

  function TablePiece(cat: Catalog, table: Table, name: Text, f: Formats): Piece {
    var columns := CarriedColumns(cat, name, table.columns);
    Then(Whole(TableHead(name, Join(columns, COMMA))), Then(Items(table.rows, OfRows(columns, f), true), Whole(TABLE_END)))
  }

  method NextRow(w: LimitWriter, columns: seq<Text>, row: Row, f: Formats, first: bool) returns (err: Option<SnapshotError>)
    requires w.Valid()
    modifies w`written, w.destination, w.scratch
    ensures w.Valid() && Printed(w, old(w.destination.data), OfRows(columns, f)(row, first), err)
  {
    ghost var before := w.destination.data;
    err := Comma(w, first);
    if err.Some? {
      DeliveredStop(w.limit, w.destination.healthy, before, w.destination.data, Whole(Sep(first)), RowPiece(Cells(row, columns), f), err);
      return;
    }
    ghost var middle := w.destination.data;
    err := WriteRow(w, Cells(row, columns), f);
    AtLast(w, before, middle, Whole(Sep(first)), RowPiece(Cells(row, columns), f), err);
  }

  /** The name, the columns, and the start of the rows. */
  method WriteTableHead(w: LimitWriter, name: Text, csv: Text) returns (err: Option<SnapshotError>)
    requires w.Valid()
    modifies w`written, w.destination, w.scratch
    ensures w.Valid() && Printed(w, old(w.destination.data), Whole(TableHead(name, csv)), err)
  {
    var key, rows := [COMMA] + KeyText(COLUMNS_CSV), [COMMA] + KeyText(ROWS) + [LBRACKET];
    AlternatingText([LBRACE] + KeyText(NAME), name, key, csv, rows);
    err := WriteAlternating(w, [LBRACE] + KeyText(NAME), name, key, csv, rows);
  }

  method WriteTable(w: LimitWriter, cat: Catalog, table: Table, name: Text, f: Formats) returns (err: Option<SnapshotError>)
    requires w.Valid()
    modifies w`written, w.destination, w.scratch
    ensures w.Valid() && Printed(w, old(w.destination.data), TablePiece(cat, table, name, f), err)
  {
    var columns, rows := CarriedColumns(cat, name, table.columns), table.rows;
    ghost var before, total, close := w.destination.data, TablePiece(cat, table, name, f), Whole(TABLE_END);
    ghost var done := Whole(TableHead(name, Join(columns, COMMA)));
    err := WriteTableHead(w, name, Join(columns, COMMA));
    if err.Some? {
      DeliveredStop(w.limit, w.destination.healthy, before, w.destination.data, done, Then(Items(rows, OfRows(columns, f), true), close), err);
      return;
    }
    ListStarts(done, rows, OfRows(columns, f), close);
    var i := 0;
    while i < |rows|
      invariant 0 <= i <= |rows|
      invariant w.Valid() && Printed(w, before, done, None)
      invariant total == Then(done, Then(Items(rows[i..], OfRows(columns, f), i == 0), close))
    {
      ghost var middle := w.destination.data;
      err := NextRow(w, columns, rows[i], f, i == 0);
      ListOnward(w, before, middle, done, rows, OfRows(columns, f), i, close, total, err);
      if err.Some? { return; }
      done := Then(done, OfRows(columns, f)(rows[i], i == 0));
      i := i + 1;
    }
    ListEnds(done, rows, OfRows(columns, f), i == 0, close);
    ghost var middle := w.destination.data;
    err := Put(w, TABLE_END);
    AtLast(w, before, middle, done, close, err);
  }

  function TableObjectText(cat: Catalog, db: Database, f: Formats, name: Text): Option<Text> {
    if name !in db.tables then None
    else
      var columns := CarriedColumns(cat, name, db.tables[name].columns);
      match Every(db.tables[name].rows, RowText(columns, f))
      case None => None
      case Some(rows) => Some(TableHead(name, Join(columns, COMMA)) + Join(rows, COMMA) + TABLE_END)
  }

  function TableText(cat: Catalog, db: Database, f: Formats): Text -> Option<Text> {
    name => TableObjectText(cat, db, f, name)
  }

  // ---- the whole archive ----

  function PrintText(t: Text): Text { JsonString(t) }

  const MIDDLE: Text := [RBRACKET] + ([COMMA] + KeyText(TABLES) + [LBRACKET])

  function ArchiveHead(driver: Text, createdAt: Text): Text {
    [LBRACE] + KeyText(FORMAT) + JsonString(LOGICAL_V1) + ([COMMA] + KeyText(SOURCE_DRIVER)) + JsonString(driver)
    + ([COMMA] + KeyText(CREATED_AT)) + JsonString(createdAt) + ([COMMA] + KeyText(MIGRATIONS) + [LBRACKET])
  }

  function ArchiveText(cat: Catalog, db: Database, f: Formats, driver: Text, createdAt: Text): Option<Text> {
    match Every(cat.tables, TableText(cat, db, f))
    case None => None
    case Some(tables) =>
      Some(ArchiveHead(driver, createdAt) + Join(Mapped(db.migrations, PrintText), COMMA) + MIDDLE + Join(tables, COMMA) + TABLE_END)
  }

  function OfMigrations(): (Text, bool) -> Piece {
    (version, first) => Whole(Sep(first) + PrintText(version))
  }

  /** A table that is not there is found out before its comma. */
  function OfTables(cat: Catalog, db: Database, f: Formats): (Text, bool) -> Piece {
    (name, first) =>
      if name !in db.tables then Piece([], Some(NoSuchTable))
      else Then(Whole(Sep(first)), TablePiece(cat, db.tables[name], name, f))
  }

  function TablesPiece(cat: Catalog, db: Database, f: Formats): Piece {
    Then(Items(cat.tables, OfTables(cat, db, f), true), Whole(TABLE_END))
  }

  /** Everything in its order, up to the first thing that cannot be printed. */
  function SnapshotPiece(cat: Catalog, db: Database, f: Formats, driver: Text, createdAt: Text): Piece {
    Then(Whole(ArchiveHead(driver, createdAt)),
         Then(Items(db.migrations, OfMigrations(), true), Then(Whole(MIDDLE), TablesPiece(cat, db, f))))
  }

  /** The fields before the lists. */
  method WriteHead(w: LimitWriter, driver: Text, createdAt: Text) returns (err: Option<SnapshotError>)
    requires w.Valid()
    modifies w`written, w.destination, w.scratch
    ensures w.Valid() && Printed(w, old(w.destination.data), Whole(ArchiveHead(driver, createdAt)), err)
  {
    ghost var before := w.destination.data;
    var p, q, r := [LBRACE] + KeyText(FORMAT), [COMMA] + KeyText(SOURCE_DRIVER), [COMMA] + KeyText(CREATED_AT);
    var s := [COMMA] + KeyText(MIGRATIONS) + [LBRACKET];
    ghost var front := p + JsonString(LOGICAL_V1) + q + JsonString(driver) + r;
    ghost var total := Then(Whole(front), Then(Whole(JsonString(createdAt)), Whole(s)));
    assert front + (JsonString(createdAt) + s) == ArchiveHead(driver, createdAt);
    AlternatingText(p, LOGICAL_V1, q, driver, r);
    err := WriteAlternating(w, p, LOGICAL_V1, q, driver, r);
    if err.Some? {
      DeliveredStop(w.limit, w.destination.healthy, before, w.destination.data, Whole(front), Then(Whole(JsonString(createdAt)), Whole(s)), err);
      return;
    }
    ghost var middle := w.destination.data;
    err := PutString(w, createdAt);
    Onward(w, before, middle, Whole(front), Whole(JsonString(createdAt)), Whole(s), total, err);
    if err.Some? { return; }
    middle := w.destination.data;
    err := Put(w, s);
    AtLast(w, before, middle, Then(Whole(front), Whole(JsonString(createdAt))), Whole(s), err);
  }

  method NextMigration(w: LimitWriter, version: Text, first: bool) returns (err: Option<SnapshotError>)
    requires w.Valid()
    modifies w`written, w.destination, w.scratch
    ensures w.Valid() && Printed(w, old(w.destination.data), OfMigrations()(version, first), err)
  {
    ghost var before := w.destination.data;
    err := Comma(w, first);
    if err.Some? {
      DeliveredStop(w.limit, w.destination.healthy, before, w.destination.data, Whole(Sep(first)), Whole(PrintText(version)), err);
      return;
    }
    ghost var middle := w.destination.data;
    err := PutString(w, version);
    AtLast(w, before, middle, Whole(Sep(first)), Whole(PrintText(version)), err);
  }

  /** The list of migrations, which `close` follows; `after` is what has been printed. */
  method WriteMigrations(w: LimitWriter, ghost before: Text, ghost head: Piece, migrations: seq<Text>, ghost close: Piece)
    returns (err: Option<SnapshotError>, ghost after: Piece)
    requires w.Valid() && Printed(w, before, head, None)
    modifies w`written, w.destination, w.scratch
    ensures w.Valid()
    ensures err.None? ==>
      Printed(w, before, after, None) && Then(head, Then(Items(migrations, OfMigrations(), true), close)) == Then(after, close)
    ensures err.Some? ==> Printed(w, before, Then(head, Then(Items(migrations, OfMigrations(), true), close)), err)
  {
    ghost var total := Then(head, Then(Items(migrations, OfMigrations(), true), close));
    after := head;
    ListStarts(head, migrations, OfMigrations(), close);
    var i := 0;
    while i < |migrations|
      invariant 0 <= i <= |migrations|
      invariant w.Valid() && Printed(w, before, after, None)
      invariant total == Then(after, Then(Items(migrations[i..], OfMigrations(), i == 0), close))
    {
      ghost var middle := w.destination.data;
      err := NextMigration(w, migrations[i], i == 0);
      ListOnward(w, before, middle, after, migrations, OfMigrations(), i, close, total, err);
      if err.Some? { return; }
      after := Then(after, OfMigrations()(migrations[i], i == 0));
      i := i + 1;
    }
    ListEnds(after, migrations, OfMigrations(), i == 0, close);
    err := None;
  }

  method NextTable(w: LimitWriter, cat: Catalog, db: Database, name: Text, f: Formats, first: bool) returns (err: Option<SnapshotError>)
    requires w.Valid()
    modifies w`written, w.destination, w.scratch
    ensures w.Valid() && Printed(w, old(w.destination.data), OfTables(cat, db, f)(name, first), err)
  {
    ghost var before := w.destination.data;
    if name !in db.tables {
      return Some(NoSuchTable);
    }
    ghost var piece := TablePiece(cat, db.tables[name], name, f);
    err := Comma(w, first);
    if err.Some? {
      DeliveredStop(w.limit, w.destination.healthy, before, w.destination.data, Whole(Sep(first)), piece, err);
      return;
    }
    ghost var middle := w.destination.data;
    err := WriteTable(w, cat, db.tables[name], name, f);
    AtLast(w, before, middle, Whole(Sep(first)), piece, err);
  }

  /** The tables, in the order of the program's list, and the end. */
  method WriteTables(w: LimitWriter, ghost before: Text, ghost head: Piece, cat: Catalog, db: Database, f: Formats)
    returns (err: Option<SnapshotError>)
    requires w.Valid() && Printed(w, before, head, None)
    modifies w`written, w.destination, w.scratch
    ensures w.Valid() && Printed(w, before, Then(head, TablesPiece(cat, db, f)), err)
  {
    ghost var total, close, done := Then(head, TablesPiece(cat, db, f)), Whole(TABLE_END), head;
    ListStarts(head, cat.tables, OfTables(cat, db, f), close);
    var i := 0;
    while i < |cat.tables|
      invariant 0 <= i <= |cat.tables|
      invariant w.Valid() && Printed(w, before, done, None)
      invariant total == Then(done, Then(Items(cat.tables[i..], OfTables(cat, db, f), i == 0), close))
    {
      ghost var middle := w.destination.data;
      err := NextTable(w, cat, db, cat.tables[i], f, i == 0);
      ListOnward(w, before, middle, done, cat.tables, OfTables(cat, db, f), i, close, total, err);
      if err.Some? { return; }
      done := Then(done, OfTables(cat, db, f)(cat.tables[i], i == 0));
      i := i + 1;
    }
    ListEnds(done, cat.tables, OfTables(cat, db, f), i == 0, close);
    ghost var middle := w.destination.data;
    err := Put(w, TABLE_END);
    AtLast(w, before, middle, done, close, err);
  }

  /** The streaming printer writes the JSON of the archive, when there is one, within the
      limit; when there is none it writes everything before the first value that has no
      encoding, or the first table that is not there, and says which of the two it was. In
      either case an error of the writer may come first, after a prefix of that text. */
  method WriteSnapshot(w: LimitWriter, cat: Catalog, db: Database, f: Formats, driver: Text, createdAt: Text)
    returns (err: Option<SnapshotError>)
    requires w.Valid()
    modifies w`written, w.destination, w.scratch
    ensures w.Valid() && Printed(w, old(w.destination.data), SnapshotPiece(cat, db, f, driver, createdAt), err)
    ensures var a := Snapshot(cat, db, f, driver, createdAt);
            if a.Some? then Printed(w, old(w.destination.data), Whole(Print(ArchiveJson(a.value))), err) else err.Some?
  {
    SnapshotPieceIs(cat, db, f, driver, createdAt);
    ghost var before, head := w.destination.data, Whole(ArchiveHead(driver, createdAt));
    ghost var close := Then(Whole(MIDDLE), TablesPiece(cat, db, f));
    err := WriteHead(w, driver, createdAt);
    if err.Some? {
      DeliveredStop(w.limit, w.destination.healthy, before, w.destination.data, head, Then(Items(db.migrations, OfMigrations(), true), close), err);
      return;
    }
    ghost var after;
    err, after := WriteMigrations(w, before, head, db.migrations, close);
    if err.Some? { return; }
    ghost var middle := w.destination.data;
    err := Put(w, MIDDLE);
    Onward(w, before, middle, after, Whole(MIDDLE), TablesPiece(cat, db, f), Then(after, close), err);
    if err.Some? { return; }
    err := WriteTables(w, before, Then(after, Whole(MIDDLE)), cat, db, f);
  }

  // ---- the pieces are the texts ----

  lemma RowPieceIs(columns: seq<Text>, f: Formats, row: Row)
    ensures match RowText(columns, f)(row)
            case None => RowPiece(Cells(row, columns), f).fault.Some?
            case Some(t) => RowPiece(Cells(row, columns), f) == Whole(t)
  {
    var cells := Cells(row, columns);
    ItemsJoin(cells, OfCells(f), CellText(f), true);
    EveryIs(cells, CellText(f));
    if Every(cells, CellText(f)).Some? {
      Bracketed([LBRACKET], Every(cells, CellText(f)).value, [RBRACKET]);
    }
  }

  lemma Bracketed(head: Text, texts: seq<Text>, tail: Text)
    ensures Then(Whole(head), Then(Whole(if texts == [] then [] else [] + Join(texts, COMMA)), Whole(tail)))
            == Whole(head + Join(texts, COMMA) + tail)
  {
    assert [] + Join(texts, COMMA) == Join(texts, COMMA);
    assert head + (Join(texts, COMMA) + tail) == head + Join(texts, COMMA) + tail;
  }

  lemma OfRowsIs(columns: seq<Text>, f: Formats, row: Row, first: bool)
    ensures match RowText(columns, f)(row)
            case None => OfRows(columns, f)(row, first).fault.Some?
            case Some(t) => OfRows(columns, f)(row, first) == Whole(Sep(first) + t)
  {
    RowPieceIs(columns, f, row);
  }

  lemma TablePieceIs(cat: Catalog, db: Database, f: Formats, name: Text)
    requires name in db.tables
    ensures match TableObjectText(cat, db, f, name)
            case None => TablePiece(cat, db.tables[name], name, f).fault.Some?
            case Some(t) => TablePiece(cat, db.tables[name], name, f) == Whole(t)
  {
    var columns, rows := CarriedColumns(cat, name, db.tables[name].columns), db.tables[name].rows;
    forall row, first | row in rows
      ensures match RowText(columns, f)(row)
              case None => OfRows(columns, f)(row, first).fault.Some?
              case Some(t) => OfRows(columns, f)(row, first) == Whole(Sep(first) + t)
    {
      OfRowsIs(columns, f, row, first);
    }
    ItemsJoin(rows, OfRows(columns, f), RowText(columns, f), true);
    EveryIs(rows, RowText(columns, f));
    if Every(rows, RowText(columns, f)).Some? {
      Bracketed(TableHead(name, Join(columns, COMMA)), Every(rows, RowText(columns, f)).value, TABLE_END);
    }
  }

  lemma OfTablesIs(cat: Catalog, db: Database, f: Formats, name: Text, first: bool)
    ensures match TableText(cat, db, f)(name)
            case None => OfTables(cat, db, f)(name, first).fault.Some?
            case Some(t) => OfTables(cat, db, f)(name, first) == Whole(Sep(first) + t)
  {
    if name in db.tables {
      TablePieceIs(cat, db, f, name);
    }
  }

  lemma TablesPieceIs(cat: Catalog, db: Database, f: Formats)
    ensures match Every(cat.tables, TableText(cat, db, f))
            case None => TablesPiece(cat, db, f).fault.Some?
            case Some(texts) => TablesPiece(cat, db, f) == Whole(Join(texts, COMMA) + TABLE_END)
  {
    forall name, first | name in cat.tables
      ensures match TableText(cat, db, f)(name)
              case None => OfTables(cat, db, f)(name, first).fault.Some?
              case Some(t) => OfTables(cat, db, f)(name, first) == Whole(Sep(first) + t)
    {
      OfTablesIs(cat, db, f, name, first);
    }
    ItemsJoin(cat.tables, OfTables(cat, db, f), TableText(cat, db, f), true);
    EveryIs(cat.tables, TableText(cat, db, f));
    if Every(cat.tables, TableText(cat, db, f)).Some? {
      Bracketed([], Every(cat.tables, TableText(cat, db, f)).value, TABLE_END);
      NothingFirst(TablesPiece(cat, db, f));
    }
  }

  lemma {:induction false} MigrationsPieceIs(migrations: seq<Text>, first: bool)
    ensures Items(migrations, OfMigrations(), first)
            == Whole(if migrations == [] then [] else Sep(first) + Join(Mapped(migrations, PrintText), COMMA))
  {
    if migrations != [] {
      MigrationsPieceIs(migrations[1..], false);
      var more := Mapped(migrations[1..], PrintText);
      assert Mapped(migrations, PrintText) == [PrintText(migrations[0])] + more;
      JoinStep(Sep(first), PrintText(migrations[0]), more);
    }
  }

  lemma MigrationsThen(head: Text, migrations: seq<Text>, close: Piece)
    ensures Then(Whole(head), Then(Items(migrations, OfMigrations(), true), close))
            == Then(Whole(head + Join(Mapped(migrations, PrintText), COMMA)), close)
  {
    MigrationsPieceIs(migrations, true);
    ThenAssociates(Whole(head), Items(migrations, OfMigrations(), true), close);
    assert [] + Join(Mapped(migrations, PrintText), COMMA) == Join(Mapped(migrations, PrintText), COMMA);
  }

  lemma EndOfArchive(front: Text, texts: Text)
    ensures Then(Whole(front), Then(Whole(MIDDLE), Whole(texts + TABLE_END))) == Whole(front + MIDDLE + texts + TABLE_END)
  {
    assert front + (MIDDLE + (texts + TABLE_END)) == front + MIDDLE + texts + TABLE_END;
  }

  lemma SnapshotPieceEnds(cat: Catalog, db: Database, f: Formats, driver: Text, createdAt: Text)
    ensures var front := ArchiveHead(driver, createdAt) + Join(Mapped(db.migrations, PrintText), COMMA);
            SnapshotPiece(cat, db, f, driver, createdAt) == Then(Whole(front), Then(Whole(MIDDLE), TablesPiece(cat, db, f)))
  {
    MigrationsThen(ArchiveHead(driver, createdAt), db.migrations, Then(Whole(MIDDLE), TablesPiece(cat, db, f)));
  }

  lemma SnapshotPieceIsText(cat: Catalog, db: Database, f: Formats, driver: Text, createdAt: Text)
    ensures match ArchiveText(cat, db, f, driver, createdAt)
            case None => SnapshotPiece(cat, db, f, driver, createdAt).fault.Some?
            case Some(text) => SnapshotPiece(cat, db, f, driver, createdAt) == Whole(text)
  {
    SnapshotPieceEnds(cat, db, f, driver, createdAt);
    TablesPieceIs(cat, db, f);
    var front := ArchiveHead(driver, createdAt) + Join(Mapped(db.migrations, PrintText), COMMA);
    if Every(cat.tables, TableText(cat, db, f)).Some? {
      EndOfArchive(front, Join(Every(cat.tables, TableText(cat, db, f)).value, COMMA));
    }
  }

  /** The pieces come to the JSON of the archive when there is one, and to a fault when there
      is none. */
  lemma SnapshotPieceIs(cat: Catalog, db: Database, f: Formats, driver: Text, createdAt: Text)
    ensures match Snapshot(cat, db, f, driver, createdAt)
            case None => SnapshotPiece(cat, db, f, driver, createdAt).fault.Some?
            case Some(a) => SnapshotPiece(cat, db, f, driver, createdAt) == Whole(Print(ArchiveJson(a)))
  {
    SnapshotText(cat, db, f, driver, createdAt);
    SnapshotPieceIsText(cat, db, f, driver, createdAt);
  }

  // ---- which fault it is ----

  /** A list's fault is that of its first item that comes to no text. */
  lemma {:induction false} FirstFault<A>(items: seq<A>, piece: (A, bool) -> Piece, text: A -> Option<Text>, first: bool) returns (k: nat)
    requires forall x, b :: x in items ==>
      match text(x) case None => piece(x, b).fault.Some? case Some(t) => piece(x, b) == Whole(Sep(b) + t)
    requires Every(items, text).None?
    ensures k < |items| && text(items[k]).None? && forall j :: 0 <= j < k ==> text(items[j]).Some?
    ensures Items(items, piece, first).fault == piece(items[k], first && k == 0).fault
  {
    assert items[0] in items;
    if text(items[0]).None? {
      k := 0;
    } else {
      assert forall x :: x in items[1..] ==> x in items;
      var m := FirstFault(items[1..], piece, text, false);
      k := m + 1;
      forall j | 0 <= j < k ensures text(items[j]).Some? {
        assert j > 0 ==> items[j] == items[1..][j - 1];
      }
    }
  }

  lemma RowFault(columns: seq<Text>, f: Formats, row: Row)
    requires RowText(columns, f)(row).None?
    ensures RowPiece(Cells(row, columns), f).fault == Some(Unsupported)
  {
    var k := FirstFault(Cells(row, columns), OfCells(f), CellText(f), true);
  }

  lemma TableFault(cat: Catalog, db: Database, f: Formats, name: Text)
    requires name in db.tables && TableObjectText(cat, db, f, name).None?
    ensures TablePiece(cat, db.tables[name], name, f).fault == Some(Unsupported)
  {
    var columns, rows := CarriedColumns(cat, name, db.tables[name].columns), db.tables[name].rows;
    forall row, first | row in rows
      ensures match RowText(columns, f)(row)
              case None => OfRows(columns, f)(row, first).fault.Some?
              case Some(t) => OfRows(columns, f)(row, first) == Whole(Sep(first) + t)
    {
      OfRowsIs(columns, f, row, first);
    }
    var k := FirstFault(rows, OfRows(columns, f), RowText(columns, f), true);
    RowFault(columns, f, rows[k]);
  }

  lemma TablesFault(cat: Catalog, db: Database, f: Formats) returns (k: nat)
    requires Every(cat.tables, TableText(cat, db, f)).None?
    ensures k < |cat.tables| && TableText(cat, db, f)(cat.tables[k]).None?
    ensures forall j :: 0 <= j < k ==> TableText(cat, db, f)(cat.tables[j]).Some?
    ensures TablesPiece(cat, db, f).fault == Some(if cat.tables[k] in db.tables then Unsupported else NoSuchTable)
  {
    forall name, first | name in cat.tables
      ensures match TableText(cat, db, f)(name)
              case None => OfTables(cat, db, f)(name, first).fault.Some?
              case Some(t) => OfTables(cat, db, f)(name, first) == Whole(Sep(first) + t)
    {
      OfTablesIs(cat, db, f, name, first);
    }
    k := FirstFault(cat.tables, OfTables(cat, db, f), TableText(cat, db, f), true);
    if cat.tables[k] in db.tables {
      TableFault(cat, db, f, cat.tables[k]);
    }
  }

  /** When there is no archive to be made, the fault is that of the first table that cannot be
      encoded: it is not there, or one of its values has no encoding. */
  lemma TheFaultIsTheFirst(cat: Catalog, db: Database, f: Formats, driver: Text, createdAt: Text) returns (k: nat)
    requires Snapshot(cat, db, f, driver, createdAt).None?
    ensures k < |cat.tables| && EncodeTable(cat, db, f)(cat.tables[k]).None?
    ensures forall j :: 0 <= j < k ==> EncodeTable(cat, db, f)(cat.tables[j]).Some?
    ensures SnapshotPiece(cat, db, f, driver, createdAt).fault == Some(if cat.tables[k] in db.tables then Unsupported else NoSuchTable)
  {
    SnapshotText(cat, db, f, driver, createdAt);
    SnapshotPieceEnds(cat, db, f, driver, createdAt);
    k := TablesFault(cat, db, f);
    forall j | 0 <= j <= k ensures EncodeTable(cat, db, f)(cat.tables[j]).Some? <==> TableText(cat, db, f)(cat.tables[j]).Some? {
      TableIsItsText(cat, db, f, cat.tables[j]);
    }
  }

  // ---- the text is the JSON of the archive ----

  /** Encoding and then printing every item is printing every encoded item. */
  lemma {:induction false} EveryPrinted<A, B, C>(items: seq<A>, f: A -> Option<B>, g: A -> Option<C>, h: B -> C)
    requires forall x :: x in items ==> g(x) == match f(x) case None => None case Some(y) => Some(h(y))
    ensures Every(items, g) == match Every(items, f) case None => None case Some(ys) => Some(Mapped(ys, h))
  {
    if items == [] {
      assert Mapped([], h) == [];
    } else {
      forall x | x in items[1..]
        ensures g(x) == match f(x) case None => None case Some(y) => Some(h(y))
      {
        assert x in items;
      }
      EveryPrinted(items[1..], f, g, h);
      assert items[0] in items;
      if f(items[0]).Some? && Every(items[1..], f).Some? {
        MappedFront(f(items[0]).value, Every(items[1..], f).value, h);
      }
    }
  }

  lemma MappedFront<B, C>(y: B, ys: seq<B>, h: B -> C)
    ensures Mapped([y] + ys, h) == [h(y)] + Mapped(ys, h)
  {
  }

  function PrintValue(v: Value): Text { Print(ValueJson(v)) }

  function PrintRow(row: seq<Value>): Text { Print(RowJson(row)) }

  function PrintTable(t: TableData): Text { Print(TableJson(t)) }

  /** The text of an array of items made by `make`. */
  lemma ArrayText<A>(items: seq<A>, make: A -> Json, text: A -> Text)
    requires forall x :: x in items ==> text(x) == Print(make(x))
    ensures Print(JArr(Mapped(items, make))) == [LBRACKET] + Join(Mapped(items, text), COMMA) + [RBRACKET]
  {
    PrintItemsJoin(Mapped(items, make));
    assert PrintAll(Mapped(items, make)) == Mapped(items, text);
  }

  lemma RowIsItsText(columns: seq<Text>, f: Formats, row: Row)
    ensures RowText(columns, f)(row) == match EncodeRow(columns, f)(row) case None => None case Some(r) => Some(PrintRow(r))
  {
    EveryPrinted(Cells(row, columns), Encoder(f), CellText(f), PrintValue);
    if EncodeRow(columns, f)(row).Some? {
      ArrayText(EncodeRow(columns, f)(row).value, ValueJson, PrintValue);
    }
  }

  lemma Three(a: Member, b: Member, c: Member)
    ensures PrintMembers([a, b, c]) == PrintMember(a) + [COMMA] + (PrintMember(b) + [COMMA] + PrintMember(c))
  {
    PrintOneMember(c);
    PrintMoreMembers(b, [c]);
    PrintMoreMembers(a, [b, c]);
    assert [b] + [c] == [b, c] && [a] + [b, c] == [a, b, c];
  }

  lemma TableObject(name: Text, csv: Text, rows: Json, inner: Text)
    requires Print(rows) == [LBRACKET] + inner + [RBRACKET]
    ensures Print(JObj([Member(NAME, JStr(name)), Member(COLUMNS_CSV, JStr(csv)), Member(ROWS, rows)]))
            == TableHead(name, csv) + inner + TABLE_END
  {
    KeysArePlain();
    MemberText(NAME, JStr(name));
    MemberText(COLUMNS_CSV, JStr(csv));
    MemberText(ROWS, rows);
    Three(Member(NAME, JStr(name)), Member(COLUMNS_CSV, JStr(csv)), Member(ROWS, rows));
    TablePieces(KeyText(NAME), JsonString(name), KeyText(COLUMNS_CSV), JsonString(csv), KeyText(ROWS), inner);
  }

  lemma TablePieces(k: Text, x: Text, l: Text, y: Text, m: Text, z: Text)
    ensures [LBRACE] + (k + x + [COMMA] + (l + y + [COMMA] + (m + ([LBRACKET] + z + [RBRACKET])))) + [RBRACE]
            == [LBRACE] + k + x + ([COMMA] + l) + y + ([COMMA] + m + [LBRACKET]) + z + TABLE_END
  {
  }

  lemma TableIsItsText(cat: Catalog, db: Database, f: Formats, name: Text)
    ensures TableText(cat, db, f)(name) == match EncodeTable(cat, db, f)(name) case None => None case Some(t) => Some(PrintTable(t))
  {
    if name in db.tables {
      var columns := CarriedColumns(cat, name, db.tables[name].columns);
      var rows := db.tables[name].rows;
      forall row | row in rows
        ensures RowText(columns, f)(row) == match EncodeRow(columns, f)(row) case None => None case Some(r) => Some(PrintRow(r))
      {
        RowIsItsText(columns, f, row);
      }
      EveryPrinted(rows, EncodeRow(columns, f), RowText(columns, f), PrintRow);
      if Every(rows, EncodeRow(columns, f)).Some? {
        var encoded := Every(rows, EncodeRow(columns, f)).value;
        ArrayText(encoded, RowJson, PrintRow);
        TableObject(name, Join(columns, COMMA), RowsJson(encoded), Join(Mapped(encoded, PrintRow), COMMA));
      }
    }
  }

  lemma Five(a: Member, b: Member, c: Member, d: Member, e: Member)
    ensures PrintMembers([a, b, c, d, e]) ==
      PrintMember(a) + [COMMA] + (PrintMember(b) + [COMMA] + (PrintMember(c) + [COMMA] + (PrintMember(d) + [COMMA] + PrintMember(e))))
  {
    Three(c, d, e);
    PrintMoreMembers(b, [c, d, e]);
    PrintMoreMembers(a, [b, c, d, e]);
    assert [b] + [c, d, e] == [b, c, d, e] && [a] + [b, c, d, e] == [a, b, c, d, e];
  }

  lemma ArchiveObject(driver: Text, createdAt: Text, migrations: Json, m: Text, tables: Json, t: Text)
    requires Print(migrations) == [LBRACKET] + m + [RBRACKET] && Print(tables) == [LBRACKET] + t + [RBRACKET]
    ensures Print(JObj([Member(FORMAT, JStr(LOGICAL_V1)), Member(SOURCE_DRIVER, JStr(driver)), Member(CREATED_AT, JStr(createdAt)),
                        Member(MIGRATIONS, migrations), Member(TABLES, tables)]))
            == ArchiveHead(driver, createdAt) + m + MIDDLE + t + TABLE_END
  {
    KeysArePlain();
    MemberText(FORMAT, JStr(LOGICAL_V1));
    MemberText(SOURCE_DRIVER, JStr(driver));
    MemberText(CREATED_AT, JStr(createdAt));
    MemberText(MIGRATIONS, migrations);
    MemberText(TABLES, tables);
    Five(Member(FORMAT, JStr(LOGICAL_V1)), Member(SOURCE_DRIVER, JStr(driver)), Member(CREATED_AT, JStr(createdAt)),
         Member(MIGRATIONS, migrations), Member(TABLES, tables));
    ArchivePieces(KeyText(FORMAT), JsonString(LOGICAL_V1), KeyText(SOURCE_DRIVER), JsonString(driver),
                  KeyText(CREATED_AT), JsonString(createdAt), KeyText(MIGRATIONS), m, KeyText(TABLES), t);
  }

  lemma ArchivePieces(k: Text, v: Text, l: Text, x: Text, n: Text, y: Text, o: Text, m: Text, p: Text, t: Text)
    ensures [LBRACE] + (k + v + [COMMA] + (l + x + [COMMA] + (n + y + [COMMA] + (o + ([LBRACKET] + m + [RBRACKET]) + [COMMA]
              + (p + ([LBRACKET] + t + [RBRACKET])))))) + [RBRACE]
            == [LBRACE] + k + v + ([COMMA] + l) + x + ([COMMA] + n) + y + ([COMMA] + o + [LBRACKET]) + m
               + ([RBRACKET] + ([COMMA] + p + [LBRACKET])) + t + TABLE_END
  {
  }

  /** What the printer writes is the JSON of the archive. */
  lemma SnapshotText(cat: Catalog, db: Database, f: Formats, driver: Text, createdAt: Text)
    ensures ArchiveText(cat, db, f, driver, createdAt) ==
      match Snapshot(cat, db, f, driver, createdAt) case None => None case Some(a) => Some(Print(ArchiveJson(a)))
  {
    forall name | name in cat.tables
      ensures TableText(cat, db, f)(name) == match EncodeTable(cat, db, f)(name) case None => None case Some(t) => Some(PrintTable(t))
    {
      TableIsItsText(cat, db, f, name);
    }
    EveryPrinted(cat.tables, EncodeTable(cat, db, f), TableText(cat, db, f), PrintTable);
    if Every(cat.tables, EncodeTable(cat, db, f)).Some? {
      var tables := Every(cat.tables, EncodeTable(cat, db, f)).value;
      ArrayText(tables, TableJson, PrintTable);
      ArrayText(db.migrations, TextJson, PrintText);
      ArchiveObject(driver, createdAt, TextsJson(db.migrations), Join(Mapped(db.migrations, PrintText), COMMA),
                    TablesJson(tables), Join(Mapped(tables, PrintTable), COMMA));
    }
  }
}
