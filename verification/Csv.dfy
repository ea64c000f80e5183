/**
  CSV export (apps/web/src/lib/csv.ts), read back with a reader for section 2 of RFC 4180
  that takes a single line feed as record break.
 */
module Csv {
  import opened Wrappers

  // ---- The printer ----

  /** A field of a row object: null and undefined print alike, anything else through its string form. */
  datatype Cell = Null | Text(text: string)

  function CellText(c: Cell): string {
    match c case Null => "" case Text(s) => s
  }

  datatype Field = Field(name: string, value: Cell)

  /** A row object: its fields in key order. */
  type Row = seq<Field>

  /** `row[h]`, undefined when the row has no such key. */
  function Lookup(row: Row, name: string): Cell {
    if row == [] then Null
    else if row[0].name == name then row[0].value
    else Lookup(row[1..], name)
  }

  function Keys(row: Row): seq<string> { if row == [] then [] else [row[0].name] + Keys(row[1..]) }

  predicate Plain(s: string) {
    forall i :: 0 <= i < |s| ==> s[i] != '"' && s[i] != ',' && s[i] != '\n'
  }

  function DoubleQuotes(s: string): string {
    if s == "" then "" else (if s[0] == '"' then "\"\"" else [s[0]]) + DoubleQuotes(s[1..])
  }

  function Escape(c: Cell): string {
    match c
    case Null => ""
    case Text(s) => if Plain(s) then s else "\"" + DoubleQuotes(s) + "\""
  }

  function Join(parts: seq<string>, separator: string): string {
    if parts == [] then ""
    else if |parts| == 1 then parts[0]
    else parts[0] + separator + Join(parts[1..], separator)
  }

  function CellsOf(headers: seq<string>, row: Row): (cells: seq<Cell>)
    ensures |cells| == |headers| && forall i :: 0 <= i < |cells| ==> cells[i] == Lookup(row, headers[i])
  {
    if headers == [] then [] else [Lookup(row, headers[0])] + CellsOf(headers[1..], row)
  }

  function Table(headers: seq<string>, rows: seq<Row>): (table: seq<seq<Cell>>)
    ensures |table| == |rows| && forall i :: 0 <= i < |table| ==> table[i] == CellsOf(headers, rows[i])
  {
    if rows == [] then [] else [CellsOf(headers, rows[0])] + Table(headers, rows[1..])
  }

  function EscapeAll(cells: seq<Cell>): seq<string> {
    if cells == [] then [] else [Escape(cells[0])] + EscapeAll(cells[1..])
  }

  function DataLine(cells: seq<Cell>): string { Join(EscapeAll(cells), ",") }

  function DataLines(table: seq<seq<Cell>>): seq<string> {
    if table == [] then [] else [DataLine(table[0])] + DataLines(table[1..])
  }

  /** The file text; nothing is downloaded when there are no rows. */
  function DownloadCsv(rows: seq<Row>): Option<string> {
    if rows == [] then None
    else
      var headers := Keys(rows[0]);
      Some(Join([Join(headers, ",")] + DataLines(Table(headers, rows)), "\n"))
  }

  /** The first field of that name, if any, is the `k`-th. */
  ghost predicate FieldAt(row: Row, name: string, k: Option<nat>) {
    match k
    case Some(i) => i < |row| && row[i].name == name && forall j :: 0 <= j < i ==> row[j].name != name
    case None => forall j :: 0 <= j < |row| ==> row[j].name != name
  }

  lemma {:induction false} LookupExactly(row: Row, name: string, k: Option<nat>)
    requires FieldAt(row, name, k)
    ensures Lookup(row, name) == if k.Some? then row[k.value].value else Null
  {
    if row != [] && row[0].name != name {
      LookupExactly(row[1..], name, if k.Some? then Some(k.value - 1) else None);
    }
  }

  /** What an exported cell looks like: empty without a value, as it is if plain, and else in quotes. */
  lemma {:induction false} CellExactly(headers: seq<string>, row: Row, i: nat, k: Option<nat>)
    requires i < |headers| && FieldAt(row, headers[i], k)
    ensures var cells := EscapeAll(CellsOf(headers, row));
      && |cells| == |headers|
      && if k.None? || row[k.value].value.Null? then cells[i] == ""
         else
           var s := row[k.value].value.text;
           cells[i] == if '"' in s || ',' in s || '\n' in s then "\"" + DoubleQuotes(s) + "\"" else s
  {
    if i > 0 {
      CellExactly(headers[1..], row, i - 1, k);
    } else {
      LookupExactly(row, headers[0], k);
      EscapedCount(CellsOf(headers, row));
    }
  }

  lemma {:induction false} EscapedCount(cells: seq<Cell>)
    ensures |EscapeAll(cells)| == |cells|
  {
    if cells != [] { EscapedCount(cells[1..]); }
  }

  /** The columns are the keys of a row, in their order. */
  lemma {:induction false} KeysExactly(row: Row)
    ensures |Keys(row)| == |row| && forall i :: 0 <= i < |row| ==> Keys(row)[i] == row[i].name
  {
    if row != [] { KeysExactly(row[1..]); }
  }

  // ---- The reader ----

  datatype Mode = Start | Bare | Quoted | Closing

  /** Reads records from `s` with `field` under way and `record` before it; the last line break is optional. */
  function Read(s: string, mode: Mode, field: string, record: seq<string>): Option<seq<seq<string>>> {
    if s == "" then
      if mode == Quoted then None else Some([record + [field]])
    else
      var c, rest := s[0], s[1..];
      if mode == Quoted then
        if c == '"' then Read(rest, Closing, field, record) else Read(rest, Quoted, field + [c], record)
      else if c == ',' then Read(rest, Start, "", record + [field])
      else if c == '\n' then
        if rest == "" then Some([record + [field]])
        else
          match Read(rest, Start, "", [])
          case None => None
          case Some(more) => Some([record + [field]] + more)
      else if c == '"' then
        match mode
        case Start => Read(rest, Quoted, field, record)
        case Closing => Read(rest, Quoted, field + [c], record)
        case _ => None
      else if mode == Closing then None
      else Read(rest, Bare, field + [c], record)
  }

  function ReadCsv(s: string): Option<seq<seq<string>>> { Read(s, Start, "", []) }

  // ---- Reading back what was printed ----

  ghost function Texts(cells: seq<Cell>): seq<string> {
    if cells == [] then [] else [CellText(cells[0])] + Texts(cells[1..])
  }

  ghost function TableTexts(table: seq<seq<Cell>>): seq<seq<string>> {
    if table == [] then [] else [Texts(table[0])] + TableTexts(table[1..])
  }

  /** A field is over here. */
  predicate Ends(rest: string) { rest == "" || rest[0] == ',' || rest[0] == '\n' }

  lemma {:induction false} ReadQuoted(x: string, rest: string, field: string, record: seq<string>)
    ensures Read(DoubleQuotes(x) + "\"" + rest, Quoted, field, record) == Read(rest, Closing, field + x, record)
  {
    var s := DoubleQuotes(x) + "\"" + rest;
    if x == "" {
      assert s == "\"" + rest && s[1..] == rest && field + x == field;
    } else {
      var tail := DoubleQuotes(x[1..]) + "\"" + rest;
      ReadQuoted(x[1..], rest, field + [x[0]], record);
      assert field + [x[0]] + x[1..] == field + x;
      if x[0] == '"' {
        assert s == "\"\"" + tail;
        assert s[1..] == "\"" + tail && s[1..][1..] == tail;
      } else {
        assert s == [x[0]] + tail && s[1..] == tail;
      }
    }
  }

  lemma {:induction false} ReadPlain(x: string, rest: string, mode: Mode, field: string, record: seq<string>)
    requires Plain(x) && Ends(rest) && (mode == Start || mode == Bare)
    ensures Read(x + rest, mode, field, record) == Read(rest, Bare, field + x, record)
  {
    if x == "" {
      assert x + rest == rest && field + x == field;
    } else {
      ReadPlain(x[1..], rest, Bare, field + [x[0]], record);
      assert (x + rest)[1..] == x[1..] + rest;
      assert field + [x[0]] + x[1..] == field + x;
    }
  }

  lemma ReadCell(c: Cell, rest: string, record: seq<string>)
    requires Ends(rest)
    ensures Read(Escape(c) + rest, Start, "", record) == Read(rest, Bare, CellText(c), record)
  {
    var x := CellText(c);
    assert "" + x == x;
    if Plain(x) {
      ReadPlain(x, rest, Start, "", record);
    } else {
      var s := Escape(c) + rest;
      ReadQuoted(x, rest, "", record);
      assert s[1..] == DoubleQuotes(x) + "\"" + rest;
    }
  }

  /** What reading gives once a record is complete: the text ends here, or a line break follows. */
  ghost function EndRecord(record: seq<string>, rest: string): Option<seq<seq<string>>> {
    if |rest| <= 1 then Some([record])
    else
      match ReadCsv(rest[1..])
      case None => None
      case Some(more) => Some([record] + more)
  }

  lemma {:induction false} ReadLine(cells: seq<Cell>, rest: string, record: seq<string>)
    requires cells != [] && (rest == "" || rest[0] == '\n')
    ensures Read(DataLine(cells) + rest, Start, "", record) == EndRecord(record + Texts(cells), rest)
  {
    if |cells| == 1 {
      assert EscapeAll(cells) == [Escape(cells[0])] && Texts(cells) == [CellText(cells[0])];
      ReadCell(cells[0], rest, record);
    } else {
      hide Read, Escape, Join, EndRecord;
      var line, next := DataLine(cells[1..]) + rest, record + [CellText(cells[0])];
      LineCons(cells, rest);
      ReadCell(cells[0], "," + line, record);
      AfterComma(line, CellText(cells[0]), record);
      ReadLine(cells[1..], rest, next);
      assert next + Texts(cells[1..]) == record + Texts(cells);
    }
  }

  lemma LineCons(cells: seq<Cell>, rest: string)
    requires |cells| > 1
    ensures DataLine(cells) + rest == Escape(cells[0]) + ("," + (DataLine(cells[1..]) + rest))
  {
    hide Escape;
    assert EscapeAll(cells)[1..] == EscapeAll(cells[1..]);
  }

  lemma AfterComma(rest: string, field: string, record: seq<string>)
    ensures Read("," + rest, Bare, field, record) == Read(rest, Start, "", record + [field])
  {
    assert ("," + rest)[1..] == rest;
  }

  lemma ReadRecord(cells: seq<Cell>, rest: string)
    requires cells != []
    ensures ReadCsv(DataLine(cells)) == Some([Texts(cells)])
    ensures ReadCsv(DataLine(cells) + "\n" + rest) == EndRecord(Texts(cells), "\n" + rest)
  {
    hide Read, Texts, DataLine, EndRecord;
    assert EndRecord(Texts(cells), "") == Some([Texts(cells)]) by { NothingLeft(Texts(cells)); }
    assert [] + Texts(cells) == Texts(cells) && DataLine(cells) + "" == DataLine(cells);
    assert DataLine(cells) + "\n" + rest == DataLine(cells) + ("\n" + rest);
    ReadLine(cells, "", []);
    ReadLine(cells, "\n" + rest, []);
  }

  lemma NothingLeft(record: seq<string>)
    ensures EndRecord(record, "") == Some([record])
  {
  }

  /** The last line is empty: it holds one cell, which prints as the empty string. */
  predicate LastLineEmpty(table: seq<seq<Cell>>)
    requires table != []
  {
    var cells := table[|table| - 1];
    |cells| == 1 && CellText(cells[0]) == ""
  }

  /**
    Every record of a table comes back, cell by cell, except that an empty last line reads as the
    optional final line break.
   */
  lemma {:induction false} ReadTable(table: seq<seq<Cell>>)
    requires table != [] && forall i :: 0 <= i < |table| ==> table[i] != []
    ensures ReadCsv(Join(DataLines(table), "\n")) ==
      Some(if |table| > 1 && LastLineEmpty(table) then TableTexts(table[..|table| - 1]) else TableTexts(table))
  {
    hide Read, DataLine, Texts;
    if |table| == 1 {
      OneRecord(table);
      ReadRecord(table[0], "");
    } else {
      var tail := table[1..];
      var rest := Join(DataLines(tail), "\n");
      assert DataLines(table)[1..] == DataLines(tail);
      assert Join(DataLines(table), "\n") == DataLine(table[0]) + "\n" + rest;
      ReadRecord(table[0], rest);
      assert ("\n" + rest)[1..] == rest;
      ReadTable(tail);
      EmptyText(tail);
      DropLast(table);
    }
  }

  lemma DropLast(table: seq<seq<Cell>>)
    requires |table| > 1
    ensures var tail := table[1..];
      && (LastLineEmpty(table) <==> LastLineEmpty(tail))
      && TableTexts(table[..|table| - 1]) == [Texts(table[0])] + TableTexts(tail[..|tail| - 1])
      && (|tail| == 1 ==> TableTexts(table[..|table| - 1]) == [Texts(table[0])])
  {
    hide Texts;
    var tail, init := table[1..], table[..|table| - 1];
    assert table[|table| - 1] == tail[|tail| - 1];
    assert init[1..] == tail[..|tail| - 1];
    if |tail| == 1 { assert TableTexts(init[1..]) == []; }
  }

  lemma EmptyText(table: seq<seq<Cell>>)
    requires table != [] && forall i :: 0 <= i < |table| ==> table[i] != []
    ensures Join(DataLines(table), "\n") == "" <==> |table| == 1 && LastLineEmpty(table)
  {
    hide DataLine;
    if |table| == 1 {
      OneRecord(table);
      EmptyLine(table[0]);
    } else {
      assert Join(DataLines(table), "\n") == DataLine(table[0]) + "\n" + Join(DataLines(table[1..]), "\n");
    }
  }

  lemma OneRecord(table: seq<seq<Cell>>)
    requires |table| == 1
    ensures DataLines(table) == [DataLine(table[0])] && TableTexts(table) == [Texts(table[0])]
  {
    hide DataLine, Texts;
    assert table[1..] == [];
  }

  lemma EmptyLine(cells: seq<Cell>)
    requires cells != []
    ensures DataLine(cells) == "" <==> |cells| == 1 && CellText(cells[0]) == ""
  {
    if |cells| == 1 {
      assert cells[1..] == [];
      assert EscapeAll(cells) == [Escape(cells[0])];
    } else {
      LineCons(cells, "");
      assert DataLine(cells) + "" == DataLine(cells);
    }
  }

  // ---- Nothing shorter reads back: the escaping is needed ----

  ghost function CellSize(text: string): nat { |Escape(Text(text))| }

  ghost function RecordSize(record: seq<string>): nat {
    if record == [] then 0 else CellSize(record[0]) + 1 + RecordSize(record[1..])
  }

  ghost function FileSize(records: seq<seq<string>>): nat {
    if records == [] then 0 else RecordSize(records[0]) + FileSize(records[1..])
  }

  /** Text consumed so far for the field under way. */
  ghost function Consumed(mode: Mode, field: string): nat {
    match mode
    case Quoted => 1 + |DoubleQuotes(field)|
    case Closing => 2 + |DoubleQuotes(field)|
    case _ => |field|
  }

  lemma {:induction false} DoubleQuotesSnoc(x: string, c: char)
    ensures |DoubleQuotes(x + [c])| == |DoubleQuotes(x)| + if c == '"' then 2 else 1
    ensures |x| <= |DoubleQuotes(x)|
  {
    if x == "" {
      assert x + [c] == [c];
    } else {
      DoubleQuotesSnoc(x[1..], c);
      assert (x + [c])[1..] == x[1..] + [c];
    }
  }

  lemma CellSizeBound(x: string)
    ensures CellSize(x) <= 2 + |DoubleQuotes(x)|
    ensures |x| <= CellSize(x) && (CellSize(x) == |x| <==> Plain(x))
  {
    DoubleQuotesSnoc(x, ' ');
  }

  lemma {:induction false} RecordSizeSnoc(record: seq<string>, x: string)
    ensures RecordSize(record + [x]) == RecordSize(record) + CellSize(x) + 1
  {
    hide CellSize;
    if record == [] {
      assert [] + [x] == [x];
    } else {
      RecordSizeSnoc(record[1..], x);
      assert (record + [x])[1..] == record[1..] + [x];
    }
  }

  /** A text that reads as some records is at least as long as their printed form. */
  lemma {:induction false} ReadIsLong(s: string, mode: Mode, field: string, record: seq<string>)
    requires mode == Start ==> field == ""
    requires mode == Bare ==> Plain(field)
    requires Read(s, mode, field, record).Some?
    ensures FileSize(Read(s, mode, field, record).value) <= |s| + 1 + Consumed(mode, field) + RecordSize(record)
    decreases |s|
  {
    hide CellSize;
    CellSizeBound(field);
    RecordSizeSnoc(record, field);
    var ended := [record + [field]];
    assert FileSize(ended) == RecordSize(record + [field]) by { assert ended[1..] == []; }
    if s != "" {
      var c, rest := s[0], s[1..];
      DoubleQuotesSnoc(field, c);
      if mode == Quoted {
        ReadIsLong(rest, if c == '"' then Closing else Quoted, if c == '"' then field else field + [c], record);
      } else if c == ',' {
        ReadIsLong(rest, Start, "", record + [field]);
      } else if c == '\n' {
        if rest != "" {
          ReadIsLong(rest, Start, "", []);
          var more := Read(rest, Start, "", []).value;
          assert (ended + more)[0] == ended[0] && (ended + more)[1..] == more;
        }
      } else if c == '"' {
        ReadIsLong(rest, Quoted, if mode == Start then field else field + [c], record);
      } else {
        ReadIsLong(rest, Bare, field + [c], record);
      }
    }
  }

  ghost function Total(parts: seq<string>): nat {
    if parts == [] then 0 else |parts[0]| + 1 + Total(parts[1..])
  }

  lemma {:induction false} JoinSize(parts: seq<string>, separator: string)
    requires parts != [] && |separator| == 1
    ensures |Join(parts, separator)| + 1 == Total(parts)
  {
    if |parts| > 1 { JoinSize(parts[1..], separator); }
  }

  lemma {:induction false} CellSizes(cells: seq<Cell>)
    ensures Total(EscapeAll(cells)) == RecordSize(Texts(cells))
  {
    if cells != [] { CellSizes(cells[1..]); }
  }

  lemma LineSize(cells: seq<Cell>)
    requires cells != []
    ensures |DataLine(cells)| + 1 == RecordSize(Texts(cells))
  {
    JoinSize(EscapeAll(cells), ",");
    CellSizes(cells);
  }

  lemma {:induction false} TableSize(table: seq<seq<Cell>>)
    requires forall i :: 0 <= i < |table| ==> table[i] != []
    ensures Total(DataLines(table)) == FileSize(TableTexts(table))
  {
    hide Texts, DataLine;
    if table != [] {
      LineSize(table[0]);
      TableSize(table[1..]);
    }
  }

  predicate AllPlain(names: seq<string>) { forall i :: 0 <= i < |names| ==> Plain(names[i]) }

  lemma {:induction false} PlainSizes(names: seq<string>)
    ensures Total(names) <= RecordSize(names)
    ensures Total(names) == RecordSize(names) <==> AllPlain(names)
  {
    hide CellSize, Plain;
    if names != [] {
      PlainSizes(names[1..]);
      CellSizeBound(names[0]);
    }
  }

  // ---- The exported file ----

  ghost function AsCells(names: seq<string>): seq<Cell> {
    if names == [] then [] else [Text(names[0])] + AsCells(names[1..])
  }

  /** The records an ideal reader would return. */
  ghost function Expected(rows: seq<Row>): seq<seq<string>>
    requires rows != []
  {
    [Keys(rows[0])] + TableTexts(Table(Keys(rows[0]), rows))
  }

  /**
    The headers, which are not escaped, and the cells all come back exactly when no header holds a
    quote, comma or line feed, there is a column, and a single column does not end in an empty cell.
   */
  lemma RoundTrip(rows: seq<Row>)
    requires rows != []
    ensures var headers := Keys(rows[0]);
      DownloadCsv(rows).Some? &&
      (ReadCsv(DownloadCsv(rows).value) == Some(Expected(rows)) <==>
        AllPlain(headers) && headers != []
        && (|headers| == 1 ==> CellText(Lookup(rows[|rows| - 1], headers[0])) != ""))
  {
    var headers := Keys(rows[0]);
    var table := Table(headers, rows);
    var text := DownloadCsv(rows).value;
    hide ReadCsv, Join, AllPlain, TableTexts, DataLines;
    if headers == [] {
      NoColumns(text, table);
    } else if AllPlain(headers) {
      PlainHeaders(headers, table, text);
    } else if ReadCsv(text) == Some(Expected(rows)) {
      OnlyPlainHeaders(headers, table, text);
    }
  }

  /** Without columns every line is empty, and no reader returns a record without a field. */
  lemma NoColumns(text: string, table: seq<seq<Cell>>)
    requires table != [] && forall i :: 0 <= i < |table| ==> table[i] == []
    requires text == Join([Join([], ",")] + DataLines(table), "\n")
    ensures ReadCsv(text) != Some([[]] + TableTexts(table))
  {
    hide Read;
    var more := Join(DataLines(table), "\n");
    assert ([""] + DataLines(table))[1..] == DataLines(table);
    assert text == "\n" + more;
    BlankFirst(more);
    assert ([[]] + TableTexts(table))[0] == [];
  }

  lemma BlankFirst(more: string)
    ensures ReadCsv("\n" + more).Some? ==> ReadCsv("\n" + more).value[0] == [""]
  {
    assert ("\n" + more)[1..] == more;
    assert [] + [""] == [""];
  }

  /** Headers that come back unchanged did not need escaping. */
  lemma OnlyPlainHeaders(headers: seq<string>, table: seq<seq<Cell>>, text: string)
    requires headers != [] && forall i :: 0 <= i < |table| ==> table[i] != []
    requires text == Join([Join(headers, ",")] + DataLines(table), "\n")
    requires ReadCsv(text) == Some([headers] + TableTexts(table))
    ensures AllPlain(headers)
  {
    hide Read, Join, AllPlain, RecordSize;
    var lines := [Join(headers, ",")] + DataLines(table);
    ReadIsLong(text, Start, "", []);
    JoinSize(lines, "\n");
    assert lines[1..] == DataLines(table);
    JoinSize(headers, ",");
    TableSize(table);
    PlainSizes(headers);
    EmptyRecordSize();
    assert ([headers] + TableTexts(table))[1..] == TableTexts(table);
  }

  lemma EmptyRecordSize()
    ensures RecordSize([]) == 0
  {
  }

  lemma PlainHeaders(headers: seq<string>, table: seq<seq<Cell>>, text: string)
    requires headers != [] && AllPlain(headers)
    requires table != [] && forall i :: 0 <= i < |table| ==> |table[i]| == |headers|
    requires text == Join([Join(headers, ",")] + DataLines(table), "\n")
    ensures ReadCsv(text) == Some([headers] + TableTexts(table)) <==> !LastLineEmpty(table)
  {
    hide *;
    HeadersAsCells(headers);
    ConsTable(AsCells(headers), table);
    ReadTable([AsCells(headers)] + table);
  }

  lemma ConsTable(cells: seq<Cell>, table: seq<seq<Cell>>)
    requires table != []
    ensures var full := [cells] + table;
      && DataLines(full) == [DataLine(cells)] + DataLines(table)
      && TableTexts(full) == [Texts(cells)] + TableTexts(table)
      && TableTexts(full[..|full| - 1]) != TableTexts(full)
      && (LastLineEmpty(full) <==> LastLineEmpty(table))
  {
    hide Texts, DataLine;
    var full := [cells] + table;
    assert full[1..] == table;
    TableTextsLength(full);
    TableTextsLength(full[..|full| - 1]);
  }

  lemma TableTextsLength(table: seq<seq<Cell>>)
    ensures |TableTexts(table)| == |table|
  {
  }

  lemma {:induction false} HeadersAsCells(headers: seq<string>)
    requires AllPlain(headers)
    ensures |AsCells(headers)| == |headers|
    ensures Texts(AsCells(headers)) == headers && DataLine(AsCells(headers)) == Join(headers, ",")
    ensures EscapeAll(AsCells(headers)) == headers
  {
    hide Join;
    if headers != [] { HeadersAsCells(headers[1..]); }
  }
}
