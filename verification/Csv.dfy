/** The CSV printer and the character-level CSV parser of the web client. */
module Csv {
  import opened Options
  import opened Text

  type Row = seq<string>
  type Table = seq<Row>

  // ---------------------------------------------------------------- printer

  /** A column: its header, and the text of its cell (None where the source yields null or undefined). */
  datatype Column<!T> = Column(header: string, value: T -> Option<string>)

  predicate IsSpecial(c: char) {
    c == '"' || c == ',' || IsBreak(c)
  }

  predicate Plain(cell: string) {
    forall c <- cell :: !IsSpecial(c)
  }

  function Doubled(s: string): string {
    if s == "" then "" else (if s[0] == '"' then "\"\"" else [s[0]]) + Doubled(s[1..])
  }

  function EscapeCell(cell: string): string {
    if Plain(cell) then cell else "\"" + Doubled(cell) + "\""
  }

  function CellText<T>(column: Column<T>, row: T): string {
    match column.value(row)
    case None => ""
    case Some(text) => text
  }

  function Header<T>(columns: seq<Column<T>>): Row {
    seq(|columns|, k requires 0 <= k < |columns| => columns[k].header)
  }

  function Cells<T>(columns: seq<Column<T>>, row: T): Row {
    seq(|columns|, k requires 0 <= k < |columns| => CellText(columns[k], row))
  }

  function PrintRow(row: Row): string {
    Join(seq(|row|, k requires 0 <= k < |row| => EscapeCell(row[k])), ",")
  }

  function Body<T>(rows: seq<T>, columns: seq<Column<T>>): Table {
    seq(|rows|, k requires 0 <= k < |rows| => Cells(columns, rows[k]))
  }

  function PrintRows(table: Table): seq<string> {
    seq(|table|, k requires 0 <= k < |table| => PrintRow(table[k]))
  }

  function ToCsv<T>(rows: seq<T>, columns: seq<Column<T>>): string {
    Join([PrintRow(Header(columns))] + PrintRows(Body(rows, columns)), "\n")
  }

  // ----------------------------------------------------------------- parser

  /** The parser's four variables. */
  datatype Scan = Scan(rows: Table, row: Row, field: string, inQuotes: bool)

  const START := Scan([], [], "", false)

  /** One turn of the parser's loop: how many characters it takes and the variables it leaves. */
  function Step(text: string, st: Scan): (turn: (nat, Scan))
    requires text != ""
    ensures 1 <= turn.0 <= |text|
  {
    var c, pair := text[0], |text| > 1;
    if st.inQuotes then
      if c == '"' && pair && text[1] == '"' then (2, st.(field := st.field + "\""))
      else if c == '"' then (1, st.(inQuotes := false))
      else (1, st.(field := st.field + [c]))
    else if c == '"' then (1, st.(inQuotes := true))
    else if c == ',' then (1, st.(row := st.row + [st.field], field := ""))
    else if IsBreak(c) then
      (if c == '\r' && pair && text[1] == '\n' then 2 else 1, Scan(st.rows + [st.row + [st.field]], [], "", false))
    else (1, st.(field := st.field + [c]))
  }

  /** What the variables hold after the rest of the text. */
  function ScanFrom(text: string, st: Scan): Scan
    decreases |text|
  {
    if text == "" then st
    else
      var (n, next) := Step(text, st);
      ScanFrom(text[n..], next)
  }

  /** The last row counts only if something of it was read. */
  function Finish(st: Scan): Table {
    if st.field != "" || st.row != [] then st.rows + [st.row + [st.field]] else st.rows
  }

  function ParseAll(text: string): Table {
    Finish(ScanFrom(text, START))
  }

  predicate BlankRow(row: Row) {
    forall cell <- row :: Trim(cell) == ""
  }

  function NonBlank(table: Table): Table {
    if table == [] then []
    else (if BlankRow(table[0]) then [] else [table[0]]) + NonBlank(table[1..])
  }

  function Parse(text: string): Table {
    NonBlank(ParseAll(text))
  }

  /** `parseCsv`: one pass with an index that can skip a second character. */
  method ParseCsv(text: string) returns (result: Table)
    ensures result == Parse(text)
  {
    var rows: Table, row: Row, field, inQuotes := [], [], "", false;
    var i := 0;
    assert text[0..] == text;
    while i < |text|
      invariant 0 <= i <= |text|
      invariant ScanFrom(text[i..], Scan(rows, row, field, inQuotes)) == ScanFrom(text, START)
    {
      var c := text[i];
      var pair := i + 1 < |text|;
      ghost var rest := text[i..];
      assert rest[1..] == text[i + 1..];
      assert pair ==> rest[2..] == text[i + 2..];
      if inQuotes {
        if c == '"' && pair && text[i + 1] == '"' {
          field := field + "\"";
          i := i + 1;
        } else if c == '"' {
          inQuotes := false;
        } else {
          field := field + [c];
        }
      } else if c == '"' {
        inQuotes := true;
      } else if c == ',' {
        row := row + [field];
        field := "";
      } else if c == '\n' || c == '\r' {
        row := row + [field];
        rows := rows + [row];
        row := [];
        field := "";
        if c == '\r' && pair && text[i + 1] == '\n' {
          i := i + 1;
        }
      } else {
        field := field + [c];
      }
      i := i + 1;
    }
    if field != "" || row != [] {
      row := row + [field];
      rows := rows + [row];
    }
    result := NonBlank(rows);
  }

  // ----------------------------------------------- a printed table, any line ends

  /** How a printed row ends. Only the last row may have no line end. */
  datatype LineEnd = Lf | Cr | CrLf | NoEnd

  function EndText(e: LineEnd): string {
    match e
    case Lf => "\n"
    case Cr => "\r"
    case CrLf => "\r\n"
    case NoEnd => ""
  }

  ghost predicate EndsFor(table: Table, ends: seq<LineEnd>) {
    |ends| == |table| && forall k :: 0 <= k < |ends| - 1 ==> ends[k] != NoEnd
  }

  /** A table printed cell by cell, every row with a line end of its own. */
  ghost function PrintWith(table: Table, ends: seq<LineEnd>): string
    requires |ends| == |table|
  {
    if table == [] then "" else PrintRow(table[0]) + EndText(ends[0]) + PrintWith(table[1..], ends[1..])
  }

  // ------------------------------------------------ scanning printed cells and rows

  ghost predicate NoQuoteFirst(s: string) {
    s != "" ==> s[0] != '"'
  }

  lemma Turn(text: string, rest: string, st: Scan)
    requires text != "" && rest == text[Step(text, st).0..]
    ensures ScanFrom(text, st) == ScanFrom(rest, Step(text, st).1)
  {
  }

  lemma {:induction false} ScanPlain(cell: string, rest: string, st: Scan)
    requires Plain(cell) && !st.inQuotes
    ensures ScanFrom(cell + rest, st) == ScanFrom(rest, st.(field := st.field + cell))
    decreases |cell|
  {
    if cell == "" {
      assert cell + rest == rest;
      assert st.field + cell == st.field;
    } else {
      var t := cell + rest;
      assert t[0] == cell[0] && !IsSpecial(t[0]);
      assert t[1..] == cell[1..] + rest;
      ScanPlain(cell[1..], rest, st.(field := st.field + [cell[0]]));
      assert st.field + [cell[0]] + cell[1..] == st.field + cell;
    }
  }

  lemma {:induction false} ScanDoubled(cell: string, rest: string, st: Scan)
    requires st.inQuotes && NoQuoteFirst(rest)
    ensures ScanFrom(Doubled(cell) + "\"" + rest, st)
         == ScanFrom(rest, st.(field := st.field + cell, inQuotes := false))
    decreases |cell|
  {
    hide ScanFrom;
    var t := Doubled(cell) + "\"" + rest;
    if cell == "" {
      assert t[1..] == rest;
      Turn(t, rest, st);
      assert st.field + cell == st.field;
    } else {
      var tail := Doubled(cell[1..]) + "\"" + rest;
      var next := st.(field := st.field + [cell[0]]);
      if cell[0] == '"' {
        assert t == "\"\"" + tail;
        assert t[2..] == tail;
      } else {
        assert t == [cell[0]] + tail;
        assert t[1..] == tail;
      }
      Turn(t, tail, st);
      ScanDoubled(cell[1..], rest, next);
      assert st.field + [cell[0]] + cell[1..] == st.field + cell;
    }
  }

  /** A printed cell is read back as exactly that cell. */
  lemma ScanCell(cell: string, rest: string, st: Scan)
    requires !st.inQuotes && st.field == "" && NoQuoteFirst(rest)
    ensures ScanFrom(EscapeCell(cell) + rest, st) == ScanFrom(rest, st.(field := cell))
  {
    assert "" + cell == cell;
    if Plain(cell) {
      ScanPlain(cell, rest, st);
    } else {
      var t := EscapeCell(cell) + rest;
      assert t[1..] == Doubled(cell) + "\"" + rest;
      ScanDoubled(cell, rest, st.(inQuotes := true));
    }
  }

  lemma PrintRowCons(row: Row)
    requires |row| > 1
    ensures PrintRow(row) == EscapeCell(row[0]) + "," + PrintRow(row[1..])
  {
    var parts := seq(|row|, k requires 0 <= k < |row| => EscapeCell(row[k]));
    var tail := row[1..];
    assert parts[1..] == seq(|tail|, k requires 0 <= k < |tail| => EscapeCell(tail[k]));
  }

  lemma ScanComma(rest: string, st: Scan)
    requires !st.inQuotes
    ensures ScanFrom("," + rest, st) == ScanFrom(rest, st.(row := st.row + [st.field], field := ""))
  {
    assert ("," + rest)[1..] == rest;
  }

  /** A printed row is read back as its cells, the last one still open. */
  lemma {:induction false} ScanRow(row: Row, rest: string, st: Scan)
    requires row != [] && !st.inQuotes && st.field == "" && NoQuoteFirst(rest)
    ensures ScanFrom(PrintRow(row) + rest, st)
         == ScanFrom(rest, st.(row := st.row + row[..|row| - 1], field := row[|row| - 1]))
    decreases |row|
  {
    hide ScanFrom, EscapeCell;
    if |row| == 1 {
      assert PrintRow(row) == EscapeCell(row[0]);
      ScanCell(row[0], rest, st);
      assert st.row + row[..0] == st.row;
    } else {
      PrintRowCons(row);
      var more := PrintRow(row[1..]) + rest;
      assert PrintRow(row) + rest == EscapeCell(row[0]) + ("," + more);
      ScanCell(row[0], "," + more, st);
      ScanComma(more, st.(field := row[0]));
      var next := st.(row := st.row + [row[0]], field := "");
      ScanRow(row[1..], rest, next);
      assert st.row + [row[0]] + row[1..][..|row| - 2] == st.row + row[..|row| - 1];
    }
  }

  /** The row an empty line stands for: a row without cells prints like a row with one empty cell. */
  ghost function AsRead(row: Row): Row {
    if row == [] then [""] else row
  }

  lemma AsReadPrints(row: Row)
    ensures PrintRow(AsRead(row)) == PrintRow(row)
    ensures BlankRow(AsRead(row)) == BlankRow(row)
  {
    if row == [] {
      assert PrintRow([""]) == EscapeCell("");
    }
  }

  /** Only a row without text prints as the empty line. */
  lemma EmptyLine(row: Row)
    requires PrintRow(row) == ""
    ensures BlankRow(row)
  {
    if |row| > 1 {
      PrintRowCons(row);
    } else if |row| == 1 {
      assert PrintRow(row) == EscapeCell(row[0]);
    }
  }

  lemma {:induction false} NonBlankConcat(a: Table, b: Table)
    ensures NonBlank(a + b) == NonBlank(a) + NonBlank(b)
    decreases |a|
  {
    hide BlankRow;
    if a == [] {
      assert a + b == b;
    } else {
      assert (a + b)[1..] == a[1..] + b;
      NonBlankConcat(a[1..], b);
      Assoc(if BlankRow(a[0]) then [] else [a[0]], NonBlank(a[1..]), NonBlank(b));
    }
  }

  lemma {:induction false} NonBlankFixed(table: Table)
    ensures NonBlank(NonBlank(table)) == NonBlank(table)
    ensures forall row <- NonBlank(table) :: !BlankRow(row)
  {
    if table != [] {
      NonBlankFixed(table[1..]);
      var rest := NonBlank(table[1..]);
      if BlankRow(table[0]) {
        assert NonBlank(table) == rest;
      } else {
        assert NonBlank(table)[1..] == rest;
      }
    }
  }

  lemma NonBlankSingle(row: Row)
    ensures NonBlank([row]) == if BlankRow(row) then [] else [row]
  {
    assert [row][1..] == [];
  }

  lemma ScanBreak(e: LineEnd, rest: string, st: Scan)
    requires !st.inQuotes && e != NoEnd
    requires e == Cr ==> !Starts(rest, '\n')
    ensures ScanFrom(EndText(e) + rest, st) == ScanFrom(rest, Scan(st.rows + [st.row + [st.field]], [], "", false))
  {
    hide ScanFrom;
    var tail := EndText(e) + rest;
    assert tail[|EndText(e)|..] == rest;
    assert |tail| > 1 ==> tail[1] == if e == CrLf then '\n' else rest[0];
    Turn(tail, rest, st);
  }

  lemma LastCell(row: Row)
    requires row != []
    ensures [] + row[..|row| - 1] + [row[|row| - 1]] == row
    ensures [] + row[..|row| - 1] == row[..|row| - 1]
  {
  }

  /** The state after a row and its line end. */
  lemma ScanLine(row: Row, e: LineEnd, rest: string, acc: Table)
    requires e != NoEnd
    requires e == Cr ==> !Starts(rest, '\n')
    ensures ScanFrom(PrintRow(row) + EndText(e) + rest, Scan(acc, [], "", false))
         == ScanFrom(rest, Scan(acc + [AsRead(row)], [], "", false))
  {
    hide ScanFrom, PrintRow;
    var r := AsRead(row);
    var st := Scan(acc, [], "", false);
    var tail := EndText(e) + rest;
    assert PrintRow(row) + EndText(e) + rest == PrintRow(r) + tail by {
      AsReadPrints(row);
    }
    ScanRow(r, tail, st);
    LastCell(r);
    ScanBreak(e, rest, st.(row := [] + r[..|r| - 1], field := r[|r| - 1]));
  }

  /** What a parse of a printed table delivers, on top of the rows already read. */
  ghost function ReadOn(text: string, acc: Table): Table {
    NonBlank(Finish(ScanFrom(text, Scan(acc, [], "", false))))
  }

  lemma ReadLine(row: Row, e: LineEnd, rest: string, acc: Table)
    requires e != NoEnd
    requires e == Cr ==> !Starts(rest, '\n')
    ensures ReadOn(PrintRow(row) + EndText(e) + rest, acc) == ReadOn(rest, acc + [AsRead(row)])
    ensures NonBlank(acc + [AsRead(row)]) == NonBlank(acc) + NonBlank([row])
  {
    ScanLine(row, e, rest, acc);
    AsReadNonBlank(row, acc);
  }

  lemma AsReadNonBlank(row: Row, acc: Table)
    ensures NonBlank(acc + [AsRead(row)]) == NonBlank(acc) + NonBlank([row])
  {
    AsReadPrints(row);
    NonBlankConcat(acc, [AsRead(row)]);
    NonBlankSingle(row);
    NonBlankSingle(AsRead(row));
  }

  lemma EmptyRowIsBlank(acc: Table)
    ensures NonBlank(acc + [[""]]) == NonBlank(acc)
  {
    NonBlankConcat(acc, [[""]]);
    NonBlankSingle([""]);
  }

  lemma ReadLast(row: Row, acc: Table)
    ensures ReadOn(PrintRow(row), acc) == NonBlank(acc) + NonBlank([row])
  {
    hide PrintRow, NonBlank;
    var r := AsRead(row);
    AsReadPrints(row);
    AsReadNonBlank(row, acc);
    assert PrintRow(row) == PrintRow(r) + "";
    ScanRow(r, "", Scan(acc, [], "", false));
    LastCell(r);
    if r == [""] {
      AsReadNonBlank([""], acc);
      EmptyRowIsBlank(acc);
    }
  }

  lemma ReadNothing(acc: Table)
    ensures ReadOn("", acc) == NonBlank(acc)
  {
  }

  lemma NonBlankCons(row: Row, table: Table)
    ensures NonBlank([row] + table) == NonBlank([row]) + NonBlank(table)
  {
    NonBlankConcat([row], table);
  }

  lemma {:induction false} ReadTable(table: Table, ends: seq<LineEnd>, acc: Table)
    requires EndsFor(table, ends)
    ensures ReadOn(PrintWith(table, ends), acc) == NonBlank(acc) + NonBlank(table)
    decreases |table|
  {
    hide ReadOn, PrintRow, BlankRow;
    if table == [] {
      ReadNothing(acc);
    } else if ends[0] == NoEnd {
      assert table == [table[0]];
      assert PrintWith(table, ends) == PrintRow(table[0]);
      ReadLast(table[0], acc);
    } else {
      var rest := PrintWith(table[1..], ends[1..]);
      assert table == [table[0]] + table[1..];
      NonBlankCons(table[0], table[1..]);
      if ends[0] == Cr && Starts(rest, '\n') {
        ReadEatenLine(table, ends, acc);
      } else {
        ReadLine(table[0], ends[0], rest, acc);
        ReadTable(table[1..], ends[1..], acc + [AsRead(table[0])]);
        Assoc(NonBlank(acc), NonBlank([table[0]]), NonBlank(table[1..]));
      }
    }
  }

  /** The one place where a line end is lost: CR before an empty line that ends in LF reads as a single CRLF. */
  lemma ReadEatenLine(table: Table, ends: seq<LineEnd>, acc: Table)
    requires table != [] && EndsFor(table, ends) && ends[0] == Cr
    requires Starts(PrintWith(table[1..], ends[1..]), '\n')
    ensures ReadOn(PrintWith(table, ends), acc) == NonBlank(acc) + NonBlank(table)
    decreases |table|, 0
  {
    var row, rest := table[0], table[2..];
    EatenLineText(table, ends);
    hide *;
    ReadLine(row, CrLf, PrintWith(rest, ends[2..]), acc);
    ReadTable(rest, ends[2..], acc + [AsRead(row)]);
    Assoc(NonBlank(acc), NonBlank([row]), NonBlank(rest));
  }

  lemma EatenLineText(table: Table, ends: seq<LineEnd>)
    requires table != [] && EndsFor(table, ends) && ends[0] == Cr
    requires Starts(PrintWith(table[1..], ends[1..]), '\n')
    ensures |table| > 1 && EndsFor(table[2..], ends[2..])
    ensures PrintWith(table, ends) == PrintRow(table[0]) + EndText(CrLf) + PrintWith(table[2..], ends[2..])
    ensures NonBlank(table) == NonBlank([table[0]]) + NonBlank(table[2..])
  {
    hide PrintRow, NonBlank;
    var row, t1, e1 := table[0], table[1..], ends[1..];
    assert t1[1..] == table[2..] && e1[1..] == ends[2..];
    var more := PrintWith(t1[1..], e1[1..]);
    EmptyLineFirst(t1[0], e1[0], more);
    MergeBreaks(PrintRow(row), PrintRow(t1[0]), more);
    SkippedRow(table);
  }

  lemma SkippedRow(table: Table)
    requires |table| > 1 && PrintRow(table[1]) == ""
    ensures NonBlank(table) == NonBlank([table[0]]) + NonBlank(table[2..])
  {
    hide BlankRow, PrintRow;
    EmptyLine(table[1]);
    NonBlankCons(table[0], table[1..]);
    assert table == [table[0]] + table[1..];
    assert table[1..][1..] == table[2..];
    assert [] + NonBlank(table[2..]) == NonBlank(table[2..]);
  }

  lemma MergeBreaks(line: string, empty: string, more: string)
    requires empty == ""
    ensures line + EndText(Cr) + (empty + EndText(Lf) + more) == line + EndText(CrLf) + more
  {
    assert empty + EndText(Lf) + more == EndText(Lf) + more;
    assert EndText(Cr) + EndText(Lf) == EndText(CrLf);
  }

  lemma EmptyLineFirst(row: Row, e: LineEnd, more: string)
    requires e == NoEnd ==> more == ""
    requires Starts(PrintRow(row) + EndText(e) + more, '\n')
    ensures PrintRow(row) == "" && e == Lf
  {
    FirstOfPrintedRow(row);
    StartsConcat(PrintRow(row) + EndText(e), more, '\n');
    StartsConcat(PrintRow(row), EndText(e), '\n');
  }

  lemma FirstOfPrintedRow(row: Row)
    ensures !Starts(PrintRow(row), '\n')
  {
    if row != [] {
      assert Plain(row[0]) && row[0] != "" ==> !IsSpecial(row[0][0]);
      if |row| > 1 {
        PrintRowCons(row);
        StartsConcat(EscapeCell(row[0]) + ",", PrintRow(row[1..]), '\n');
        StartsConcat(EscapeCell(row[0]), ",", '\n');
      }
    }
  }

  // ------------------------------------------------------------------ theorems

  /** Printing then parsing gives every table back without its blank rows, whatever line ends are used, even mixed. */
  lemma ParseInvertsPrint(table: Table, ends: seq<LineEnd>)
    requires EndsFor(table, ends)
    ensures Parse(PrintWith(table, ends)) == NonBlank(table)
  {
    ReadTable(table, ends, []);
  }

  lemma {:induction false} JoinIsPrintWith(table: Table)
    requires table != []
    ensures Join(PrintRows(table), "\n") == PrintWith(table, seq(|table| - 1, k => Lf) + [NoEnd])
    decreases |table|
  {
    var ends := seq(|table| - 1, k => Lf) + [NoEnd];
    if |table| == 1 {
      assert PrintWith(table[1..], ends[1..]) == "";
    } else {
      JoinIsPrintWith(table[1..]);
      assert PrintRows(table)[1..] == PrintRows(table[1..]);
      assert ends[1..] == seq(|table[1..]| - 1, k => Lf) + [NoEnd];
    }
  }

  /** The round trip of the client: header plus body come back, minus the blank rows. */
  lemma CsvRoundTrip<T>(rows: seq<T>, columns: seq<Column<T>>)
    ensures Parse(ToCsv(rows, columns)) == NonBlank([Header(columns)] + Body(rows, columns))
  {
    var table := [Header(columns)] + Body(rows, columns);
    assert PrintRows(table) == [PrintRow(Header(columns))] + PrintRows(Body(rows, columns));
    JoinIsPrintWith(table);
    ParseInvertsPrint(table, seq(|table| - 1, k => Lf) + [NoEnd]);
  }

  /** Parsing is canonicalising: printing any parse result, with any line ends, and parsing again changes nothing. */
  lemma ParseIsCanonical(text: string, ends: seq<LineEnd>)
    requires EndsFor(Parse(text), ends)
    ensures Parse(PrintWith(Parse(text), ends)) == Parse(text)
  {
    ParseInvertsPrint(Parse(text), ends);
    NonBlankFixed(ParseAll(text));
  }
}
