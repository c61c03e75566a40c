/** The second CSV printer, which flattens line breaks and trims every cell before it is written. */
module SanitisedCsv {
  import opened Text
  import opened Csv
  import opened CsvAnyText

  /** A record by column name; an absent key is the source's null or undefined. */
  type Record = map<string, string>

  function DropBreaks(s: string): (rest: string)
    ensures |rest| <= |s|
  {
    if s != "" && IsBreak(s[0]) then DropBreaks(s[1..]) else s
  }

  /** Each run of line breaks becomes one space. */
  function FlattenBreaks(s: string): string
    decreases |s|
  {
    if s == "" then ""
    else if IsBreak(s[0]) then " " + FlattenBreaks(DropBreaks(s[1..]))
    else [s[0]] + FlattenBreaks(s[1..])
  }

  function SanitizeText(s: string): string {
    Trim(FlattenBreaks(s))
  }

  function EscapeSanitised(s: string): string {
    var str := SanitizeText(s);
    if ',' in str || '"' in str then "\"" + Doubled(str) + "\"" else str
  }

  function Field(record: Record, header: string): string {
    if header in record then record[header] else ""
  }

  function SanitisedRow(headers: Row, record: Record): Row {
    seq(|headers|, k requires 0 <= k < |headers| => SanitizeText(Field(record, headers[k])))
  }

  function SanitisedTable(headers: Row, records: seq<Record>): Table {
    seq(|records|, k requires 0 <= k < |records| => SanitisedRow(headers, records[k]))
  }

  function PrintRecord(headers: Row, record: Record): string {
    Join(seq(|headers|, k requires 0 <= k < |headers| => EscapeSanitised(Field(record, headers[k]))), ",")
  }

  /** The lines after the header's. */
  function RecordLines(headers: Row, records: seq<Record>): string {
    if records == [] then "" else PrintRecord(headers, records[0]) + "\n" + RecordLines(headers, records[1..])
  }

  function Written(headers: Row, records: seq<Record>): string {
    Join(headers, ",") + "\n" + RecordLines(headers, records)
  }

  /** `writeCsv`, with the stream as the text written so far. The header line is written without escaping. */
  method WriteCsv(headers: Row, records: seq<Record>) returns (stream: string)
    ensures stream == Written(headers, records)
  {
    stream := Join(headers, ",") + "\n";
    for i := 0 to |records|
      invariant stream + RecordLines(headers, records[i..]) == Written(headers, records)
    {
      var line := PrintRecord(headers, records[i]) + "\n";
      assert records[i..][1..] == records[i + 1..];
      Assoc(stream, line, RecordLines(headers, records[i + 1..]));
      stream := stream + line;
    }
  }

  // ---------------------------------------------------------- sanitised cells

  ghost predicate NoBreak(s: string) {
    forall c <- s :: !IsBreak(c)
  }

  lemma {:induction false} FlattenLeavesNoBreak(s: string)
    ensures NoBreak(FlattenBreaks(s))
    decreases |s|
  {
    if s != "" {
      FlattenLeavesNoBreak(if IsBreak(s[0]) then DropBreaks(s[1..]) else s[1..]);
    }
  }

  lemma {:induction false} FlattenFixed(s: string)
    requires NoBreak(s)
    ensures FlattenBreaks(s) == s
    decreases |s|
  {
    if s != "" {
      assert s[0] in s;
      FlattenFixed(s[1..]);
    }
  }

  lemma {:induction false} DropBreaksDrops(run: string, rest: string)
    requires forall k :: 0 <= k < |run| ==> run[k] == '\n' || run[k] == '\r'
    requires rest != "" ==> rest[0] != '\n' && rest[0] != '\r'
    ensures DropBreaks(run + rest) == rest
  {
    if run == "" {
      assert run + rest == rest;
    } else {
      DropBreaksDrops(run[1..], rest);
      assert (run + rest)[1..] == run[1..] + rest;
    }
  }

  /** A run of line breaks, however long, becomes one space; what is before and after it stays. */
  lemma {:induction false} RunBecomesSpace(before: string, run: string, rest: string)
    requires '\n' !in before && '\r' !in before
    requires run != "" && forall k :: 0 <= k < |run| ==> run[k] == '\n' || run[k] == '\r'
    requires rest != "" ==> rest[0] != '\n' && rest[0] != '\r'
    ensures FlattenBreaks(before + run + rest) == before + " " + FlattenBreaks(rest)
    decreases |before|
  {
    var s := before + run + rest;
    if before == "" {
      assert s == run + rest && s[1..] == run[1..] + rest;
      DropBreaksDrops(run[1..], rest);
    } else {
      RunBecomesSpace(before[1..], run, rest);
      assert s[1..] == before[1..] + run + rest;
      assert [before[0]] + (before[1..] + " " + FlattenBreaks(rest)) == before + " " + FlattenBreaks(rest);
    }
  }

  /** What the table of the sanitised round trip holds, cell by cell. */
  lemma SanitisedCells(headers: Row, records: seq<Record>)
    ensures var table := SanitisedTable(headers, records);
      && |table| == |records|
      && forall i, k :: 0 <= i < |records| && 0 <= k < |headers| ==>
        && |table[i]| == |headers|
        && table[i][k] == SanitizeText(if headers[k] in records[i] then records[i][headers[k]] else "")
  {
    hide SanitizeText;
  }

  /** A sanitised cell stays as it is, is trimmed, and has no line break. */
  lemma SanitizeIdempotent(s: string)
    ensures NoBreak(SanitizeText(s)) && Trimmed(SanitizeText(s))
    ensures SanitizeText(SanitizeText(s)) == SanitizeText(s)
  {
    hide FlattenBreaks, Trim;
    FlattenLeavesNoBreak(s);
    TrimTrims(FlattenBreaks(s));
    FlattenFixed(SanitizeText(s));
    TrimFixed(SanitizeText(s));
  }

  /** On sanitised text the two printers quote the same cells. */
  lemma EscapeSanitisedIsEscape(s: string)
    ensures EscapeSanitised(s) == EscapeCell(SanitizeText(s))
  {
    hide SanitizeText;
    SanitizeIdempotent(s);
  }

  lemma PrintRecordIsPrintRow(headers: Row, record: Record)
    ensures PrintRecord(headers, record) == PrintRow(SanitisedRow(headers, record))
  {
    hide EscapeSanitised, EscapeCell;
    var row := SanitisedRow(headers, record);
    forall k | 0 <= k < |headers|
      ensures EscapeSanitised(Field(record, headers[k])) == EscapeCell(row[k])
    {
      EscapeSanitisedIsEscape(Field(record, headers[k]));
    }
    assert seq(|headers|, k requires 0 <= k < |headers| => EscapeSanitised(Field(record, headers[k])))
        == seq(|row|, k requires 0 <= k < |row| => EscapeCell(row[k]));
  }

  ghost function AllLf(n: nat): seq<LineEnd> {
    seq(n, k => Lf)
  }

  lemma {:induction false} RecordLinesIsPrintWith(headers: Row, records: seq<Record>)
    ensures RecordLines(headers, records) == PrintWith(SanitisedTable(headers, records), AllLf(|records|))
    decreases |records|
  {
    hide PrintRow, PrintRecord, SanitisedRow;
    if records != [] {
      PrintRecordIsPrintRow(headers, records[0]);
      RecordLinesIsPrintWith(headers, records[1..]);
      var table := SanitisedTable(headers, records);
      assert table[1..] == SanitisedTable(headers, records[1..]);
      assert AllLf(|records|)[1..] == AllLf(|records| - 1);
    }
  }

  // ----------------------------------------------------------- the header line

  ghost predicate PlainHeaders(headers: Row) {
    forall h <- headers :: Plain(h)
  }

  lemma PlainJoin(headers: Row)
    requires PlainHeaders(headers)
    ensures Join(headers, ",") == PrintRow(headers)
  {
    assert headers == seq(|headers|, k requires 0 <= k < |headers| => EscapeCell(headers[k]));
  }

  ghost function Expected(headers: Row, records: seq<Record>): Table {
    NonBlank([headers] + SanitisedTable(headers, records))
  }

  lemma PlainHeadersComeBack(headers: Row, records: seq<Record>)
    requires PlainHeaders(headers)
    ensures Parse(Written(headers, records)) == Expected(headers, records)
  {
    var body := SanitisedTable(headers, records);
    var table, ends := [headers] + body, [Lf] + AllLf(|records|);
    assert PrintWith(table, ends) == Written(headers, records) by {
      hide PrintRow, PrintRecord, SanitisedRow;
      PlainJoin(headers);
      RecordLinesIsPrintWith(headers, records);
      assert table[1..] == body && ends[1..] == AllLf(|records|);
    }
    ParseInvertsPrint(table, ends);
  }

  ghost predicate BlankCells(row: Row) {
    forall cell <- row :: AllWhite(cell)
  }

  ghost predicate BlankState(st: Scan) {
    !st.inQuotes && AllWhite(st.field) && BlankCells(st.row) && NonBlank(st.rows) == []
  }

  ghost predicate WhiteOrComma(s: string) {
    forall c <- s :: IsWhite(c) || c == ','
  }

  lemma BlankCellsBlankRow(row: Row)
    ensures BlankCells(row) <==> BlankRow(row)
  {
    hide Trim;
    forall cell <- row
      ensures AllWhite(cell) <==> Trim(cell) == ""
    {
      TrimTrims(cell);
    }
  }

  lemma BlankTurn(text: string, st: Scan)
    requires text != "" && BlankState(st) && (IsWhite(text[0]) || text[0] == ',')
    ensures BlankState(Step(text, st).1)
    ensures IsBreak(text[0]) ==> Step(text, st).1.row == [] && Step(text, st).1.field == ""
    ensures Step(text, st).0 == 2 ==> text[0] == '\r' && text[1] == '\n'
  {
    hide NonBlank;
    if IsBreak(text[0]) {
      var row := st.row + [st.field];
      BlankCellsBlankRow(row);
      NonBlankConcat(st.rows, [row]);
      NonBlankSingle(row);
    }
  }

  lemma {:induction false} ScanBlankLine(text: string, rest: string, st: Scan) returns (acc: Table)
    requires WhiteOrComma(text) && BlankState(st)
    ensures NonBlank(acc) == []
    ensures ScanFrom(text + "\n" + rest, st) == ScanFrom(rest, Scan(acc, [], "", false))
    decreases |text|
  {
    hide NonBlank, ScanFrom;
    var full := text + "\n" + rest;
    assert full[0] == if text == "" then '\n' else text[0];
    assert |text| > 0 ==> text[0] in text;
    BlankTurn(full, st);
    var (n, next) := Step(full, st);
    Turn(full, full[n..], st);
    if n <= |text| {
      assert full[n..] == text[n..] + "\n" + rest;
      acc := ScanBlankLine(text[n..], rest, next);
    } else {
      assert full[n..] == rest;
      acc := next.rows;
    }
  }

  lemma JoinBlank(row: Row)
    requires BlankCells(row)
    ensures WhiteOrComma(Join(row, ","))
  {
    forall c <- Join(row, ",")
      ensures IsWhite(c) || c == ','
    {
      JoinCharacters(row, c);
    }
  }

  lemma BlankHeadersComeBack(headers: Row, records: seq<Record>)
    requires BlankRow(headers)
    ensures Parse(Written(headers, records)) == Expected(headers, records)
  {
    var body := SanitisedTable(headers, records);
    var line, rest := Join(headers, ","), RecordLines(headers, records);
    BlankCellsBlankRow(headers);
    JoinBlank(headers);
    var acc := ScanBlankLine(line, rest, START);
    assert Parse(line + "\n" + rest) == ReadOn(rest, acc);
    hide *;
    RecordLinesIsPrintWith(headers, records);
    LfEnds(body, |records|);
    ReadTable(body, AllLf(|records|), acc);
    assert [] + NonBlank(body) == NonBlank(body);
    NonBlankCons(headers, body);
    NonBlankSingle(headers);
  }

  lemma LfEnds(table: Table, n: nat)
    requires n == |table|
    ensures EndsFor(table, AllLf(n))
  {
  }

  lemma {:induction false} QuotesJoin(row: Row)
    ensures Quotes(Join(row, ",")) == Quotes(RowText(row))
  {
    hide Quotes;
    if row != [] {
      QuotesJoin(row[1..]);
      QuotesConcat(row[0], RowText(row[1..]));
      QuotesConcat(row[0] + ",", Join(row[1..], ","));
      QuotesConcat(row[0], ",");
      assert Quotes(",") == 0 && Quotes("") == 0 by { NoQuoteMarks(); }
      assert |row| == 1 ==> row[0] + RowText([]) == row[0];
    }
  }

  lemma NoQuoteMarks()
    ensures Quotes("") == Quotes(",") == Quotes("\n") == 0
  {
  }

  /** A header row that is not blank comes back from the text of no records only if nothing in it needs quotes. */
  lemma OnlyPlainHeadersComeBack(headers: Row)
    requires Parse(Written(headers, [])) == Expected(headers, [])
    ensures BlankRow(headers) || PlainHeaders(headers)
  {
    var text := Join(headers, ",") + "\n";
    assert text + "" == text;
    assert [headers] + [] == [headers];
    NonBlankSingle(headers);
    if !BlankRow(headers) {
      assert Parse(text) == [headers];
      ParseKeepsText(text);
      NonBlankFromTable(ParseAll(text));
      SingleRowText(headers);
      QuotesJoin(headers);
      QuotesConcat(Join(headers, ","), "\n");
      NoQuoteMarks();
      NoQuotes(text);
      QuoteFreeCellsArePlain(text);
      assert headers in Parse(text);
    }
  }

  lemma SingleRowText(row: Row)
    ensures TableText([row]) == RowText(row)
  {
    assert [row][1..] == [];
    assert RowText(row) + "" == RowText(row);
  }

  /**
   * The written text parses back to the header and the sanitised records, minus blank rows, exactly when the header
   * row is blank or none of its names holds a quote, a comma or a line break: the header line is not escaped.
   */
  lemma SanitisedRoundTripIff(headers: Row)
    ensures (forall records: seq<Record> :: Parse(Written(headers, records)) == Expected(headers, records))
       <==> BlankRow(headers) || PlainHeaders(headers)
  {
    hide *;
    if BlankRow(headers) || PlainHeaders(headers) {
      forall records: seq<Record>
        ensures Parse(Written(headers, records)) == Expected(headers, records)
      {
        if BlankRow(headers) {
          BlankHeadersComeBack(headers, records);
        } else {
          PlainHeadersComeBack(headers, records);
        }
      }
    } else if Parse(Written(headers, [])) == Expected(headers, []) {
      OnlyPlainHeadersComeBack(headers);
    }
  }

  // ------------------------------------------------------------ physical lines

  /** The line ends of a text, CR LF counted once: what a line reader splits at. */
  function LineEnds(s: string): nat
    decreases |s|
  {
    if s == "" then 0
    else if |s| > 1 && s[0] == '\r' && s[1] == '\n' then 1 + LineEnds(s[2..])
    else (if IsBreak(s[0]) then 1 else 0) + LineEnds(s[1..])
  }

  lemma {:induction false} LineEndsSplit(line: string, rest: string)
    ensures LineEnds(line + "\n" + rest) == LineEnds(line + "\n") + LineEnds(rest)
    decreases |line|
  {
    var s := line + "\n" + rest;
    var t := line + "\n";
    assert t + rest == s;
    if line == "" {
      assert s[1..] == rest && t[1..] == "";
    } else if s[0] == '\r' && s[1] == '\n' {
      if |line| == 1 {
        assert s[2..] == rest && t[2..] == "";
      } else {
        assert s[2..] == line[2..] + "\n" + rest && t[2..] == line[2..] + "\n";
        LineEndsSplit(line[2..], rest);
      }
    } else {
      assert s[1..] == line[1..] + "\n" + rest && t[1..] == line[1..] + "\n";
      LineEndsSplit(line[1..], rest);
    }
  }

  /** No line break in the line, except a CR right before the LF that ends it. */
  ghost predicate OneLine(line: string) {
    forall k :: 0 <= k < |line| && IsBreak(line[k]) ==> k == |line| - 1 && line[k] == '\r'
  }

  lemma {:induction false} OneLineEnd(line: string)
    ensures LineEnds(line + "\n") >= 1
    ensures LineEnds(line + "\n") == 1 <==> OneLine(line)
    decreases |line|
  {
    var t := line + "\n";
    if line == "" {
      assert t[1..] == "";
    } else if t[0] == '\r' && t[1] == '\n' {
      if |line| == 1 {
        assert t[2..] == "";
      } else {
        assert t[2..] == line[2..] + "\n";
        assert IsBreak(line[0]);
        OneLineEnd(line[2..]);
      }
    } else {
      assert t[1..] == line[1..] + "\n";
      OneLineEnd(line[1..]);
      assert OneLine(line) ==> OneLine(line[1..]);
      assert !IsBreak(line[0]) && OneLine(line[1..]) ==> OneLine(line) by {
        if !IsBreak(line[0]) && OneLine(line[1..]) {
          forall k | 0 <= k < |line| && IsBreak(line[k])
            ensures k == |line| - 1 && line[k] == '\r'
          {
            assert line[k] == line[1..][k - 1];
          }
        }
      }
    }
  }

  lemma JoinNoBreak(parts: seq<string>)
    requires forall part <- parts :: NoBreak(part)
    ensures NoBreak(Join(parts, ","))
  {
    forall c <- Join(parts, ",")
      ensures !IsBreak(c)
    {
      JoinCharacters(parts, c);
    }
  }

  lemma {:induction false} DoubledNoBreak(s: string)
    requires NoBreak(s)
    ensures NoBreak(Doubled(s))
  {
    if s != "" {
      assert s[0] in s;
      DoubledNoBreak(s[1..]);
    }
  }

  lemma RecordOnOneLine(headers: Row, record: Record)
    ensures NoBreak(PrintRecord(headers, record))
  {
    hide SanitizeText, Doubled;
    var parts := seq(|headers|, k requires 0 <= k < |headers| => EscapeSanitised(Field(record, headers[k])));
    forall part <- parts
      ensures NoBreak(part)
    {
      var k :| 0 <= k < |parts| && parts[k] == part;
      SanitizeIdempotent(Field(record, headers[k]));
      DoubledNoBreak(SanitizeText(Field(record, headers[k])));
    }
    JoinNoBreak(parts);
  }

  lemma {:induction false} RecordLinesCount(headers: Row, records: seq<Record>)
    ensures LineEnds(RecordLines(headers, records)) == |records|
  {
    hide PrintRecord;
    if records != [] {
      var line := PrintRecord(headers, records[0]);
      RecordOnOneLine(headers, records[0]);
      OneLineEnd(line);
      assert OneLine(line);
      LineEndsSplit(line, RecordLines(headers, records[1..]));
      RecordLinesCount(headers, records[1..]);
    }
  }

  /** The written text has one line for the header and one for each record, exactly when the header line is one line. */
  lemma WrittenLines(headers: Row, records: seq<Record>)
    ensures LineEnds(Written(headers, records)) == |records| + 1 <==> OneLine(Join(headers, ","))
  {
    hide LineEnds, RecordLines;
    LineEndsSplit(Join(headers, ","), RecordLines(headers, records));
    OneLineEnd(Join(headers, ","));
    RecordLinesCount(headers, records);
  }
}
