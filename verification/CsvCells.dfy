/** The CSV round trip cell by cell, and how quotes are read wherever they stand. */
module CsvCells {
  import opened Options
  import opened Text
  import opened Csv

  /** What the table of the round trip holds, cell by cell. */
  lemma CellsOfTable<T>(rows: seq<T>, columns: seq<Column<T>>)
    ensures var table := [Header(columns)] + Body(rows, columns);
      && |table| == |rows| + 1 && (forall row <- table :: |row| == |columns|)
      && (forall k :: 0 <= k < |columns| ==> table[0][k] == columns[k].header)
      && (forall i, k :: 0 <= i < |rows| && 0 <= k < |columns| ==>
        table[i + 1][k] == match columns[k].value(rows[i]) case Some(text) => text case None => "")
  {
  }

  /** A cell that is more than white space. */
  ghost predicate HasText(cell: string) {
    exists c <- cell :: !IsWhite(c)
  }

  ghost predicate RowHasText(row: Row) {
    exists cell <- row :: HasText(cell)
  }

  lemma BlankRowIff(row: Row)
    ensures BlankRow(row) <==> !RowHasText(row)
  {
    hide Trim, IsWhite;
    forall cell <- row
      ensures Trim(cell) == "" <==> !HasText(cell)
    {
      TrimTrims(cell);
    }
  }

  lemma {:induction false} NonBlankKeepsAll(table: Table)
    requires forall row <- table :: RowHasText(row)
    ensures NonBlank(table) == table
  {
    hide RowHasText, BlankRow;
    if table != [] {
      assert table[0] in table && forall row <- table[1..] :: row in table;
      BlankRowIff(table[0]);
      NonBlankKeepsAll(table[1..]);
      assert [table[0]] + table[1..] == table;
    }
  }

  /** Where every row has some text, the parse is the header and the rows, cell by cell. */
  lemma CellsComeBack<T>(rows: seq<T>, columns: seq<Column<T>>)
    requires forall row <- [Header(columns)] + Body(rows, columns) :: RowHasText(row)
    ensures var parse := Parse(ToCsv(rows, columns));
      && |parse| == |rows| + 1 && (forall row <- parse :: |row| == |columns|)
      && (forall k :: 0 <= k < |columns| ==> parse[0][k] == columns[k].header)
      && (forall i, k :: 0 <= i < |rows| && 0 <= k < |columns| ==>
        parse[i + 1][k] == match columns[k].value(rows[i]) case Some(text) => text case None => "")
  {
    var table := [Header(columns)] + Body(rows, columns);
    CsvRoundTrip(rows, columns);
    NonBlankKeepsAll(table);
    CellsOfTable(rows, columns);
  }

  /** The parse of a table keeps exactly the rows with some text. */
  lemma {:induction false} NonBlankMeans(table: Table)
    ensures forall row :: row in NonBlank(table) <==> row in table && RowHasText(row)
  {
    hide RowHasText, BlankRow;
    if table != [] {
      NonBlankMeans(table[1..]);
      BlankRowIff(table[0]);
      assert table == [table[0]] + table[1..];
    }
  }

  /** A cell is quoted exactly if it holds a quote, a comma, CR or LF. */
  lemma QuotedIff(cell: string)
    ensures EscapeCell(cell) == cell <==> '"' !in cell && ',' !in cell && '\r' !in cell && '\n' !in cell
    ensures EscapeCell(cell) != cell ==> EscapeCell(cell) == "\"" + Doubled(cell) + "\""
  {
    DoubledNotShorter(cell);
  }

  lemma {:induction false} DoubledNotShorter(s: string)
    ensures |Doubled(s)| >= |s|
  {
    if s != "" {
      DoubledNotShorter(s[1..]);
    }
  }

  // ------------------------------------------------------- quotes inside a field

  /** A part of a field: bare characters, or a quoted section, which may stand anywhere in the field. */
  datatype Part = Bare(text: string) | Quoted(text: string)

  ghost function Printed(parts: seq<Part>): string {
    if parts == [] then ""
    else
      var t := parts[0].text;
      (if parts[0].Bare? then t else "\"" + Doubled(t) + "\"") + Printed(parts[1..])
  }

  ghost function Content(parts: seq<Part>): string {
    if parts == [] then "" else parts[0].text + Content(parts[1..])
  }

  /** Bare parts need no quotes and are not empty, and a quoted part is followed by a bare one. */
  ghost predicate Separate(parts: seq<Part>) {
    && (forall p <- parts :: p.Bare? ==> p.text != "" && Plain(p.text))
    && forall k :: 0 < k < |parts| ==> parts[k - 1].Quoted? ==> parts[k].Bare?
  }

  lemma FirstOfParts(parts: seq<Part>, rest: string)
    requires Separate(parts) && NoQuoteFirst(rest) && (parts != [] ==> parts[0].Bare?)
    ensures NoQuoteFirst(Printed(parts) + rest)
  {
    if parts != [] {
      assert parts[0] in parts && Plain(parts[0].text) && !IsSpecial(parts[0].text[0]);
    }
  }

  lemma OpenQuote(rest: string, st: Scan)
    requires !st.inQuotes
    ensures ScanFrom("\"" + rest, st) == ScanFrom(rest, st.(inQuotes := true))
  {
    var t := "\"" + rest;
    assert t[1..] == rest;
    Turn(t, rest, st);
    hide ScanFrom;
  }

  lemma ScanQuoted(text: string, rest: string, st: Scan)
    requires !st.inQuotes && NoQuoteFirst(rest)
    ensures ScanFrom("\"" + Doubled(text) + "\"" + rest, st) == ScanFrom(rest, st.(field := st.field + text))
  {
    hide *;
    var tail := Doubled(text) + "\"" + rest;
    assert "\"" + Doubled(text) + "\"" + rest == "\"" + tail;
    OpenQuote(tail, st);
    ScanDoubled(text, rest, st.(inQuotes := true));
  }

  lemma PartsTail(parts: seq<Part>)
    requires Separate(parts) && parts != []
    ensures Separate(parts[1..]) && (parts[0].Bare? ==> Plain(parts[0].text))
    ensures parts[0].Quoted? && parts[1..] != [] ==> parts[1..][0].Bare?
  {
    assert parts[0] in parts && forall q <- parts[1..] :: q in parts;
  }

  /** Quoted and bare parts of a field are read as their contents, one after the other. */
  lemma {:induction false} ScanParts(parts: seq<Part>, rest: string, st: Scan)
    requires Separate(parts) && !st.inQuotes && NoQuoteFirst(rest)
    ensures ScanFrom(Printed(parts) + rest, st) == ScanFrom(rest, st.(field := st.field + Content(parts)))
    decreases |parts|
  {
    hide ScanFrom;
    if parts == [] {
      assert Printed(parts) + rest == rest && st.field + "" == st.field;
    } else {
      var p, tail := parts[0], parts[1..];
      var more := Printed(tail) + rest;
      PartsTail(parts);
      hide Separate, Plain;
      var next := st.(field := st.field + p.text);
      ScanParts(tail, rest, next);
      Assoc(st.field, p.text, Content(tail));
      if p.Bare? {
        ScanPlain(p.text, more, st);
        Assoc(p.text, Printed(tail), rest);
      } else {
        FirstOfParts(tail, rest);
        ScanQuoted(p.text, more, st);
        Assoc("\"" + Doubled(p.text) + "\"", Printed(tail), rest);
      }
    }
  }

  /** A quote that is never closed takes the rest of the text, commas and line breaks included. */
  lemma UnclosedQuote(before: string, rest: string)
    requires Plain(before) && '"' !in rest && before + rest != ""
    ensures ParseAll(before + "\"" + rest) == [[before + rest]]
  {
    var st := START.(field := before);
    assert before + "\"" + rest == before + ("\"" + rest);
    ScanPlain(before, "\"" + rest, START);
    assert "" + before == before;
    OpenQuote(rest, st);
    hide ScanFrom;
    ScanInQuotes(rest, st.(inQuotes := true));
    assert ScanFrom(before + "\"" + rest, START) == st.(field := before + rest, inQuotes := true);
    assert [] + [before + rest] == [before + rest];
  }

  lemma {:induction false} ScanInQuotes(text: string, st: Scan)
    requires '"' !in text && st.inQuotes
    ensures ScanFrom(text, st) == st.(field := st.field + text)
    decreases |text|
  {
    if text == "" {
      assert st.field + "" == st.field;
    } else {
      Turn(text, text[1..], st);
      hide ScanFrom;
      ScanInQuotes(text[1..], st.(field := st.field + [text[0]]));
      assert st.field + [text[0]] + text[1..] == st.field + text;
    }
  }
}
