/** What the CSV parser does with any text at all, malformed quoting included. */
module CsvAnyText {
  import opened Text
  import opened Csv

  /** The characters of a text that are neither quotes, commas nor line breaks. */
  function PlainPart(s: string): string {
    if s == "" then "" else (if IsSpecial(s[0]) then "" else [s[0]]) + PlainPart(s[1..])
  }

  function RowText(row: Row): string {
    if row == [] then "" else row[0] + RowText(row[1..])
  }

  function TableText(table: Table): string {
    if table == [] then "" else RowText(table[0]) + TableText(table[1..])
  }

  ghost function StateText(st: Scan): string {
    TableText(st.rows) + (RowText(st.row) + st.field)
  }

  lemma {:induction false} PlainPartConcat(a: string, b: string)
    ensures PlainPart(a + b) == PlainPart(a) + PlainPart(b)
  {
    if a == "" {
      assert a + b == b;
    } else {
      assert (a + b)[1..] == a[1..] + b;
      PlainPartConcat(a[1..], b);
      Assoc(if IsSpecial(a[0]) then "" else [a[0]], PlainPart(a[1..]), PlainPart(b));
    }
  }

  lemma {:induction false} RowTextSnoc(row: Row, cell: string)
    ensures RowText(row + [cell]) == RowText(row) + cell
  {
    if row == [] {
      assert [cell][1..] == [];
    } else {
      assert (row + [cell])[1..] == row[1..] + [cell];
      RowTextSnoc(row[1..], cell);
      Assoc(row[0], RowText(row[1..]), cell);
    }
  }

  lemma {:induction false} TableTextSnoc(table: Table, row: Row)
    ensures TableText(table + [row]) == TableText(table) + RowText(row)
  {
    hide RowText;
    if table == [] {
      assert [row][1..] == [];
    } else {
      assert (table + [row])[1..] == table[1..] + [row];
      TableTextSnoc(table[1..], row);
      Assoc(RowText(table[0]), TableText(table[1..]), RowText(row));
    }
  }

  lemma Nothing()
    ensures RowText([]) == "" && PlainPart("") == ""
    ensures forall s: string :: s + "" == s
  {
  }

  lemma EndCellText(st: Scan)
    ensures StateText(st.(row := st.row + [st.field], field := "")) == StateText(st)
    ensures StateText(Scan(st.rows + [st.row + [st.field]], [], "", false)) == StateText(st)
  {
    hide RowText, TableText;
    Nothing();
    RowTextSnoc(st.row, st.field);
    TableTextSnoc(st.rows, st.row + [st.field]);
  }

  lemma AddToField(st: Scan, s: string)
    ensures StateText(st.(field := st.field + s)) == StateText(st) + s
  {
    hide RowText, TableText;
    Assoc(RowText(st.row), st.field, s);
    Assoc(TableText(st.rows), RowText(st.row) + st.field, s);
  }

  /** Every turn moves at most one character of the text into the fields, and at most one of two quotes. */
  lemma StepText(text: string, st: Scan) returns (kept: string)
    requires text != ""
    ensures var (n, next) := Step(text, st);
      && StateText(next) == StateText(st) + kept
      && PlainPart(kept) == PlainPart(text[..n])
      && 2 * Quotes(kept) <= Quotes(text[..n])
  {
    hide RowText, TableText;
    var (n, next) := Step(text, st);
    Nothing();
    kept := "";
    if next.rows == st.rows && next.row == st.row {
      if next.field != st.field {
        kept := if n == 2 then "\"" else [text[0]];
        AddToField(st, kept);
      }
      assert next.field == st.field + kept;
    } else {
      EndCellText(st);
    }
    assert text[..n] == if n == 2 then [text[0], text[1]] else [text[0]];
    assert text[..n][1..] == if n == 2 then [text[1]] else "";
    assert n == 2 ==> text[..n][1..][1..] == "";
  }

  function Quotes(s: string): nat {
    if s == "" then 0 else (if s[0] == '"' then 1 else 0) + Quotes(s[1..])
  }

  lemma {:induction false} QuotesConcat(a: string, b: string)
    ensures Quotes(a + b) == Quotes(a) + Quotes(b)
  {
    if a == "" {
      assert a + b == b;
    } else {
      assert (a + b)[1..] == a[1..] + b;
      QuotesConcat(a[1..], b);
    }
  }

  lemma {:induction false} ScanText(text: string, st: Scan) returns (kept: string)
    ensures StateText(ScanFrom(text, st)) == StateText(st) + kept
    ensures PlainPart(kept) == PlainPart(text)
    ensures 2 * Quotes(kept) <= Quotes(text)
    decreases |text|
  {
    hide StateText, PlainPart;
    if text == "" {
      return "";
    }
    var (n, next) := Step(text, st);
    var head := StepText(text, st);
    Turn(text, text[n..], st);
    hide Step, ScanFrom;
    var tail := ScanText(text[n..], next);
    kept := head + tail;
    assert text == text[..n] + text[n..];
    PlainPartConcat(text[..n], text[n..]);
    PlainPartConcat(head, tail);
    QuotesConcat(text[..n], text[n..]);
    QuotesConcat(head, tail);
    Assoc(StateText(st), head, tail);
  }

  lemma FinishText(st: Scan)
    ensures TableText(Finish(st)) == StateText(st)
  {
    hide RowText, TableText;
    EndCellText(st);
    Nothing();
  }

  /**
   * A parse of any text, well formed or not, loses and reorders nothing but punctuation: in order, the cells hold
   * every character that is not a quote, comma or line break, and at most one quote for two of the text.
   */
  lemma ParseKeepsText(text: string)
    ensures PlainPart(TableText(ParseAll(text))) == PlainPart(text)
    ensures 2 * Quotes(TableText(ParseAll(text))) <= Quotes(text)
  {
    var kept := ScanText(text, START);
    FinishText(ScanFrom(text, START));
    assert StateText(START) == "";
    assert "" + kept == kept;
  }

  lemma {:induction false} NoQuotes(s: string)
    requires Quotes(s) == 0
    ensures '"' !in s
  {
    if s != "" {
      NoQuotes(s[1..]);
      assert s == [s[0]] + s[1..];
    }
  }

  ghost predicate PlainRow(row: Row) {
    forall cell <- row :: Plain(cell)
  }

  ghost predicate PlainState(st: Scan) {
    !st.inQuotes && Plain(st.field) && PlainRow(st.row) && forall row <- st.rows :: PlainRow(row)
  }

  lemma {:induction false} ScanQuoteFree(text: string, st: Scan)
    requires '"' !in text && PlainState(st)
    ensures PlainState(ScanFrom(text, st))
    decreases |text|
  {
    if text != "" {
      var (n, next) := Step(text, st);
      assert text[0] in text;
      Turn(text, text[n..], st);
      hide Step, ScanFrom;
      ScanQuoteFree(text[n..], next);
    }
  }

  /** Without a quote in the text, no cell can hold a comma or a line break. */
  lemma QuoteFreeCellsArePlain(text: string)
    requires '"' !in text
    ensures forall row <- ParseAll(text) :: PlainRow(row)
  {
    ScanQuoteFree(text, START);
  }

  lemma {:induction false} NonBlankFromTable(table: Table)
    ensures forall row <- NonBlank(table) :: row in table
    ensures Quotes(TableText(NonBlank(table))) <= Quotes(TableText(table))
  {
    if table != [] {
      hide BlankRow, Quotes, RowText;
      var rest := NonBlank(table[1..]);
      NonBlankFromTable(table[1..]);
      QuotesConcat(RowText(table[0]), TableText(table[1..]));
      QuotesConcat(RowText(table[0]), TableText(rest));
      assert !BlankRow(table[0]) ==> NonBlank(table)[1..] == rest;
      assert BlankRow(table[0]) ==> NonBlank(table) == rest;
    }
  }
}
