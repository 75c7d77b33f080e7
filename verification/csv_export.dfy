/** `exportToCSV`: the header and one row per record, every field quoted,
    fields joined by commas and rows by newlines. A reader for that layout
    is included to state what the export preserves. */
module CsvExport {
  import opened Optional
  import opened Transactions
  import Text

  const Header: seq<string> := ["Description", "Amount", "Date", "Category", "Type"]

  /** "Income" for a positive amount; zero and negative amounts are "Expense". */
  function TypeLabel(amount: int): string
  {
    if amount > 0 then "Income" else "Expense"
  }

  /** The fields of one record: description, amount, date, category and
      type. */
  function Fields(t: Transaction): (row: seq<string>)
    ensures |row| == 5
    ensures row[0] == t.description && row[2] == t.date && row[3] == t.category
    ensures t.amount >= 0 ==>
      |row[1]| > 0 && Text.AllDigits(row[1]) && Text.DigitsValue(row[1]) == t.amount && (|row[1]| > 1 ==> row[1][0] != '0')
    ensures t.amount < 0 ==>
      |row[1]| > 1 && row[1][0] == '-' && Text.AllDigits(row[1][1..]) && Text.DigitsValue(row[1][1..]) == -t.amount
      && row[1][1] != '0'
    ensures row[4] == "Income" <==> t.amount > 0
    ensures row[4] == "Expense" <==> t.amount <= 0
  {
    [t.description, Text.IntToString(t.amount), t.date, t.category, TypeLabel(t.amount)]
  }

  /** `[headers, ...csvData]`: the header, then one row per record in list
      order. */
  function Rows(ts: seq<Transaction>): (rows: seq<seq<string>>)
    ensures |rows| == |ts| + 1 && rows[0] == Header
    ensures forall i :: 0 <= i < |ts| ==> rows[i + 1] == Fields(ts[i])
  {
    [Header] + seq(|ts|, i requires 0 <= i < |ts| => Fields(ts[i]))
  }

  function Quote(field: string): string
  {
    "\"" + field + "\""
  }

  function QuoteAll(row: seq<string>): (r: seq<string>)
    ensures |r| == |row|
  {
    if |row| == 0 then [] else [Quote(row[0])] + QuoteAll(row[1..])
  }

  /** `row.map(field => `"${field}"`).join(',')` */
  function RowText(row: seq<string>): (r: string)
  {
    Text.Join(QuoteAll(row), ",")
  }

  function RowTexts(rows: seq<seq<string>>): (r: seq<string>)
    ensures |r| == |rows|
  {
    if |rows| == 0 then [] else [RowText(rows[0])] + RowTexts(rows[1..])
  }

  /** `.join('\n')` of the row texts. */
  function Render(rows: seq<seq<string>>): (r: string)
  {
    Text.Join(RowTexts(rows), "\n")
  }

  /** The file contents, or `None` when there is nothing to export (the page
      then shows an error instead of downloading). */
  function ExportToCsv(ts: seq<Transaction>): (r: Option<string>)
    ensures r.None? <==> |ts| == 0
  {
    if |ts| == 0 then None else Some(Render(Rows(ts)))
  }

  predicate QuoteFree(s: string)
  {
    '"' !in s
  }

  /** Splits `s` at its first double quote. */
  function SplitAtQuote(s: string): (r: Option<(string, string)>)
    ensures r.None? <==> QuoteFree(s)
    ensures r.Some? ==> s == r.value.0 + "\"" + r.value.1 && QuoteFree(r.value.0)
  {
    if |s| == 0 then None
    else if s[0] == '"' then Some(([], s[1..]))
    else
      match SplitAtQuote(s[1..])
      case None => None
      case Some((a, b)) => Some(([s[0]] + a, b))
  }

  /** A reader for text laid out as the export writes it: quoted fields
      separated by commas, rows separated by newlines. A field ends at the
      first quote after its opening one. */
  function ReadRows(s: string): (r: Option<seq<seq<string>>>)
    ensures r.Some? ==> |r.value| > 0 && |r.value[0]| > 0
    decreases |s|
  {
    if |s| == 0 || s[0] != '"' then None
    else
      match SplitAtQuote(s[1..])
      case None => None
      case Some((field, rest)) =>
        if |rest| == 0 then Some([[field]])
        else if rest[0] == ',' then
          match ReadRows(rest[1..])
          case None => None
          case Some(rows) => Some([[field] + rows[0]] + rows[1..])
        else if rest[0] == '\n' then
          match ReadRows(rest[1..])
          case None => None
          case Some(rows) => Some([[field]] + rows)
        else None
  }

  lemma SplitAtQuoteOf(a: string, b: string)
    requires QuoteFree(a)
    ensures SplitAtQuote(a + "\"" + b) == Some((a, b))
    decreases |a|
  {
    if |a| > 0 {
      assert (a + "\"" + b)[1..] == a[1..] + "\"" + b;
      SplitAtQuoteOf(a[1..], b);
      assert [a[0]] + a[1..] == a;
    } else {
      assert a + "\"" + b == "\"" + b;
    }
  }

  /** A row the reader gets back intact: at least one field, no field
      holding a double quote. */
  predicate RowReadable(row: seq<string>)
  {
    |row| > 0 && forall j :: 0 <= j < |row| ==> QuoteFree(row[j])
  }

  predicate Readable(rows: seq<seq<string>>)
  {
    forall i :: 0 <= i < |rows| ==> RowReadable(rows[i])
  }

  /** A quoted field at the end of the text is a last row of one field. */
  lemma ReadFieldAtEnd(f: string)
    requires QuoteFree(f)
    ensures ReadRows(Quote(f)) == Some([[f]])
  {
    assert Quote(f)[1..] == f + "\"" + [];
    SplitAtQuoteOf(f, []);
  }

  /** A quoted field before a comma starts the first row read after it. */
  lemma ReadFieldBeforeComma(f: string, u: string, rows: seq<seq<string>>)
    requires QuoteFree(f) && ReadRows(u) == Some(rows)
    ensures ReadRows(Quote(f) + "," + u) == Some([[f] + rows[0]] + rows[1..])
  {
    var s := Quote(f) + "," + u;
    var rest := "," + u;
    assert s[0] == '"';
    assert s[1..] == f + "\"" + rest;
    SplitAtQuoteOf(f, rest);
    assert SplitAtQuote(s[1..]) == Some((f, rest));
    assert rest[0] == ',' && rest[1..] == u;
  }

  /** A quoted field before a newline is a row of its own. */
  lemma ReadFieldBeforeNewline(f: string, u: string, rows: seq<seq<string>>)
    requires QuoteFree(f) && ReadRows(u) == Some(rows)
    ensures ReadRows(Quote(f) + "\n" + u) == Some([[f]] + rows)
  {
    var s := Quote(f) + "\n" + u;
    var rest := "\n" + u;
    assert s[0] == '"';
    assert s[1..] == f + "\"" + rest;
    SplitAtQuoteOf(f, rest);
    assert SplitAtQuote(s[1..]) == Some((f, rest));
    assert rest[0] == '\n' && rest[1..] == u;
  }

  /** The text of a row of two or more fields: the first one quoted, a
      comma, and the text of the others. */
  lemma RowTextCons(row: seq<string>)
    requires |row| > 1
    ensures RowText(row) == Quote(row[0]) + "," + RowText(row[1..])
  {
  }

  /** The export text is the first row's text, then a newline and the text
      of the remaining rows when there are any. */
  lemma RenderCons(rows: seq<seq<string>>)
    requires |rows| > 0
    ensures |rows| == 1 ==> Render(rows) == RowText(rows[0])
    ensures |rows| > 1 ==> Render(rows) == RowText(rows[0]) + "\n" + Render(rows[1..])
  {
    var texts := RowTexts(rows);
    assert texts[0] == RowText(rows[0]);
    if |rows| > 1 {
      assert texts[1..] == RowTexts(rows[1..]);
    }
  }

  lemma RowReadableTail(row: seq<string>)
    requires RowReadable(row) && |row| > 1
    ensures RowReadable(row[1..]) && QuoteFree(row[0])
  {
  }

  /** Putting a field in front of the first row read. */
  lemma PrependField(f: string, fs: seq<string>, rows: seq<seq<string>>, row: seq<string>)
    requires |row| > 1 && row[0] == f && row[1..] == fs
    ensures [[f] + ([fs] + rows)[0]] + ([fs] + rows)[1..] == [row] + rows
  {
    assert ([fs] + rows)[0] == fs;
    assert ([fs] + rows)[1..] == rows;
    assert [f] + fs == row;
  }

  /** The last row reads back field by field. */
  lemma {:induction false} ReadLastRow(row: seq<string>)
    requires RowReadable(row)
    ensures ReadRows(RowText(row)) == Some([row])
    decreases |row|
  {
    if |row| == 1 {
      assert RowText(row) == Quote(row[0]);
      assert QuoteFree(row[0]);
      ReadFieldAtEnd(row[0]);
      assert [row[0]] == row;
    } else {
      var f, fs := row[0], row[1..];
      RowTextCons(row);
      RowReadableTail(row);
      ReadLastRow(fs);
      var read := [fs] + [];
      assert read == [fs];
      ReadFieldBeforeComma(f, RowText(fs), read);
      PrependField(f, fs, [], row);
      assert [row] + [] == [row];
    }
  }

  /** A row followed by a newline and readable text reads back as that row
      followed by what the text reads as. */
  lemma {:induction false} ReadRowBefore(row: seq<string>, u: string, rows: seq<seq<string>>)
    requires RowReadable(row)
    requires ReadRows(u) == Some(rows)
    ensures ReadRows(RowText(row) + "\n" + u) == Some([row] + rows)
    decreases |row|
  {
    if |row| == 1 {
      assert RowText(row) == Quote(row[0]);
      assert QuoteFree(row[0]);
      ReadFieldBeforeNewline(row[0], u, rows);
      assert [row[0]] == row;
    } else {
      var f, fs := row[0], row[1..];
      RowReadableTail(row);
      ReadRowBefore(fs, u, rows);
      assert RowText(row) + "\n" + u == Quote(f) + "," + (RowText(fs) + "\n" + u) by {
        RowTextCons(row);
      }
      var read := [fs] + rows;
      ReadFieldBeforeComma(f, RowText(fs) + "\n" + u, read);
      PrependField(f, fs, rows, row);
    }
  }

  /** Rendered rows of quote-free fields read back exactly. */
  lemma {:induction false} ReadRender(rows: seq<seq<string>>)
    requires |rows| > 0 && Readable(rows)
    ensures ReadRows(Render(rows)) == Some(rows)
    decreases |rows|
  {
    var first := rows[0];
    assert RowReadable(first);
    RenderCons(rows);
    if |rows| == 1 {
      ReadLastRow(first);
      assert rows == [first];
    } else {
      var rest := rows[1..];
      assert Readable(rest) by {
        assert forall i :: 0 <= i < |rest| ==> rest[i] == rows[i + 1];
      }
      ReadRender(rest);
      ReadRowBefore(first, Render(rest), rest);
      assert [first] + rest == rows;
    }
  }

  lemma HeaderReadable()
    ensures RowReadable(Header)
  {
  }

  lemma FieldsReadable(t: Transaction)
    requires QuoteFree(t.description) && QuoteFree(t.category) && QuoteFree(t.date)
    ensures RowReadable(Fields(t))
  {
  }

  /** Every field of the export is free of double quotes when the
      descriptions, categories and rendered dates are. */
  lemma ExportReadable(ts: seq<Transaction>)
    requires forall t :: t in ts ==>
      QuoteFree(t.description) && QuoteFree(t.category) && QuoteFree(t.date)
    ensures Readable(Rows(ts))
  {
    var rows := Rows(ts);
    HeaderReadable();
    forall i | 1 <= i < |rows|
      ensures RowReadable(rows[i])
    {
      assert ts[i - 1] in ts;
      FieldsReadable(ts[i - 1]);
    }
  }

  /** The exported text reads back as the header followed by one row per
      record, in list order, whenever no description, category or date
      holds a double quote. */
  lemma ExportReadsBack(ts: seq<Transaction>)
    requires |ts| > 0
    requires forall t :: t in ts ==>
      QuoteFree(t.description) && QuoteFree(t.category) && QuoteFree(t.date)
    ensures ExportToCsv(ts).Some?
    ensures ReadRows(ExportToCsv(ts).value) == Some(Rows(ts))
  {
    ExportReadable(ts);
    ReadRender(Rows(ts));
  }

  /** Whatever the reader returns is rows of at least one field, none of
      them holding a double quote. */
  lemma {:induction false} ReadRowsQuoteFree(s: string)
    ensures ReadRows(s).Some? ==> Readable(ReadRows(s).value)
    decreases |s|
  {
    if |s| > 0 && s[0] == '"' {
      match SplitAtQuote(s[1..])
      case None =>
      case Some((field, rest)) =>
        if |rest| > 0 && (rest[0] == ',' || rest[0] == '\n') {
          ReadRowsQuoteFree(rest[1..]);
        }
    }
  }

  /** A description, date or category holding a double quote is written
      unescaped, and the export then no longer reads back as its rows. */
  lemma QuotedFieldBreaksReadBack(ts: seq<Transaction>, k: int)
    requires 0 <= k < |ts|
    requires !QuoteFree(ts[k].description) || !QuoteFree(ts[k].date) || !QuoteFree(ts[k].category)
    ensures ExportToCsv(ts).Some?
    ensures ReadRows(ExportToCsv(ts).value) != Some(Rows(ts))
  {
    var text := ExportToCsv(ts).value;
    ReadRowsQuoteFree(text);
    var row := Rows(ts)[k + 1];
    assert row == Fields(ts[k]);
    assert !QuoteFree(row[0]) || !QuoteFree(row[2]) || !QuoteFree(row[3]);
    assert !RowReadable(row);
  }

  /** The export reads back as its rows exactly when no description, date or
      category holds a double quote. */
  lemma ExportReadsBackExactly(ts: seq<Transaction>)
    requires |ts| > 0
    ensures ReadRows(ExportToCsv(ts).value) == Some(Rows(ts)) <==>
      forall t :: t in ts ==> QuoteFree(t.description) && QuoteFree(t.category) && QuoteFree(t.date)
  {
    if forall t :: t in ts ==> QuoteFree(t.description) && QuoteFree(t.category) && QuoteFree(t.date) {
      ExportReadsBack(ts);
    } else {
      var t :| t in ts && !(QuoteFree(t.description) && QuoteFree(t.category) && QuoteFree(t.date));
      var k :| 0 <= k < |ts| && ts[k] == t;
      QuotedFieldBreaksReadBack(ts, k);
    }
  }

  /** Fields are written without escaping, so a description holding a double
      quote does not read back: the field ends at that quote. */
  lemma QuoteInFieldIsNotEscaped()
    ensures ReadRows(Render([["5\" screen"]])) == None
  {
    var row := ["5\" screen"];
    assert Render([row]) == Quote(row[0]);
    var s := Quote(row[0]);
    assert s[1..] == "5" + "\"" + " screen\"";
    SplitAtQuoteOf("5", " screen\"");
  }

}
