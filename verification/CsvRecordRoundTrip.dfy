/**
 Printing records and reading the whole text back. The outer line scan and the inner field scan
 have to agree on which commas and line breaks are inside quotes; for quote-free cells they do.
 */
module CsvRecordRoundTrip {
  import opened Text
  import opened CsvPrinter
  import opened CsvParser
  import opened CsvLineRoundTrip

  predicate QuoteFree(c: string) {
    forall i | 0 <= i < |c| :: c[i] != Q
  }

  predicate CleanCell(c: string) {
    Trimmed(c) && QuoteFree(c)
  }

  /** What may follow a cell in the text: the end, a comma or a line ending, never a quote. */
  predicate NoQuoteNext(rest: string) {
    rest == "" || rest[0] != Q
  }

  predicate LineEnding(ending: string) {
    ending == "\n" || ending == "\r\n"
  }

  lemma {:induction false} DoubleQuotesQuoteFree(c: string)
    requires QuoteFree(c)
    ensures DoubleQuotes(c) == c
  {
    if c != "" {
      assert QuoteFree(c[1..]);
      DoubleQuotesQuoteFree(c[1..]);
      assert [c[0]] + c[1..] == c;
    }
  }

  lemma {:induction false} LinesPlain(c: string, rest: string, line: string)
    requires Plain(c)
    ensures ScanLines(c + rest, line, false) == ScanLines(rest, line + c, false)
    decreases |c|
  {
    if c == "" {
      assert c + rest == rest && line + c == line;
    } else {
      assert !NeedsQuoting(c[0]) && (c + rest)[0] == c[0];
      assert (c + rest)[1..] == c[1..] + rest;
      assert Plain(c[1..]);
      LinesPlain(c[1..], rest, line + [c[0]]);
      assert line + [c[0]] + c[1..] == line + c;
    }
  }

  lemma {:induction false} LinesInside(c: string, rest: string, line: string)
    requires QuoteFree(c) && NoQuoteNext(rest)
    ensures ScanLines(c + [Q] + rest, line, true) == ScanLines(rest, line + c + [Q], false)
    decreases |c|
  {
    var s := c + [Q] + rest;
    if c == "" {
      assert s == [Q] + rest && s[1..] == rest && line + c + [Q] == line + [Q];
    } else {
      assert s[0] == c[0] && s[1..] == c[1..] + [Q] + rest;
      assert QuoteFree(c[1..]);
      LinesInside(c[1..], rest, line + [c[0]]);
      assert line + [c[0]] + c[1..] + [Q] == line + c + [Q];
    }
  }

  lemma LinesCell(c: string, rest: string, line: string)
    requires QuoteFree(c) && NoQuoteNext(rest)
    ensures ScanLines(EscapeCsvCell(c, false) + rest, line, false)
      == ScanLines(rest, line + EscapeCsvCell(c, false), false)
  {
    if Plain(c) {
      LinesPlain(c, rest, line);
    } else {
      DoubleQuotesQuoteFree(c);
      var s := [Q] + c + [Q] + rest;
      assert EscapeCsvCell(c, false) + rest == s;
      assert s[1..] == c + [Q] + rest && s[1] == c[0];
      LinesInside(c, rest, line + [Q]);
      assert line + [Q] + c + [Q] == line + EscapeCsvCell(c, false);
    }
  }

  lemma {:induction false} LinesRow(cells: seq<string>, rest: string, line: string)
    requires QuoteFreeCells(cells) && NoQuoteNext(rest)
    ensures ScanLines(CsvRow(cells, false) + rest, line, false) == ScanLines(rest, line + CsvRow(cells, false), false)
    decreases |cells|
  {
    var row := CsvRow(cells, false);
    if cells == [] {
      assert EscapeAll(cells, false) == [];
      assert row == "" && row + rest == rest && line + row == line;
    } else if |cells| == 1 {
      LinesCell(cells[0], rest, line);
    } else {
      var first := EscapeCsvCell(cells[0], false);
      var tail := CsvRow(cells[1..], false);
      RowSplits(cells, rest, line, first, tail);
      LinesCell(cells[0], "," + (tail + rest), line);
      LinesComma(tail + rest, line + first);
      LinesRow(cells[1..], rest, line + first + ",");
    }
  }

  /** A row of several cells is the first, a comma and the row of the others. */
  lemma RowSplits(cells: seq<string>, rest: string, line: string, first: string, tail: string)
    requires |cells| > 1 && first == EscapeCsvCell(cells[0], false) && tail == CsvRow(cells[1..], false)
    ensures CsvRow(cells, false) + rest == first + ("," + (tail + rest))
    ensures line + CsvRow(cells, false) == line + first + "," + tail
  {
    assert EscapeAll(cells, false)[1..] == EscapeAll(cells[1..], false);
    assert CsvRow(cells, false) == first + "," + tail;
    assert first + "," + tail + rest == first + ("," + (tail + rest));
    assert line + (first + "," + tail) == line + first + "," + tail;
  }

  lemma LinesComma(s: string, line: string)
    ensures ScanLines("," + s, line, false) == ScanLines(s, line + ",", false)
  {
    assert ("," + s)[1..] == s;
  }

  lemma EndingBreaks(ending: string, rest: string, line: string)
    requires LineEnding(ending)
    ensures ScanLines(ending + rest, line, false) == [line] + ScanLines(rest, "", false)
  {
    if ending == "\n" {
      assert (ending + rest)[1..] == rest;
    } else {
      assert (ending + rest)[0] == '\r' && (ending + rest)[1] == '\n' && (ending + rest)[2..] == rest;
    }
  }

  /** The line scan undoes the printer's line endings, whatever the first line starts with. */
  lemma {:induction false} LinesOfText(rows: seq<seq<string>>, ending: string, line: string)
    requires LineEnding(ending) && rows != []
    requires forall r | 0 <= r < |rows| :: QuoteFreeCells(rows[r])
    ensures var lines := Printed(rows);
      ScanLines(Terminated(lines, ending), line, false) == [line + lines[0]] + lines[1..]
    decreases |rows|
  {
    var lines := Printed(rows);
    var others := lines[1..];
    FirstLine(rows, ending, line);
    if |rows| == 1 {
      assert others == [];
    } else {
      assert others == Printed(rows[1..]);
      LinesOfText(rows[1..], ending, "");
      assert "" + others[0] == others[0];
      assert [others[0]] + others[1..] == others;
    }
  }

  lemma FirstLine(rows: seq<seq<string>>, ending: string, line: string)
    requires LineEnding(ending) && rows != [] && QuoteFreeCells(rows[0])
    ensures var lines := Printed(rows);
      ScanLines(Terminated(lines, ending), line, false)
      == [line + lines[0]] + ScanLines(Terminated(lines[1..], ending), "", false)
  {
    var lines := Printed(rows);
    var rest := Terminated(lines[1..], ending);
    assert Terminated(lines, ending) == lines[0] + (ending + rest);
    LinesRow(rows[0], ending + rest, line);
    EndingBreaks(ending, rest, line + lines[0]);
  }

  function Printed(rows: seq<seq<string>>): (lines: seq<string>)
    ensures |lines| == |rows|
  {
    seq(|rows|, i requires 0 <= i < |rows| => CsvRow(rows[i], false))
  }

  // ---------- lines back to records ----------

  ghost predicate Distinct(headers: seq<string>) {
    forall i, j | 0 <= i < j < |headers| :: headers[i] != headers[j]
  }

  predicate CleanCells(cells: seq<string>) {
    forall i | 0 <= i < |cells| :: CleanCell(cells[i])
  }

  predicate QuoteFreeCells(cells: seq<string>) {
    forall i | 0 <= i < |cells| :: QuoteFree(cells[i])
  }

  ghost predicate CleanHeaders(headers: seq<string>) {
    Distinct(headers) && CleanCells(headers)
  }

  ghost predicate CleanRow(headers: seq<string>, row: map<string, string>) {
    row.Keys == (set h | h in headers) && CleanCells(RowCells(headers, row))
  }

  ghost predicate CleanTable(headers: seq<string>, rows: seq<map<string, string>>) {
    CleanHeaders(headers) && forall r | 0 <= r < |rows| :: CleanRow(headers, rows[r])
  }

  lemma CleanCellsSurvive(cells: seq<string>)
    requires cells != [] && CleanCells(cells)
    ensures ParsedLine(CsvRow(cells, false)) == cells
  {
    forall i | 0 <= i < |cells| ensures Survives(cells[i]) {
      assert CleanCell(cells[i]);
      if cells[i] != "" { assert cells[i][0] != Q; }
    }
    LineRoundTripExactly(cells);
  }

  lemma {:induction false} RecordHas(headers: seq<string>, cells: seq<string>, n: nat)
    requires CleanHeaders(headers) && CleanCells(cells) && n <= |headers| == |cells|
    ensures forall i | 0 <= i < n ::
      headers[i] in Record(headers, cells, n) && Record(headers, cells, n)[headers[i]] == cells[i]
    ensures forall h | h in Record(headers, cells, n) :: h in headers
  {
    if n > 0 {
      RecordHas(headers, cells, n - 1);
      TrimChangesExactly(headers[n - 1]);
      TrimChangesExactly(cells[n - 1]);
      assert CleanCell(headers[n - 1]) && CleanCell(cells[n - 1]);
    }
  }

  lemma RecordAt(headers: seq<string>, row: map<string, string>, h: string)
    requires CleanHeaders(headers) && headers != [] && CleanRow(headers, row) && h in row
    ensures var record := Record(headers, RowCells(headers, row), |headers|); h in record && record[h] == row[h]
  {
    RecordHas(headers, RowCells(headers, row), |headers|);
    assert h in headers;
    var i :| 0 <= i < |headers| && headers[i] == h;
  }

  lemma RecordIsRow(headers: seq<string>, row: map<string, string>)
    requires CleanHeaders(headers) && headers != [] && CleanRow(headers, row)
    ensures Record(headers, ParsedLine(CsvRow(RowCells(headers, row), false)), |headers|) == row
  {
    var cells := RowCells(headers, row);
    CleanCellsSurvive(cells);
    RecordHas(headers, cells, |headers|);
    var record := Record(headers, cells, |headers|);
    forall h | h in row ensures h in record && record[h] == row[h] {
      RecordAt(headers, row, h);
    }
    assert record.Keys == row.Keys;
    assert record == row;
  }

  lemma NotBlank(line: string, i: nat)
    requires i < |line| && !IsSpace(line[i])
    ensures Trim(line) != ""
  {
    TrimEmptyExactly(line);
  }

  /** A printed record is skipped as blank exactly when there is one column and its cell is empty. */
  lemma BlankLineExactly(cells: seq<string>)
    requires cells != [] && CleanCells(cells)
    ensures Trim(CsvRow(cells, false)) == "" <==> |cells| == 1 && cells[0] == ""
  {
    var line := CsvRow(cells, false);
    var first := EscapeCsvCell(cells[0], false);
    assert CleanCell(cells[0]);
    if |cells| == 1 {
      assert line == first;
      if cells[0] != "" {
        assert first[0] == Q || first == cells[0];
        NotBlank(line, 0);
      }
    } else {
      assert line == first + "," + Join(EscapeAll(cells, false)[1..], ",");
      assert line[|first|] == ',';
      NotBlank(line, |first|);
    }
  }

  /** A one-column row prints a line the reader keeps exactly when its cell is not empty. */
  predicate Filled(headers: seq<string>, row: map<string, string>) {
    |headers| >= 2 || (headers != [] && headers[0] in row && row[headers[0]] != "")
  }

  lemma OneRecord(headers: seq<string>, row: map<string, string>)
    requires CleanHeaders(headers) && headers != [] && CleanRow(headers, row)
    ensures RecordsOf(headers, [CsvRow(RowCells(headers, row), false)]) == if Filled(headers, row) then [row] else []
  {
    var cells := RowCells(headers, row);
    var line := CsvRow(cells, false);
    assert headers[0] in row;
    BlankLineExactly(cells);
    RecordIsRow(headers, row);
    assert [line][..0] == [];
  }

  lemma RecordsSnoc(headers: seq<string>, init: seq<string>, last: string)
    ensures RecordsOf(headers, init + [last]) == RecordsOf(headers, init) + RecordsOf(headers, [last])
  {
    var lines := init + [last];
    assert lines[..|lines| - 1] == init && lines[|lines| - 1] == last;
    assert [last][..0] == [];
  }

  predicate AllFilled(headers: seq<string>, rows: seq<map<string, string>>) {
    forall r | 0 <= r < |rows| :: Filled(headers, rows[r])
  }

  lemma LastRowSplits(headers: seq<string>, rows: seq<map<string, string>>)
    requires rows != []
    ensures var n := |rows| - 1;
      && BodyLines(headers, rows, false)
        == BodyLines(headers, rows[..n], false) + [CsvRow(RowCells(headers, rows[n]), false)]
      && rows == rows[..n] + [rows[n]]
      && (AllFilled(headers, rows) <==> AllFilled(headers, rows[..n]) && Filled(headers, rows[n]))
  {
    var n := |rows| - 1;
    assert forall r | 0 <= r < n :: rows[..n][r] == rows[r];
    if AllFilled(headers, rows[..n]) && Filled(headers, rows[n]) {
      forall r | 0 <= r < |rows| ensures Filled(headers, rows[r]) {
        if r < n { assert rows[r] == rows[..n][r]; }
      }
    }
  }

  lemma {:induction false} RecordsOfBody(headers: seq<string>, rows: seq<map<string, string>>)
    requires CleanTable(headers, rows) && headers != []
    ensures var records := RecordsOf(headers, BodyLines(headers, rows, false));
      if AllFilled(headers, rows) then records == rows else |records| < |rows|
    decreases |rows|
  {
    if rows != [] {
      var init, last := rows[..|rows| - 1], rows[|rows| - 1];
      LastRowSplits(headers, rows);
      RecordsOfBody(headers, init);
      OneRecord(headers, last);
      RecordsSnoc(headers, BodyLines(headers, init, false), CsvRow(RowCells(headers, last), false));
    }
  }

  // ---------- the theorem ----------

  /** What the reader can tell apart: no record prints as a blank line, nor the header row as an empty one. */
  predicate Readable(headers: seq<string>, rows: seq<map<string, string>>, bom: bool) {
    || rows == []
    || (headers != [] && (bom || headers != [""]) && AllFilled(headers, rows))
  }

  /** A byte-order mark in front of the header line is white space to the reader. */
  lemma {:induction false} ScanPrefixed(s: string, prefix: string, field: string, inside: bool)
    ensures var fields := ScanFields(s, field, inside);
      ScanFields(s, prefix + field, inside) == [prefix + fields[0]] + fields[1..]
    decreases |s|
  {
    if s == "" {
    } else if s[0] == Q {
      if |s| > 1 && s[1] == Q {
        ScanPrefixed(s[2..], prefix, field + [Q], inside);
        assert prefix + field + [Q] == prefix + (field + [Q]);
      } else {
        ScanPrefixed(s[1..], prefix, field, !inside);
      }
    } else if s[0] == ',' && !inside {
    } else {
      ScanPrefixed(s[1..], prefix, field + [s[0]], inside);
      assert prefix + field + [s[0]] == prefix + (field + [s[0]]);
    }
  }

  lemma BomJoinsFirstField(line: string)
    ensures var fields := ScanFields(line, "", false);
      ScanFields([BOM] + line, "", false) == [[BOM] + fields[0]] + fields[1..]
  {
    var s := [BOM] + line;
    assert s[1..] == line && s[0] == BOM;
    ScanPrefixed(line, [BOM], "", false);
    assert [BOM] + "" == [BOM] && "" + [BOM] == [BOM];
  }

  lemma BomIsInvisible(line: string)
    ensures ParsedLine([BOM] + line) == ParsedLine(line)
  {
    var fields := ScanFields(line, "", false);
    var marked := ScanFields([BOM] + line, "", false);
    BomJoinsFirstField(line);
    TrimSkipsLeadingSpace(BOM, fields[0]);
    assert |marked| == |fields|;
    forall i | 0 <= i < |fields| ensures CleanField(marked[i]) == CleanField(fields[i]) {
      if i > 0 { assert marked[i] == fields[i]; }
    }
  }

  function TableCells(headers: seq<string>, rows: seq<map<string, string>>): (table: seq<seq<string>>)
    ensures |table| == |rows|
  {
    seq(|rows|, r requires 0 <= r < |rows| => RowCells(headers, rows[r]))
  }

  lemma PrintedTable(headers: seq<string>, rows: seq<map<string, string>>)
    requires CleanTable(headers, rows)
    ensures Printed([headers] + TableCells(headers, rows)) == [CsvRow(headers, false)] + BodyLines(headers, rows, false)
    ensures forall r | 0 <= r < |rows| + 1 :: QuoteFreeCells(([headers] + TableCells(headers, rows))[r])
  {
    var table := [headers] + TableCells(headers, rows);
    forall r | 0 <= r < |rows| + 1 ensures QuoteFreeCells(table[r]) {
      if r > 0 {
        assert CleanRow(headers, rows[r - 1]);
      }
      assert CleanCells(table[r]);
    }
  }

  /** A byte-order mark ahead of a text begins its first line. */
  lemma MarkBeginsLine(text: string, bom: bool)
    ensures var mark := if bom then [BOM] else ""; ScanLines(mark + text, "", false) == ScanLines(text, mark, false)
  {
    if bom {
      assert ([BOM] + text)[1..] == text;
      assert "" + [BOM] == [BOM];
    } else {
      assert "" + text == text;
    }
  }

  lemma TextLines(headers: seq<string>, rows: seq<map<string, string>>, bom: bool, ending: string)
    requires CleanTable(headers, rows) && LineEnding(ending)
    ensures ScanLines(CsvText(headers, headers, rows, CsvOptions(bom, ending, false)), "", false)
      == [(if bom then [BOM] else "") + CsvRow(headers, false)] + BodyLines(headers, rows, false)
  {
    var mark := if bom then [BOM] else "";
    var lines := [CsvRow(headers, false)] + BodyLines(headers, rows, false);
    var text := Terminated(lines, ending);
    PrintedTable(headers, rows);
    LinesOfText([headers] + TableCells(headers, rows), ending, mark);
    assert lines[1..] == BodyLines(headers, rows, false);
    MarkBeginsLine(text, bom);
  }

  /** The header line as the reader sees it. */
  lemma HeaderLine(headers: seq<string>, bom: bool)
    requires CleanHeaders(headers)
    ensures var first := (if bom then [BOM] else "") + CsvRow(headers, false);
      && (first == "" <==> !bom && (headers == [] || headers == [""]))
      && ParsedLine(first) == if headers == [] then ParsedLine("") else headers
  {
    var line := CsvRow(headers, false);
    BomIsInvisible(line);
    assert "" + line == line;
    if headers == [] {
      assert EscapeAll(headers, false) == [] && line == "";
    } else {
      CleanCellsSurvive(headers);
      BlankLineExactly(headers);
      assert Trim("") == "";
      if headers == [""] { assert EscapeAll(headers, false) == [""]; }
    }
  }

  /**
   The record round trip and its exact reach, with or without a byte-order mark: for distinct headers
   and cells that are trimmed and quote-free, printing and parsing gives the rows back exactly when
   the table is readable; two or more columns always are.
   */
  lemma RecordRoundTripExactly(headers: seq<string>, rows: seq<map<string, string>>, bom: bool, ending: string)
    requires CleanTable(headers, rows) && LineEnding(ending)
    ensures ParsedRecords(CsvText(headers, headers, rows, CsvOptions(bom, ending, false))) == rows
      <==> Readable(headers, rows, bom)
  {
    TextLines(headers, rows, bom, ending);
    HeaderLine(headers, bom);
    var lines := ScanLines(CsvText(headers, headers, rows, CsvOptions(bom, ending, false)), "", false);
    assert lines[1..] == BodyLines(headers, rows, false);
    if headers != [] {
      RecordsOfBody(headers, rows);
    } else {
      NoHeaders(rows);
    }
  }

  lemma {:induction false} NoHeaders(rows: seq<map<string, string>>)
    ensures RecordsOf(ParsedLine(""), BodyLines([], rows, false)) == []
    decreases |rows|
  {
    var lines := BodyLines([], rows, false);
    if rows != [] {
      var n := |rows| - 1;
      assert RowCells([], rows[n]) == [] && EscapeAll([], false) == [];
      assert lines[n] == "";
      assert lines[..n] == BodyLines([], rows[..n], false);
      NoHeaders(rows[..n]);
    }
  }
}
