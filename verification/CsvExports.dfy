/**
 The texts the application writes and reads: exports with the default options, texts whose last line is not
 ended, and what becomes of short, long and repeated columns.
 */
module CsvExports {
  import opened Text
  import opened CsvPrinter
  import opened CsvParser
  import opened CsvLineRoundTrip
  import opened CsvRecordRoundTrip

  // ---------- a last line without its ending ----------

  /** A last line that is empty is not a line. */
  function DropEmptyLast(lines: seq<string>): seq<string> {
    if lines != [] && lines[|lines| - 1] == "" then lines[..|lines| - 1] else lines
  }

  lemma {:induction false} LinesOfJoin(rows: seq<seq<string>>, ending: string, line: string)
    requires LineEnding(ending) && rows != []
    requires forall r | 0 <= r < |rows| :: QuoteFreeCells(rows[r])
    ensures var lines := Printed(rows);
      ScanLines(Join(lines, ending), line, false) == DropEmptyLast([line + lines[0]] + lines[1..])
    decreases |rows|
  {
    var lines := Printed(rows);
    if |rows| == 1 {
      LinesRow(rows[0], "", line);
      assert lines[0] + "" == lines[0] && lines == [lines[0]];
    } else {
      var others := lines[1..];
      FirstJoined(rows, ending, line);
      assert others == Printed(rows[1..]);
      LinesOfJoin(rows[1..], ending, "");
      DropsLater(line + lines[0], others);
    }
  }

  lemma JoinSplits(lines: seq<string>, ending: string)
    requires |lines| > 1
    ensures Join(lines, ending) == lines[0] + (ending + Join(lines[1..], ending))
  {
  }

  lemma FirstJoined(rows: seq<seq<string>>, ending: string, line: string)
    requires LineEnding(ending) && |rows| > 1 && QuoteFreeCells(rows[0])
    ensures var lines := Printed(rows);
      ScanLines(Join(lines, ending), line, false)
      == [line + lines[0]] + ScanLines(Join(lines[1..], ending), "", false)
  {
    var lines := Printed(rows);
    var tail := Join(lines[1..], ending);
    JoinSplits(lines, ending);
    LinesRow(rows[0], ending + tail, line);
    EndingBreaks(ending, tail, line + lines[0]);
  }

  lemma DropsLater(first: string, others: seq<string>)
    requires others != []
    ensures [first] + DropEmptyLast(["" + others[0]] + others[1..]) == DropEmptyLast([first] + others)
  {
    assert "" + others[0] == others[0] && [others[0]] + others[1..] == others;
  }

  lemma RecordsOfDropped(headers: seq<string>, lines: seq<string>)
    ensures RecordsOf(headers, DropEmptyLast(lines)) == RecordsOf(headers, lines)
  {
    assert Trim("") == "";
  }

  /** A text that scans to the lines of another, but for an empty last one, reads as the same records. */
  lemma DroppedReadsAlike(text: string, other: string, all: seq<string>)
    requires all == ScanLines(other, "", false) && all != [] && ScanLines(text, "", false) == DropEmptyLast(all)
    ensures ParsedRecords(text) == ParsedRecords(other)
  {
    if |all| > 1 {
      var rest := all[1..];
      assert rest[|rest| - 1] == all[|all| - 1];
      assert DropEmptyLast(all)[1..] == DropEmptyLast(rest) && DropEmptyLast(all)[0] == all[0];
      RecordsOfDropped(ParsedLine(all[0]), rest);
    } else {
      assert all[1..] == [];
    }
  }

  lemma SameTextWithoutEnding(a: string, b: string, ending: string)
    requires a + ending == b + ending
    ensures a == b
  {
    assert a == (a + ending)[..|a|] && b == (b + ending)[..|b|] && |a| == |b|;
  }

  lemma UnendedLines(headers: seq<string>, rows: seq<map<string, string>>, bom: bool, ending: string, text: string)
    requires CleanTable(headers, rows) && LineEnding(ending)
    requires text + ending == CsvText(headers, headers, rows, CsvOptions(bom, ending, false))
    ensures ScanLines(text, "", false) == DropEmptyLast(ScanLines(text + ending, "", false))
  {
    var mark := if bom then [BOM] else "";
    var table := [headers] + TableCells(headers, rows);
    var lines := [CsvRow(headers, false)] + BodyLines(headers, rows, false);
    PrintedTable(headers, rows);
    JoinTerminates(lines, ending);
    assert mark + (Join(lines, ending) + ending) == (mark + Join(lines, ending)) + ending;
    SameTextWithoutEnding(text, mark + Join(lines, ending), ending);
    MarkBeginsLine(Join(lines, ending), bom);
    LinesOfJoin(table, ending, mark);
    TextLines(headers, rows, bom, ending);
    assert lines[1..] == BodyLines(headers, rows, false);
  }

  /** The last line ending may be missing: the text without it reads as the same records. */
  lemma UnendedTextReadsAlike(headers: seq<string>, rows: seq<map<string, string>>, bom: bool, ending: string,
                              text: string)
    requires CleanTable(headers, rows) && LineEnding(ending)
    requires text + ending == CsvText(headers, headers, rows, CsvOptions(bom, ending, false))
    ensures ParsedRecords(text) == ParsedRecords(text + ending)
    ensures ParsedRecords(text) == rows <==> Readable(headers, rows, bom)
  {
    UnendedLines(headers, rows, bom, ending, text);
    RecordRoundTripExactly(headers, rows, bom, ending);
    TextLines(headers, rows, bom, ending);
    DroppedReadsAlike(text, text + ending, ScanLines(text + ending, "", false));
  }

  // ---------- lines of any text without quotes ----------

  /** A line of a text without quotes: a carriage return in it is text unless it comes last. */
  predicate BareLine(l: string) {
    (forall i | 0 <= i < |l| :: l[i] != Q && l[i] != '\n') && (l == "" || l[|l| - 1] != '\r')
  }

  predicate EndsOrBreaks(rest: string) {
    rest == "" || BreaksAt(rest, false)
  }

  lemma {:induction false} BareLineScanned(l: string, rest: string, line: string)
    requires BareLine(l) && EndsOrBreaks(rest)
    ensures ScanLines(l + rest, line, false) == ScanLines(rest, line + l, false)
    decreases |l|
  {
    if l == "" {
      assert l + rest == rest && line + l == line;
    } else {
      var tail := l[1..];
      assert (l + rest)[0] == l[0] && (l + rest)[1..] == tail + rest;
      assert !BreaksAt(l + rest, false);
      assert forall i | 0 <= i < |tail| :: tail[i] == l[i + 1];
      BareLineScanned(tail, rest, line + [l[0]]);
      assert line + [l[0]] + tail == line + l;
    }
  }

  /** Any lines without quotes, joined by either ending, are read back as they were, but for an empty last one. */
  lemma {:induction false} BareLinesReadBack(lines: seq<string>, ending: string)
    requires LineEnding(ending) && lines != [] && forall i | 0 <= i < |lines| :: BareLine(lines[i])
    ensures ScanLines(Join(lines, ending), "", false) == DropEmptyLast(lines)
    decreases |lines|
  {
    if |lines| == 1 {
      LastBareLine(lines[0]);
      assert lines == [lines[0]];
    } else {
      var first, others := lines[0], lines[1..];
      FirstBareLine(lines, ending);
      BareLinesReadBack(others, ending);
      DropsTail(first, others);
      assert [first] + others == lines;
    }
  }

  lemma DropsTail(first: string, others: seq<string>)
    requires others != []
    ensures [first] + DropEmptyLast(others) == DropEmptyLast([first] + others)
  {
  }

  lemma LastBareLine(line: string)
    requires BareLine(line)
    ensures ScanLines(line, "", false) == DropEmptyLast([line])
  {
    BareLineScanned(line, "", "");
    assert line + "" == line && "" + line == line;
  }

  lemma EndingIsBreak(ending: string, tail: string)
    requires LineEnding(ending)
    ensures EndsOrBreaks(ending + tail)
  {
    assert (ending + tail)[0] == ending[0];
    if ending == "\r\n" {
      assert (ending + tail)[1] == ending[1];
    }
  }

  lemma FirstBareLine(lines: seq<string>, ending: string)
    requires LineEnding(ending) && |lines| > 1 && BareLine(lines[0])
    ensures ScanLines(Join(lines, ending), "", false) == [lines[0]] + ScanLines(Join(lines[1..], ending), "", false)
  {
    JoinSplits(lines, ending);
    BareLineEnded(lines[0], ending, Join(lines[1..], ending));
  }

  lemma BareLineEnded(line: string, ending: string, tail: string)
    requires LineEnding(ending) && BareLine(line)
    ensures ScanLines(line + (ending + tail), "", false) == [line] + ScanLines(tail, "", false)
  {
    EndingIsBreak(ending, tail);
    BareLineScanned(line, ending + tail, "");
    assert "" + line == line;
    EndingBreaks(ending, tail, line);
  }

  // ---------- the columns of a record ----------

  /** `i` is the last of the first `n` columns with its name. */
  predicate LastNamed(headers: seq<string>, n: nat, i: nat) {
    i < n <= |headers| && forall j | i < j < n :: Trim(headers[j]) != Trim(headers[i])
  }

  lemma {:induction false} RecordKeys(headers: seq<string>, values: seq<string>, n: nat, h: string)
    requires n <= |headers|
    ensures h in Record(headers, values, n) <==> exists i :: 0 <= i < n && h == Trim(headers[i])
  {
    if n > 0 {
      RecordKeys(headers, values, n - 1, h);
    }
  }

  /**
   A record has a value for every column name, trimmed: the trimmed value at the name's last column, or nothing
   if the line has no value there. Values behind the last column are not looked at.
   */
  lemma {:induction false} RecordValue(headers: seq<string>, values: seq<string>, n: nat, i: nat)
    requires LastNamed(headers, n, i)
    ensures Trim(headers[i]) in Record(headers, values, n)
    ensures Record(headers, values, n)[Trim(headers[i])] == if i < |values| then Trim(values[i]) else ""
  {
    if i < n - 1 {
      RecordValue(headers, values, n - 1, i);
    }
  }

  /** One pair of quotes around a trimmed field goes; a lone quote is the field. */
  lemma CleanFieldExactly(field: string)
    ensures var t := Trim(field);
      CleanField(field) == if |t| >= 2 && t[0] == Q && t[|t| - 1] == Q then t[1..|t| - 1] else t
  {
  }

  // ---------- the export with its default options ----------

  function Protected(row: map<string, string>): map<string, string> {
    map h | h in row :: SanitizeCsvInjection(row[h])
  }

  function ProtectedRows(rows: seq<map<string, string>>): (safe: seq<map<string, string>>)
    ensures |safe| == |rows|
  {
    seq(|rows|, r requires 0 <= r < |rows| => Protected(rows[r]))
  }

  lemma ProtectedCells(headers: seq<string>, row: map<string, string>)
    ensures RowCells(headers, Protected(row)) == SanitizeAll(RowCells(headers, row))
  {
  }

  lemma ProtectedBody(headers: seq<string>, rows: seq<map<string, string>>)
    ensures BodyLines(headers, rows, true) == BodyLines(headers, ProtectedRows(rows), false)
  {
    forall r | 0 <= r < |rows|
      ensures CsvRow(RowCells(headers, rows[r]), true) == CsvRow(RowCells(headers, ProtectedRows(rows)[r]), false) {
      ProtectedCells(headers, rows[r]);
      SanitizedRow(RowCells(headers, rows[r]));
    }
  }

  lemma ProtectedCellClean(c: string)
    requires CleanCell(c)
    ensures CleanCell(SanitizeCsvInjection(c)) && (SanitizeCsvInjection(c) == "" <==> c == "")
  {
  }

  lemma ProtectedTableClean(headers: seq<string>, rows: seq<map<string, string>>)
    requires CleanTable(headers, rows)
    ensures CleanTable(headers, ProtectedRows(rows))
  {
    forall r | 0 <= r < |rows| ensures CleanRow(headers, ProtectedRows(rows)[r]) {
      assert CleanRow(headers, rows[r]);
      var cells := RowCells(headers, rows[r]);
      ProtectedCells(headers, rows[r]);
      forall i | 0 <= i < |cells| ensures CleanCell(SanitizeAll(cells)[i]) {
        ProtectedCellClean(cells[i]);
      }
      assert ProtectedRows(rows)[r].Keys == rows[r].Keys;
    }
  }

  lemma ProtectedReadable(headers: seq<string>, rows: seq<map<string, string>>)
    requires CleanTable(headers, rows) && headers != []
    ensures Readable(headers, ProtectedRows(rows), true) <==> Readable(headers, rows, true)
  {
    forall r | 0 <= r < |rows| ensures Filled(headers, ProtectedRows(rows)[r]) <==> Filled(headers, rows[r]) {
      assert CleanRow(headers, rows[r]);
      if headers[0] in rows[r] {
        assert CleanCell(RowCells(headers, rows[r])[0]);
        ProtectedCellClean(rows[r][headers[0]]);
      }
    }
  }

  /** As the application exports: with a byte-order mark, carriage return and line feed, and protected cells. */
  const DEFAULT_OPTIONS := CsvOptions(true, "\r\n", true)

  /**
   An export with the default options reads back row by row as the table with its formula-like cells protected,
   if every record prints as a line.
   */
  lemma ExportReadsBack(headers: seq<string>, rows: seq<map<string, string>>)
    requires CleanTable(headers, rows) && headers != [] && Readable(headers, rows, true)
    ensures var back := ParsedRecords(CsvText(headers, headers, rows, DEFAULT_OPTIONS));
      && |back| == |rows|
      && forall r, h | 0 <= r < |rows| && h in rows[r] ::
           h in back[r] && back[r][h] == SanitizeCsvInjection(rows[r][h])
  {
    ProtectedBody(headers, rows);
    ProtectedTableClean(headers, rows);
    ProtectedReadable(headers, rows);
    RecordRoundTripExactly(headers, ProtectedRows(rows), true, "\r\n");
  }

  // ---------- the format ----------

  /** Quotes are doubled one by one, and nothing else changes. */
  lemma {:induction false} DoubledOneByOne(a: string, c: char)
    ensures DoubleQuotes(a + [c]) == DoubleQuotes(a) + if c == '"' then ['"', '"'] else [c]
    decreases |a|
  {
    if a == "" {
      assert a + [c] == [c] && [c][1..] == "";
    } else {
      assert (a + [c])[1..] == a[1..] + [c];
      DoubledOneByOne(a[1..], c);
    }
  }

  /** A cell is put in quotes, its own doubled, exactly if it holds a quote, a comma or half of a line break. */
  lemma CellInFull(s: string)
    ensures EscapeCsvCell(s, false) ==
      if exists i :: 0 <= i < |s| && s[i] in {'"', ',', '\r', '\n'} then "\"" + DoubleQuotes(s) + "\"" else s
  {
  }

  /** Cells are a comma apart, and a row of one cell has none. */
  lemma RowInFull(cell: string, cells: seq<string>)
    ensures CsvRow([cell], false) == EscapeCsvCell(cell, false)
    ensures cells != [] ==> CsvRow([cell] + cells, false) == EscapeCsvCell(cell, false) + "," + CsvRow(cells, false)
  {
    assert EscapeAll([cell], false) == [EscapeCsvCell(cell, false)];
    assert EscapeAll([cell] + cells, false) == [EscapeCsvCell(cell, false)] + EscapeAll(cells, false);
  }

  /**
   The text: a byte-order mark if asked for, the header line, never protected, with the labels in place of the
   column names if there is one for each, and then the records; every line is ended.
   */
  lemma TextInFull(headers: seq<string>, labels: seq<string>, rows: seq<map<string, string>>, options: CsvOptions)
    ensures CsvText(headers, labels, rows, options) ==
      (if options.includeBom then "\U{FEFF}" else "")
      + (CsvRow(if |labels| == |headers| then labels else headers, false) + options.lineEnding
         + Terminated(BodyLines(headers, rows, options.protectFromInjection), options.lineEnding))
  {
    var body := BodyLines(headers, rows, options.protectFromInjection);
    var first := CsvRow(if |labels| == |headers| then labels else headers, false);
    assert ([first] + body)[1..] == body;
  }

  /** A record's cells are in the order of the columns; a column it has no value for is empty. */
  lemma CellsInFull(headers: seq<string>, row: map<string, string>, i: nat)
    requires i < |headers|
    ensures RowCells(headers, row)[i] == if headers[i] in row then row[headers[i]] else ""
  {
  }
}
