/** What the field scanner makes of a printed line, cell by cell, for every list of cells. */
module CsvLineRoundTrip {
  import opened Text
  import opened CsvPrinter
  import opened CsvParser

  predicate AllQuotes(c: string) {
    forall i | 0 <= i < |c| :: c[i] == Q
  }

  /** The field the scanner builds from a printed cell: greedy pairing gains a quote on an all-quote cell. */
  function RawField(c: string): string {
    if c != "" && AllQuotes(c) then c + [Q] else c
  }

  function ReadBack(c: string): string {
    CleanField(RawField(c))
  }

  function ReadBackAll(cells: seq<string>): (r: seq<string>)
    ensures |r| == |cells|
  {
    seq(|cells|, i requires 0 <= i < |cells| => ReadBack(cells[i]))
  }

  /** The text after a cell: the end of the line or the next comma. */
  predicate CellEnds(rest: string) {
    rest == "" || rest[0] == ','
  }

  lemma {:induction false} ScanPlain(c: string, rest: string, field: string)
    requires Plain(c)
    ensures ScanFields(c + rest, field, false) == ScanFields(rest, field + c, false)
    decreases |c|
  {
    if c == "" {
      assert c + rest == rest && field + c == field;
    } else {
      assert (c + rest)[1..] == c[1..] + rest;
      assert Plain(c[1..]);
      ScanPlain(c[1..], rest, field + [c[0]]);
      assert field + [c[0]] + c[1..] == field + c;
    }
  }

  /** Inside quotes every doubled quote is one quote and commas and line breaks are text. */
  lemma {:induction false} ScanInside(c: string, rest: string, field: string)
    requires CellEnds(rest)
    ensures ScanFields(DoubleQuotes(c) + [Q] + rest, field, true) == ScanFields(rest, field + c, false)
    decreases |c|
  {
    var s := DoubleQuotes(c) + [Q] + rest;
    if c == "" {
      assert s == [Q] + rest && s[1..] == rest && field + c == field;
    } else {
      var tail := DoubleQuotes(c[1..]) + [Q] + rest;
      if c[0] == Q {
        assert s == [Q, Q] + tail && s[2..] == tail;
      } else {
        assert s == [c[0]] + tail && s[1..] == tail;
      }
      ScanInside(c[1..], rest, field + [c[0]]);
      assert field + [c[0]] + c[1..] == field + c;
    }
  }

  /** Two quotes ahead read as one. */
  lemma QuotesPair(tail: string, field: string)
    ensures ScanFields([Q, Q] + tail, field, false) == ScanFields(tail, field + [Q], false)
  {
    assert ([Q, Q] + tail)[2..] == tail;
  }

  lemma QuotedOnce(c: string, rest: string)
    requires c != "" && c[0] == Q
    ensures [Q] + DoubleQuotes(c) + [Q] + rest == [Q, Q] + ([Q] + DoubleQuotes(c[1..]) + [Q] + rest)
  {
  }

  /** From outside: leading quotes pair up first, and the opening quote is whatever is left over. */
  lemma {:induction false} ScanQuoted(c: string, rest: string, field: string)
    requires CellEnds(rest)
    ensures ScanFields([Q] + DoubleQuotes(c) + [Q] + rest, field, false)
         == ScanFields(rest, field + (if AllQuotes(c) then c + [Q] else c), false)
    decreases |c|
  {
    if c == "" {
      QuotesPair(rest, field);
      assert [Q] + DoubleQuotes(c) + [Q] + rest == [Q, Q] + rest && c + [Q] == [Q];
    } else if c[0] == Q {
      QuotedOnce(c, rest);
      QuotesPair([Q] + DoubleQuotes(c[1..]) + [Q] + rest, field);
      ScanQuoted(c[1..], rest, field + [Q]);
      assert c == [Q] + c[1..];
      assert AllQuotes(c) <==> AllQuotes(c[1..]);
      assert field + [Q] + (c[1..] + [Q]) == field + (c + [Q]);
      assert field + [Q] + c[1..] == field + c;
    } else {
      QuoteOpens(c, rest, field);
      ScanInside(c, rest, field);
    }
  }

  lemma QuoteOpens(c: string, rest: string, field: string)
    requires c != "" && c[0] != Q
    ensures ScanFields([Q] + DoubleQuotes(c) + [Q] + rest, field, false)
         == ScanFields(DoubleQuotes(c) + [Q] + rest, field, true)
  {
    var s, tail := [Q] + DoubleQuotes(c) + [Q] + rest, DoubleQuotes(c) + [Q] + rest;
    assert s == [Q] + tail && s[1..] == tail && tail[0] == c[0];
  }

  lemma ScanCell(c: string, rest: string)
    requires CellEnds(rest)
    ensures ScanFields(EscapeCsvCell(c, false) + rest, "", false) == ScanFields(rest, RawField(c), false)
  {
    if Plain(c) {
      ScanPlain(c, rest, "");
      assert "" + c == c;
      if c != "" { assert !NeedsQuoting(c[0]); }
    } else {
      ScanQuoted(c, rest, "");
      assert EscapeCsvCell(c, false) + rest == [Q] + DoubleQuotes(c) + [Q] + rest;
      assert "" + RawField(c) == RawField(c);
    }
  }

  function RawAll(cells: seq<string>): (r: seq<string>)
    ensures |r| == |cells|
  {
    seq(|cells|, i requires 0 <= i < |cells| => RawField(cells[i]))
  }

  lemma RawFirst(cells: seq<string>)
    requires cells != []
    ensures RawAll(cells) == [RawField(cells[0])] + RawAll(cells[1..])
  {
  }

  lemma FirstCell(cells: seq<string>)
    requires |cells| > 1
    ensures ScanFields(CsvRow(cells, false), "", false)
      == [RawField(cells[0])] + ScanFields(CsvRow(cells[1..], false), "", false)
  {
    var first, row := EscapeCsvCell(cells[0], false), CsvRow(cells[1..], false);
    assert EscapeAll(cells, false)[1..] == EscapeAll(cells[1..], false);
    assert CsvRow(cells, false) == first + "," + row == first + ("," + row);
    ScanCell(cells[0], "," + row);
    assert ("," + row)[1..] == row;
  }

  lemma OnlyCell(cell: string)
    ensures ScanFields(CsvRow([cell], false), "", false) == [RawField(cell)]
  {
    var first := EscapeCsvCell(cell, false);
    ScanCell(cell, "");
    assert first + "" == first == CsvRow([cell], false);
  }

  lemma {:induction false} ScanRow(cells: seq<string>)
    requires cells != []
    ensures ScanFields(CsvRow(cells, false), "", false) == RawAll(cells)
    decreases |cells|
  {
    if |cells| == 1 {
      OnlyCell(cells[0]);
      assert cells == [cells[0]];
    } else {
      FirstCell(cells);
      ScanRow(cells[1..]);
      RawFirst(cells);
    }
  }

  /** Reading a printed line back, for every list of cells. */
  lemma ParsedRow(cells: seq<string>)
    ensures ParsedLine(CsvRow(cells, false)) == if cells == [] then [""] else ReadBackAll(cells)
  {
    if cells == [] {
      assert EscapeAll(cells, false) == [];
      assert CleanAll([""]) == [""];
    } else {
      ScanRow(cells);
      assert CleanAll(ScanFields(CsvRow(cells, false), "", false)) == ReadBackAll(cells);
    }
  }

  predicate WrappedInQuotes(c: string) {
    c != "" && c[0] == Q && c[|c| - 1] == Q
  }

  /** The cells that survive: trimmed, and not both starting and ending with a quote. */
  predicate Survives(c: string) {
    Trimmed(c) && !WrappedInQuotes(c)
  }

  lemma CleanFieldShrinks(f: string)
    ensures |CleanField(f)| <= |f|
    ensures !Trimmed(f) ==> |CleanField(f)| < |f|
    ensures Trimmed(f) && WrappedInQuotes(f) && |f| > 1 ==> |CleanField(f)| == |f| - 2
    ensures Trimmed(f) && !WrappedInQuotes(f) ==> CleanField(f) == f
  {
    TrimChangesExactly(f);
    TrimIsTrimmed(f);
  }

  /** A cell of quotes comes back one quote short. */
  lemma QuotesReadBack(c: string)
    requires c != "" && AllQuotes(c)
    ensures |ReadBack(c)| == |c| - 1 && !Survives(c)
  {
    CleanFieldShrinks(RawField(c));
    assert Trimmed(RawField(c)) && |RawField(c)| == |c| + 1;
  }

  lemma ReadBackExactly(c: string)
    ensures ReadBack(c) == c <==> Survives(c)
  {
    if c != "" && AllQuotes(c) {
      QuotesReadBack(c);
    } else {
      assert ReadBack(c) == CleanField(c);
      CleanFieldShrinks(c);
    }
  }

  /**
   The line round trip and its exact reach: printing a list of cells and parsing the line gives the
   cells back, embedded commas, line breaks and runs of quotes included, exactly when the list is not
   empty and every cell is trimmed and not wrapped in quotes.
   */
  lemma LineRoundTripExactly(cells: seq<string>)
    ensures ParsedLine(CsvRow(cells, false)) == cells
      <==> cells != [] && forall i | 0 <= i < |cells| :: Survives(cells[i])
  {
    ParsedRow(cells);
    forall i | 0 <= i < |cells| ensures ReadBack(cells[i]) == cells[i] <==> Survives(cells[i]) {
      ReadBackExactly(cells[i]);
    }
    if cells != [] {
      var back := ReadBackAll(cells);
      if back == cells {
        forall i | 0 <= i < |cells| ensures Survives(cells[i]) { assert back[i] == cells[i]; }
      }
      if forall i | 0 <= i < |cells| :: Survives(cells[i]) {
        assert forall i | 0 <= i < |cells| :: back[i] == cells[i];
        assert back == cells;
      }
    }
  }

  lemma SanitizedRow(cells: seq<string>)
    ensures CsvRow(cells, true) == CsvRow(SanitizeAll(cells), false)
  {
    assert EscapeAll(cells, true) == EscapeAll(SanitizeAll(cells), false);
  }

  function SanitizeAll(cells: seq<string>): (r: seq<string>)
    ensures |r| == |cells|
  {
    seq(|cells|, i requires 0 <= i < |cells| => SanitizeCsvInjection(cells[i]))
  }

  /** With injection protection on, surviving cells come back unchanged exactly when none reads as a formula. */
  lemma ProtectedLineRoundTripExactly(cells: seq<string>)
    requires cells != [] && forall i | 0 <= i < |cells| :: Survives(cells[i])
    ensures ParsedLine(CsvRow(cells, true)) == SanitizeAll(cells)
    ensures ParsedLine(CsvRow(cells, true)) == cells <==> forall i | 0 <= i < |cells| :: !FormulaLike(cells[i])
  {
    SanitizedRow(cells);
    var safe := SanitizeAll(cells);
    forall i | 0 <= i < |safe|
      ensures Survives(safe[i])
      ensures safe[i] == cells[i] <==> !FormulaLike(cells[i])
    {
      if FormulaLike(cells[i]) {
        assert safe[i] == "'" + cells[i] && safe[i][0] == '\'' && |safe[i]| == |cells[i]| + 1;
      }
    }
    LineRoundTripExactly(safe);
    if safe == cells {
      forall i | 0 <= i < |cells| ensures !FormulaLike(cells[i]) { assert safe[i] == cells[i]; }
    }
  }
}
