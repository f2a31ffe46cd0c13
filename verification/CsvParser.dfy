/**
 The hand-written CSV reader: a field scanner over one line and a line scanner over the whole text.
 Both are index loops; each is proved equal to a recursive scan of what is left to read.
 */
module CsvParser {
  import opened Text

  const Q: char := '"'

  // ---------- one line ----------

  /** The fields still to come: `field` is the one being built, `inside` the quote state. */
  function ScanFields(s: string, field: string, inside: bool): (fields: seq<string>)
    ensures fields != []
    decreases |s|
  {
    if s == "" then [field]
    else if s[0] == Q then
      if |s| > 1 && s[1] == Q then ScanFields(s[2..], field + [Q], inside)
      else ScanFields(s[1..], field, !inside)
    else if s[0] == ',' && !inside then [field] + ScanFields(s[1..], "", inside)
    else ScanFields(s[1..], field + [s[0]], inside)
  }

  /** Trim, and drop one pair of quotes still standing around the field. */
  function CleanField(field: string): string {
    var t := Trim(field);
    if t != "" && t[0] == Q && t[|t| - 1] == Q then Substring(t, 1, |t| - 1) else t
  }

  function CleanAll(fields: seq<string>): (r: seq<string>)
    ensures |r| == |fields|
  {
    seq(|fields|, i requires 0 <= i < |fields| => CleanField(fields[i]))
  }

  function ParsedLine(line: string): seq<string> {
    CleanAll(ScanFields(line, "", false))
  }

  /** With `done` read and `field` begun, the rest of the scan gives `all`. */
  predicate FieldsLeft(done: seq<string>, s: string, field: string, inside: bool, all: seq<string>) {
    done + ScanFields(s, field, inside) == all
  }

  /** One step of the scan. */
  lemma FieldsGoOn(done: seq<string>, s: string, field: string, inside: bool, all: seq<string>)
    requires s != "" && FieldsLeft(done, s, field, inside, all)
    ensures s[0] == Q ==>
      if |s| > 1 && s[1] == Q then FieldsLeft(done, s[2..], field + [Q], inside, all)
      else FieldsLeft(done, s[1..], field, !inside, all)
    ensures s[0] == ',' && !inside ==> FieldsLeft(done + [field], s[1..], "", inside, all)
    ensures s[0] != Q && !(s[0] == ',' && !inside) ==> FieldsLeft(done, s[1..], field + [s[0]], inside, all)
  {
    if s[0] == ',' && !inside {
      assert done + ([field] + ScanFields(s[1..], "", inside)) == (done + [field]) + ScanFields(s[1..], "", inside);
    }
  }

  /** The index loop over one line, up to the cleaning of its fields. */
  method SplitFields(line: string) returns (result: seq<string>)
    ensures result == ScanFields(line, "", false)
  {
    result := [];
    var currentField := "";
    var insideQuotes := false;
    var i := 0;
    ghost var all := ScanFields(line, "", false);
    while i < |line|
      invariant 0 <= i <= |line|
      invariant FieldsLeft(result, line[i..], currentField, insideQuotes, all)
    {
      var c := line[i];
      ghost var rest := line[i..];
      FieldsGoOn(result, rest, currentField, insideQuotes, all);
      assert line[i + 1..] == rest[1..];
      if c == Q {
        if i + 1 < |line| && line[i + 1] == Q {
          assert line[i + 2..] == rest[2..];
          currentField := currentField + [Q];
          i := i + 1;
        } else {
          insideQuotes := !insideQuotes;
        }
      } else if c == ',' && !insideQuotes {
        result := result + [currentField];
        currentField := "";
      } else {
        currentField := currentField + [c];
      }
      i := i + 1;
    }
    assert line[i..] == "";
    result := result + [currentField];
  }

  method ParseCsvLine(line: string) returns (fields: seq<string>)
    ensures fields == ParsedLine(line)
  {
    var result := SplitFields(line);
    fields := [];
    for k := 0 to |result|
      invariant fields == CleanAll(result)[..k]
    {
      fields := fields + [CleanField(result[k])];
    }
  }

  // ---------- the whole text ----------

  /** The lines still to come; quotes are un-doubled but kept, and a last line is dropped when empty. */
  function ScanLines(s: string, line: string, inside: bool): seq<string>
    decreases |s|
  {
    if s == "" then (if line == "" then [] else [line])
    else if s[0] == Q then
      if |s| > 1 && s[1] == Q then ScanLines(s[2..], line + [Q], inside)
      else ScanLines(s[1..], line + [Q], !inside)
    else if s[0] == '\n' && !inside then [line] + ScanLines(s[1..], "", inside)
    else if s[0] == '\r' && |s| > 1 && s[1] == '\n' && !inside then [line] + ScanLines(s[2..], "", inside)
    else ScanLines(s[1..], line + [s[0]], inside)
  }

  /** A missing value reads as empty, a surplus one is not looked at. */
  function ValueAt(values: seq<string>, i: nat): string {
    if i < |values| then Trim(values[i]) else ""
  }

  /** Later headers of the same name win. */
  function Record(headers: seq<string>, values: seq<string>, n: nat): map<string, string>
    requires n <= |headers|
  {
    if n == 0 then map[]
    else Record(headers, values, n - 1)[Trim(headers[n - 1]) := ValueAt(values, n - 1)]
  }

  function RecordsOf(headers: seq<string>, lines: seq<string>): seq<map<string, string>> {
    if lines == [] then []
    else
      var last := lines[|lines| - 1];
      RecordsOf(headers, lines[..|lines| - 1])
      + if Trim(last) == "" then [] else [Record(headers, ParsedLine(last), |headers|)]
  }

  function ParsedRecords(csv: string): seq<map<string, string>> {
    var lines := ScanLines(csv, "", false);
    if lines == [] || lines[0] == "" then [] else RecordsOf(ParsedLine(lines[0]), lines[1..])
  }

  /** With `done` read and `line` begun, the rest of the scan gives `all`. */
  predicate LinesLeft(done: seq<string>, s: string, line: string, inside: bool, all: seq<string>) {
    done + ScanLines(s, line, inside) == all
  }

  /** A line ends here, with one character or two. */
  predicate BreaksAt(s: string, inside: bool) {
    s != "" && !inside && (s[0] == '\n' || (s[0] == '\r' && |s| > 1 && s[1] == '\n'))
  }

  /** One step of the scan that ends a line. */
  lemma LineEnds(done: seq<string>, s: string, line: string, inside: bool, all: seq<string>)
    requires BreaksAt(s, inside) && LinesLeft(done, s, line, inside, all)
    ensures LinesLeft(done + [line], s[(if s[0] == '\n' then 1 else 2)..], "", inside, all)
  {
    var tail := ScanLines(s[(if s[0] == '\n' then 1 else 2)..], "", inside);
    assert done + ([line] + tail) == (done + [line]) + tail;
  }

  /** One step of the scan within a line. */
  lemma LineGoesOn(done: seq<string>, s: string, line: string, inside: bool, all: seq<string>)
    requires s != "" && !BreaksAt(s, inside) && LinesLeft(done, s, line, inside, all)
    ensures s[0] == Q ==>
      if |s| > 1 && s[1] == Q then LinesLeft(done, s[2..], line + [Q], inside, all)
      else LinesLeft(done, s[1..], line + [Q], !inside, all)
    ensures s[0] != Q ==> LinesLeft(done, s[1..], line + [s[0]], inside, all)
  {
  }

  method SplitLines(csv: string) returns (lines: seq<string>)
    ensures lines == ScanLines(csv, "", false)
  {
    lines := [];
    var currentLine := "";
    var insideQuotes := false;
    var i := 0;
    ghost var all := ScanLines(csv, "", false);
    while i < |csv|
      invariant 0 <= i <= |csv|
      invariant LinesLeft(lines, csv[i..], currentLine, insideQuotes, all)
    {
      var c := csv[i];
      ghost var rest := csv[i..];
      assert csv[i + 1..] == rest[1..] && (i + 1 < |csv| ==> csv[i + 2..] == rest[2..]);
      if BreaksAt(rest, insideQuotes) {
        LineEnds(lines, rest, currentLine, insideQuotes, all);
      } else {
        LineGoesOn(lines, rest, currentLine, insideQuotes, all);
      }
      if c == Q {
        if i + 1 < |csv| && csv[i + 1] == Q {
          currentLine := currentLine + [Q];
          i := i + 1;
        } else {
          insideQuotes := !insideQuotes;
          currentLine := currentLine + [c];
        }
      } else if c == '\n' && !insideQuotes {
        lines := lines + [currentLine];
        currentLine := "";
      } else if c == '\r' && i + 1 < |csv| && csv[i + 1] == '\n' && !insideQuotes {
        lines := lines + [currentLine];
        currentLine := "";
        i := i + 1;
      } else {
        currentLine := currentLine + [c];
      }
      i := i + 1;
    }
    assert csv[i..] == "";
    if currentLine != "" {
      lines := lines + [currentLine];
    }
  }

  /** Pad with empty values or cut down to the number of headers. */
  method FitValues(parsed: seq<string>, n: nat) returns (values: seq<string>)
    ensures |values| == n
    ensures forall j | 0 <= j < n :: Trim(values[j]) == ValueAt(parsed, j)
  {
    values := parsed;
    while |values| < n
      invariant |parsed| <= |values| && (|values| <= n || values == parsed)
      invariant forall j | 0 <= j < |parsed| :: values[j] == parsed[j]
      invariant forall j | |parsed| <= j < |values| :: values[j] == ""
    {
      values := values + [""];
    }
    if |values| > n {
      values := values[..n];
    }
  }

  method BuildRecord(headers: seq<string>, parsed: seq<string>) returns (record: map<string, string>)
    ensures record == Record(headers, parsed, |headers|)
  {
    var values := FitValues(parsed, |headers|);
    record := map[];
    for k := 0 to |headers|
      invariant record == Record(headers, parsed, k)
    {
      record := record[Trim(headers[k]) := if values[k] != "" then Trim(values[k]) else ""];
    }
  }

  method ParseCsvRecords(csv: string) returns (records: seq<map<string, string>>)
    ensures records == ParsedRecords(csv)
  {
    var lines := SplitLines(csv);
    if |lines| == 0 || lines[0] == "" {
      return [];
    }
    var headers := ParseCsvLine(lines[0]);
    records := [];
    ghost var body := lines[1..];
    for i := 1 to |lines|
      invariant records == RecordsOf(headers, body[..i - 1])
    {
      assert body[..i][..i - 1] == body[..i - 1];
      if Trim(lines[i]) != "" {
        var values := ParseCsvLine(lines[i]);
        var record := BuildRecord(headers, values);
        records := records + [record];
      }
    }
    assert body[..|body|] == body;
  }
}
