/** Printing CSV: the quoting rules of section 2 of RFC 4180, and the formula-injection prefix. */
module CsvPrinter {
  import opened Text

  const BOM: char := '\U{FEFF}'
  const QUOTE: char := '"'

  predicate NeedsQuoting(c: char) {
    c == QUOTE || c == ',' || c == '\r' || c == '\n'
  }

  predicate Plain(s: string) {
    forall i | 0 <= i < |s| :: !NeedsQuoting(s[i])
  }

  function DoubleQuotes(s: string): string {
    if s == "" then ""
    else (if s[0] == QUOTE then [QUOTE, QUOTE] else [s[0]]) + DoubleQuotes(s[1..])
  }

  /** Does a spreadsheet read the cell as a formula? */
  predicate FormulaLike(s: string) {
    var t := TrimStart(s);
    t != "" && (t[0] == '=' || t[0] == '+' || t[0] == '-' || t[0] == '@')
  }

  function SanitizeCsvInjection(s: string): string {
    if FormulaLike(s) then "'" + s else s
  }

  function EscapeCsvCell(value: string, protect: bool): string {
    var out := if protect then SanitizeCsvInjection(value) else value;
    if Plain(out) then out else [QUOTE] + DoubleQuotes(out) + [QUOTE]
  }

  function EscapeAll(cells: seq<string>, protect: bool): (r: seq<string>)
    ensures |r| == |cells|
  {
    seq(|cells|, i requires 0 <= i < |cells| => EscapeCsvCell(cells[i], protect))
  }

  function CsvRow(cells: seq<string>, protect: bool): string {
    Join(EscapeAll(cells, protect), ",")
  }

  datatype CsvOptions = CsvOptions(includeBom: bool, lineEnding: string, protectFromInjection: bool)

  /** The cells of one record, in header order; a missing key prints as empty. */
  function RowCells(headers: seq<string>, row: map<string, string>): (cells: seq<string>)
    ensures |cells| == |headers|
  {
    seq(|headers|, i requires 0 <= i < |headers| => if headers[i] in row then row[headers[i]] else "")
  }

  /** Every line followed by the line ending. */
  function Terminated(lines: seq<string>, ending: string): string {
    if lines == [] then "" else lines[0] + ending + Terminated(lines[1..], ending)
  }

  function BodyLines(headers: seq<string>, rows: seq<map<string, string>>, protect: bool): (lines: seq<string>)
    ensures |lines| == |rows|
  {
    seq(|rows|, i requires 0 <= i < |rows| => CsvRow(RowCells(headers, rows[i]), protect))
  }

  function CsvText(headers: seq<string>, labels: seq<string>, rows: seq<map<string, string>>,
                   options: CsvOptions): string
  {
    var headerCells := if |labels| == |headers| then labels else headers;
    (if options.includeBom then [BOM] else "")
    + Terminated([CsvRow(headerCells, false)] + BodyLines(headers, rows, options.protectFromInjection),
      options.lineEnding)
  }

  lemma {:induction false} JoinTerminates(lines: seq<string>, ending: string)
    requires lines != []
    ensures Join(lines, ending) + ending == Terminated(lines, ending)
  {
    if |lines| == 1 {
      assert lines[1..] == [];
      assert lines[0] + ending + "" == lines[0] + ending;
    } else {
      JoinTerminates(lines[1..], ending);
      assert lines[0] + ending + Join(lines[1..], ending) + ending
        == lines[0] + ending + (Join(lines[1..], ending) + ending);
    }
  }

  /**
   A protected cell never begins with =, +, - or @ behind its blanks, and it is the cell as it was, with a
   single quote ahead exactly if it began so.
   */
  lemma ProtectedCell(s: string)
    ensures var out, t := SanitizeCsvInjection(s), TrimStart(s);
      && (TrimStart(out) == "" || TrimStart(out)[0] !in {'=', '+', '-', '@'})
      && out == if t != "" && t[0] in {'=', '+', '-', '@'} then "'" + s else s
  {
    assert ("'" + s)[0] == '\'';
  }

  /** toCsvString. `labels` stand in for the header row when there is one for every header. */
  method ToCsvString(headers: seq<string>, labels: seq<string>, rows: seq<map<string, string>>, options: CsvOptions)
    returns (csv: string)
    ensures csv == CsvText(headers, labels, rows, options)
  {
    var headerCells := if |labels| == |headers| then labels else headers;
    var lines := [CsvRow(headerCells, false)];
    ghost var body := BodyLines(headers, rows, options.protectFromInjection);
    for i := 0 to |rows|
      invariant lines == [CsvRow(headerCells, false)] + body[..i]
    {
      lines := lines + [CsvRow(RowCells(headers, rows[i]), options.protectFromInjection)];
      assert body[..i + 1] == body[..i] + [body[i]];
    }
    assert body[..|rows|] == body;
    JoinTerminates(lines, options.lineEnding);
    csv := (if options.includeBom then [BOM] else "") + (Join(lines, options.lineEnding) + options.lineEnding);
  }
}
