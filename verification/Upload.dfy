/**
 * Audience upload: phone dedupe, then an import in chunks that may stop at any point and be run
 * again. `parse` stands for the phone parser; its results parse to themselves.
 */
module Upload {
  import opened Prelude

  /** A parsed line of the file: the text of its phone column and the rest. */
  datatype Row = Row(phone: string, rest: string)

  type Parser = string -> Option<string>

  ghost predicate Normalizes(parse: Parser) {
    forall s :: parse(s).Some? ==> parse(parse(s).value) == parse(s)
  }

  const CHUNK: nat := 40

  // ---------- dedupe ----------

  /** Phones of the rows that parse. */
  function PhonesOf(parse: Parser, rows: seq<Row>): set<string> {
    set r | r in rows && parse(r.phone).Some? :: parse(r.phone).value
  }

  function Dedupe(parse: Parser, rows: seq<Row>, existing: set<string>): seq<Row> {
    if rows == [] then []
    else
      var front, last := rows[..|rows| - 1], rows[|rows| - 1];
      var kept, phone := Dedupe(parse, front, existing), parse(last.phone);
      if phone.Some? && (phone.value in PhonesOf(parse, front) || phone.value in existing) then kept
      else kept + [last]
  }

  /** The parsed phones of some rows, in order; rows that do not parse are left out. */
  function ValidPhones(parse: Parser, rows: seq<Row>): seq<string> {
    if rows == [] then []
    else
      var rest, phone := ValidPhones(parse, rows[..|rows| - 1]), parse(rows[|rows| - 1].phone);
      if phone.Some? then rest + [phone.value] else rest
  }

  lemma PhonesOfAppend(parse: Parser, rows: seq<Row>, row: Row)
    ensures PhonesOf(parse, rows + [row])
         == PhonesOf(parse, rows) + (if parse(row.phone).Some? then {parse(row.phone).value} else {})
  {
    var all := rows + [row];
    forall p ensures p in PhonesOf(parse, all) <==> p in PhonesOf(parse, rows) || parse(row.phone) == Some(p) {
      if p in PhonesOf(parse, all) {
        var r :| r in all && parse(r.phone).Some? && parse(r.phone).value == p;
        assert r in rows || r == row;
      }
      if p in PhonesOf(parse, rows) {
        var r :| r in rows && parse(r.phone).Some? && parse(r.phone).value == p;
        assert r in all;
      }
      assert row in all;
    }
  }

  lemma DedupeAppend(parse: Parser, rows: seq<Row>, row: Row, existing: set<string>)
    ensures Dedupe(parse, rows + [row], existing)
         == if parse(row.phone).Some?
               && (parse(row.phone).value in PhonesOf(parse, rows) || parse(row.phone).value in existing)
            then Dedupe(parse, rows, existing)
            else Dedupe(parse, rows, existing) + [row]
  {
    assert (rows + [row])[..|rows|] == rows;
  }

  lemma ValidPhonesAppend(parse: Parser, rows: seq<Row>, row: Row)
    ensures ValidPhones(parse, rows + [row])
         == if parse(row.phone).Some? then ValidPhones(parse, rows) + [parse(row.phone).value]
            else ValidPhones(parse, rows)
  {
    assert (rows + [row])[..|rows|] == rows;
  }

  lemma {:induction false} ValidPhonesConcat(parse: Parser, rows: seq<Row>, more: seq<Row>)
    ensures ValidPhones(parse, rows + more) == ValidPhones(parse, rows) + ValidPhones(parse, more)
    decreases |more|
  {
    if more == [] {
      assert rows + more == rows;
    } else {
      var n := |more| - 1;
      ValidPhonesConcat(parse, rows, more[..n]);
      ValidPhonesAppend(parse, rows + more[..n], more[n]);
      assert rows + more[..n] + [more[n]] == rows + more;
    }
  }

  predicate Distinct(phones: seq<string>) {
    forall i, j | 0 <= i < j < |phones| :: phones[i] != phones[j]
  }

  /** What dedupe lets through: every phone of the file that is not already there, once. */
  lemma {:induction false} DedupedPhones(parse: Parser, rows: seq<Row>, existing: set<string>)
    ensures Distinct(ValidPhones(parse, Dedupe(parse, rows, existing)))
    ensures forall p ::
      p in ValidPhones(parse, Dedupe(parse, rows, existing)) <==> p in PhonesOf(parse, rows) && p !in existing
  {
    if rows != [] {
      var front, last := rows[..|rows| - 1], rows[|rows| - 1];
      DedupedPhones(parse, front, existing);
      assert rows == front + [last];
      PhonesOfAppend(parse, front, last);
      DedupeAppend(parse, front, last, existing);
      ValidPhonesAppend(parse, Dedupe(parse, front, existing), last);
    }
  }

  /** Rows whose phone does not parse all pass; of the others, the first of each phone. */
  lemma {:induction false} DedupeKeepsUnparsed(parse: Parser, rows: seq<Row>, existing: set<string>)
    ensures |rows| == |Dedupe(parse, rows, existing)| + Dropped(parse, rows, existing)
    ensures |Dedupe(parse, rows, existing)| - |ValidPhones(parse, Dedupe(parse, rows, existing))|
         == |rows| - |ValidPhones(parse, rows)|
  {
    if rows != [] {
      var front, last := rows[..|rows| - 1], rows[|rows| - 1];
      DedupeKeepsUnparsed(parse, front, existing);
      ValidPhonesAppend(parse, Dedupe(parse, front, existing), last);
    }
  }

  /** The rows counted as duplicates. */
  function Dropped(parse: Parser, rows: seq<Row>, existing: set<string>): nat {
    if rows == [] then 0
    else
      var front, phone := rows[..|rows| - 1], parse(rows[|rows| - 1].phone);
      Dropped(parse, front, existing)
        + if phone.Some? && (phone.value in PhonesOf(parse, front) || phone.value in existing) then 1 else 0
  }

  method DedupeParsedContacts(parse: Parser, rows: seq<Row>, phoneMapped: bool, existing: set<string>)
    returns (deduped: seq<Row>, skipped: nat)
    ensures phoneMapped ==> deduped == Dedupe(parse, rows, existing) && skipped == Dropped(parse, rows, existing)
    ensures !phoneMapped ==> deduped == rows && skipped == 0
  {
    if !phoneMapped {
      return rows, 0;
    }
    deduped, skipped := [], 0;
    var seen: set<string> := {};
    for i := 0 to |rows|
      invariant Scanned(parse, rows[..i], existing, seen, deduped, skipped)
    {
      var normalized := parse(rows[i].phone);
      assert rows[..i + 1] == rows[..i] + [rows[i]];
      ScanStep(parse, rows[..i], rows[i], existing, seen, deduped, skipped);
      if normalized.None? {
        deduped := deduped + [rows[i]];
      } else if normalized.value in seen || normalized.value in existing {
        skipped := skipped + 1;
      } else {
        seen := seen + {normalized.value};
        deduped := deduped + [rows[i]];
      }
    }
    assert rows[..|rows|] == rows;
  }

  ghost predicate Scanned(parse: Parser, rows: seq<Row>, existing: set<string>, seen: set<string>, deduped: seq<Row>,
                          skipped: nat)
  {
    && deduped == Dedupe(parse, rows, existing)
    && skipped == Dropped(parse, rows, existing)
    && forall p :: p !in existing ==> (p in seen <==> p in PhonesOf(parse, rows))
  }

  lemma ScanStep(parse: Parser, rows: seq<Row>, row: Row, existing: set<string>, seen: set<string>, deduped: seq<Row>,
                 skipped: nat)
    requires Scanned(parse, rows, existing, seen, deduped, skipped)
    ensures var phone := parse(row.phone);
            if phone.None? then Scanned(parse, rows + [row], existing, seen, deduped + [row], skipped)
            else if phone.value in seen || phone.value in existing
            then Scanned(parse, rows + [row], existing, seen, deduped, skipped + 1)
            else Scanned(parse, rows + [row], existing, seen + {phone.value}, deduped + [row], skipped)
  {
    PhonesOfAppend(parse, rows, row);
    DedupeAppend(parse, rows, row, existing);
    DroppedAppend(parse, rows, row, existing);
  }

  lemma DroppedAppend(parse: Parser, rows: seq<Row>, row: Row, existing: set<string>)
    ensures Dropped(parse, rows + [row], existing)
         == Dropped(parse, rows, existing)
          + if parse(row.phone).Some?
               && (parse(row.phone).value in PhonesOf(parse, rows) || parse(row.phone).value in existing)
            then 1 else 0
  {
    assert (rows + [row])[..|rows|] == rows;
  }

  // ---------- runs ----------

  /** Phones already in the audience: those of its linked contacts that parse. */
  function AudiencePhones(parse: Parser, linked: seq<string>): set<string> {
    set s | s in linked && parse(s).Some? :: parse(s).value
  }

  /** The linked contacts' phones after a run over the first `cut` deduped rows. */
  function AfterRun(parse: Parser, linked: seq<string>, rows: seq<Row>, cut: nat): seq<string> {
    var kept := Dedupe(parse, rows, AudiencePhones(parse, linked));
    linked + ValidPhones(parse, if cut < |kept| then kept[..cut] else kept)
  }

  /** Any number of runs of the file, each stopped after some rows. */
  function AfterRuns(parse: Parser, linked: seq<string>, rows: seq<Row>, cuts: seq<nat>): seq<string> {
    if cuts == [] then linked
    else AfterRun(parse, AfterRuns(parse, linked, rows, cuts[..|cuts| - 1]), rows, cuts[|cuts| - 1])
  }

  /** `now` is `was` followed by phones of the file that were not there, each once. */
  ghost predicate Grown(parse: Parser, was: seq<string>, now: seq<string>, rows: seq<Row>) {
    && |was| <= |now| && now[..|was|] == was
    && Distinct(now[|was|..])
    && forall p :: p in now[|was|..] ==> p in PhonesOf(parse, rows) && p !in AudiencePhones(parse, was)
  }

  lemma FilePhonesParse(parse: Parser, rows: seq<Row>, p: string)
    requires Normalizes(parse) && p in PhonesOf(parse, rows)
    ensures parse(p) == Some(p)
  {
  }

  /** The audience's phones after phones of the file are added. */
  lemma AudienceOfGrown(parse: Parser, was: seq<string>, now: seq<string>, rows: seq<Row>)
    requires Normalizes(parse) && Grown(parse, was, now, rows)
    ensures forall p :: p in AudiencePhones(parse, now) <==> p in AudiencePhones(parse, was) || p in now[|was|..]
  {
    var more := now[|was|..];
    assert now == was + more;
    forall p ensures p in AudiencePhones(parse, now) <==> p in AudiencePhones(parse, was) || p in more {
      if p in more {
        FilePhonesParse(parse, rows, p);
        assert p in now;
      }
      if p in AudiencePhones(parse, was) {
        var s :| s in was && parse(s).Some? && parse(s).value == p;
        assert s in now;
      }
      if p in AudiencePhones(parse, now) {
        var s :| s in now && parse(s).Some? && parse(s).value == p;
        if s in more {
          FilePhonesParse(parse, rows, s);
        }
      }
    }
  }

  lemma PrefixPhones(parse: Parser, kept: seq<Row>, cut: nat)
    ensures ValidPhones(parse, if cut < |kept| then kept[..cut] else kept) <= ValidPhones(parse, kept)
  {
    if cut < |kept| {
      assert kept == kept[..cut] + kept[cut..];
      ValidPhonesConcat(parse, kept[..cut], kept[cut..]);
    }
  }

  lemma DistinctConcat(a: seq<string>, b: seq<string>)
    requires Distinct(a) && Distinct(b) && forall p | p in b :: p !in a
    ensures Distinct(a + b)
  {
    var all := a + b;
    forall i, j | 0 <= i < j < |all| ensures all[i] != all[j] {
      if i < |a| <= j {
        assert all[j] in b && all[i] in a;
      }
    }
  }

  /** A file whose phones are all there already brings nothing. */
  lemma {:induction false} NothingNew(parse: Parser, rows: seq<Row>, existing: set<string>)
    requires PhonesOf(parse, rows) <= existing
    ensures ValidPhones(parse, Dedupe(parse, rows, existing)) == []
  {
    if rows != [] {
      var front, last := rows[..|rows| - 1], rows[|rows| - 1];
      assert rows == front + [last];
      PhonesOfAppend(parse, front, last);
      NothingNew(parse, front, existing);
      ValidPhonesAppend(parse, Dedupe(parse, front, existing), last);
    }
  }

  lemma RunGrows(parse: Parser, was: seq<string>, now: seq<string>, rows: seq<Row>, cut: nat)
    requires Normalizes(parse) && Grown(parse, was, now, rows)
    ensures Grown(parse, was, AfterRun(parse, now, rows, cut), rows)
  {
    var kept := Dedupe(parse, rows, AudiencePhones(parse, now));
    var added := ValidPhones(parse, if cut < |kept| then kept[..cut] else kept);
    DedupedPhones(parse, rows, AudiencePhones(parse, now));
    PrefixPhones(parse, kept, cut);
    AudienceOfGrown(parse, was, now, rows);
    forall p | p in added ensures p in ValidPhones(parse, kept) {
    }
    DistinctConcat(now[|was|..], added);
    assert AfterRun(parse, now, rows, cut)[|was|..] == now[|was|..] + added;
  }

  lemma {:induction false} RunsGrow(parse: Parser, linked: seq<string>, rows: seq<Row>, cuts: seq<nat>)
    requires Normalizes(parse)
    ensures Grown(parse, linked, AfterRuns(parse, linked, rows, cuts), rows)
  {
    if cuts != [] {
      RunsGrow(parse, linked, rows, cuts[..|cuts| - 1]);
      RunGrows(parse, linked, AfterRuns(parse, linked, rows, cuts[..|cuts| - 1]), rows, cuts[|cuts| - 1]);
    }
  }

  /** A run to the end leaves no phone of the file out. */
  lemma FullRunCovers(parse: Parser, was: seq<string>, before: seq<string>, rows: seq<Row>, cut: nat)
    requires Normalizes(parse) && Grown(parse, was, before, rows) && cut >= |rows|
    ensures var end := AfterRun(parse, before, rows, cut);
            && |was| <= |end|
            && forall p :: p in PhonesOf(parse, rows) && p !in AudiencePhones(parse, was) ==> p in end[|was|..]
  {
    var end := AfterRun(parse, before, rows, cut);
    var kept := Dedupe(parse, rows, AudiencePhones(parse, before));
    AudienceOfGrown(parse, was, before, rows);
    DedupeKeepsUnparsed(parse, rows, AudiencePhones(parse, before));
    DedupedPhones(parse, rows, AudiencePhones(parse, before));
    assert end[|was|..] == before[|was|..] + ValidPhones(parse, kept);
  }

  /**
   * Convergence: after any stopped runs and one run to the end, the audience has its old phones and
   * all of the file's, and every new phone was linked exactly once.
   */
  lemma UploadConverges(parse: Parser, linked: seq<string>, rows: seq<Row>, cuts: seq<nat>, last: nat)
    requires Normalizes(parse) && last >= |rows|
    ensures var end := AfterRuns(parse, linked, rows, cuts + [last]);
            && Grown(parse, linked, end, rows)
            && AudiencePhones(parse, end) == AudiencePhones(parse, linked) + PhonesOf(parse, rows)
            && forall p :: p in end[|linked|..] <==> p in PhonesOf(parse, rows) && p !in AudiencePhones(parse, linked)
  {
    var before := AfterRuns(parse, linked, rows, cuts);
    var end := AfterRun(parse, before, rows, last);
    assert (cuts + [last])[..|cuts|] == cuts;
    RunsGrow(parse, linked, rows, cuts);
    RunGrows(parse, linked, before, rows, last);
    FullRunCovers(parse, linked, before, rows, last);
    AudienceOfGrown(parse, linked, end, rows);
  }

  /** A second run of a file that went through adds nothing. */
  lemma RerunAddsNothing(parse: Parser, linked: seq<string>, rows: seq<Row>, cut: nat)
    requires Normalizes(parse)
    ensures var once := AfterRun(parse, linked, rows, |rows|);
            AfterRun(parse, once, rows, cut) == once
  {
    var once := AfterRun(parse, linked, rows, |rows|);
    UploadConverges(parse, linked, rows, [], |rows|);
    assert [] + [|rows|] == [|rows|];
    assert AfterRuns(parse, linked, rows, [|rows|]) == once;
    var kept := Dedupe(parse, rows, AudiencePhones(parse, once));
    NothingNew(parse, rows, AudiencePhones(parse, once));
    PrefixPhones(parse, kept, cut);
  }
}
