/** The chunked import, which may be cut off between two chunks or inside one. */
module UploadRun {
  import opened Prelude
  import opened Upload

  /** Where a run is cut off: nowhere, ahead of a chunk, or between a chunk's insert and its links. */
  datatype Stop = RunsThrough | AheadOf(chunk: nat) | Inside(chunk: nat)

  /** How many deduped rows a run links. */
  function Cut(stop: Stop, length: nat): nat {
    if stop.RunsThrough? then length else CHUNK * stop.chunk
  }

  /** Chunks are of forty rows. */
  lemma CutInFigures(chunk: nat, length: nat)
    ensures Cut(RunsThrough, length) == length
    ensures Cut(AheadOf(chunk), length) == Cut(Inside(chunk), length) == 40 * chunk
  {
  }

  /** The phones stored for some rows: without a phone column every row is imported without one. */
  function Imports(parse: Parser, rows: seq<Row>, phoneMapped: bool): seq<string> {
    if phoneMapped then ValidPhones(parse, rows) else seq(|rows|, _ => "")
  }

  function Take<A>(s: seq<A>, n: nat): seq<A> {
    if n < |s| then s[..n] else s
  }

  lemma ImportsConcat(parse: Parser, rows: seq<Row>, more: seq<Row>, phoneMapped: bool)
    ensures Imports(parse, rows + more, phoneMapped)
      == Imports(parse, rows, phoneMapped) + Imports(parse, more, phoneMapped)
  {
    if phoneMapped {
      ValidPhonesConcat(parse, rows, more);
    }
  }

  /** The deduped rows of a run. */
  function Kept(parse: Parser, rows: seq<Row>, phoneMapped: bool, linked: seq<string>): seq<Row> {
    if phoneMapped then Dedupe(parse, rows, AudiencePhones(parse, linked)) else rows
  }

  method MapChunk(parse: Parser, chunk: seq<Row>, phoneMapped: bool) returns (mapped: seq<string>, invalid: nat)
    ensures mapped == Imports(parse, chunk, phoneMapped) && |mapped| + invalid == |chunk|
  {
    mapped, invalid := [], 0;
    for i := 0 to |chunk|
      invariant mapped == Imports(parse, chunk[..i], phoneMapped) && |mapped| + invalid == i
    {
      assert chunk[..i + 1] == chunk[..i] + [chunk[i]];
      ValidPhonesAppend(parse, chunk[..i], chunk[i]);
      var phone := parse(chunk[i].phone);
      if phoneMapped && phone.None? {
        invalid := invalid + 1;
      } else {
        mapped := mapped + [if phoneMapped then phone.value else ""];
      }
    }
    assert chunk[..|chunk|] == chunk;
  }

  /** Rows in, rows out: over a whole run every deduped row is either imported or invalid. */
  datatype Counters = Counters(processed: nat, imported: nat, invalid: nat, duplicates: nat)

  function PhonesAt(contacts: seq<string>, links: seq<nat>): seq<string>
    requires forall i | 0 <= i < |links| :: links[i] < |contacts|
  {
    seq(|links|, i requires 0 <= i < |links| => contacts[links[i]])
  }

  /** The rows before `i` are done: their valid phones are linked and every one of them is counted. */
  ghost predicate Progress(parse: Parser, kept: seq<Row>, phoneMapped: bool, before: seq<string>, now: seq<string>,
                           i: nat, processed: nat, imported: nat, invalid: nat)
  {
    && now == before + Imports(parse, Take(kept, i), phoneMapped)
    && processed == |Take(kept, i)|
    && imported + invalid == processed
    && imported == |now| - |before|
  }

  lemma ChunkDone(parse: Parser, kept: seq<Row>, phoneMapped: bool, before: seq<string>, now: seq<string>,
                  i: nat, processed: nat, imported: nat, invalid: nat, chunk: seq<Row>, added: nat, skipped: nat)
    requires Progress(parse, kept, phoneMapped, before, now, i, processed, imported, invalid) && i < |kept|
    requires chunk == if i + CHUNK < |kept| then kept[i..i + CHUNK] else kept[i..]
    requires added == |Imports(parse, chunk, phoneMapped)| && added + skipped == |chunk|
    ensures Progress(parse, kept, phoneMapped, before, now + Imports(parse, chunk, phoneMapped), i + CHUNK,
                     processed + |chunk|, imported + added, invalid + skipped)
  {
    TakeMore(kept, i, chunk);
    ImportsConcat(parse, Take(kept, i), chunk, phoneMapped);
  }

  class UploadDb {
    var contacts: seq<string>
    var links: seq<nat>
    var totalContacts: nat
    var processedContacts: nat
    var audienceTotal: nat
    var completed: bool

    predicate Valid()
      reads this`contacts, this`links
    {
      forall i | 0 <= i < |links| :: links[i] < |contacts|
    }

    /** The phones of the audience's contacts, in the order they were linked. */
    function Linked(): seq<string>
      requires Valid()
      reads this`contacts, this`links
    {
      PhonesAt(contacts, links)
    }

    method ListAudiencePhones(parse: Parser) returns (phones: set<string>)
      requires Valid()
      ensures phones == AudiencePhones(parse, Linked())
    {
      phones := {};
      for i := 0 to |links|
        invariant forall p :: p in phones <==> exists k :: 0 <= k < i && parse(Linked()[k]) == Some(p)
      {
        var normalized := parse(contacts[links[i]]);
        assert Linked()[i] == contacts[links[i]];
        if normalized.Some? {
          phones := phones + {normalized.value};
        }
      }
    }

    method InsertContacts(mapped: seq<string>) returns (ids: seq<nat>)
      requires Valid()
      modifies this`contacts
      ensures Valid() && contacts == old(contacts) + mapped && Linked() == old(Linked())
      ensures |ids| == |mapped| && forall i | 0 <= i < |ids| :: ids[i] == |old(contacts)| + i
    {
      var first := |contacts|;
      ids := seq(|mapped|, i requires 0 <= i < |mapped| => first + i);
      contacts := contacts + mapped;
    }

    method LinkContacts(ids: seq<nat>)
      requires Valid() && forall i | 0 <= i < |ids| :: ids[i] < |contacts|
      modifies this`links
      ensures Valid() && links == old(links) + ids
      ensures |Linked()| == |links| && forall i | 0 <= i < |links| :: Linked()[i] == contacts[links[i]]
    {
      links := links + ids;
    }

    /** One chunk: its valid rows are inserted, then linked unless the run is cut off in between. */
    method ImportChunk(parse: Parser, chunk: seq<Row>, phoneMapped: bool, cutOff: bool)
      returns (imported: nat, invalid: nat)
      requires Valid()
      modifies this`contacts, this`links
      ensures Valid() && imported + invalid == |chunk| && imported == |Imports(parse, chunk, phoneMapped)|
      ensures contacts == old(contacts) + Imports(parse, chunk, phoneMapped)
      ensures Linked() == if cutOff then old(Linked()) else old(Linked()) + Imports(parse, chunk, phoneMapped)
    {
      var mapped;
      mapped, invalid := MapChunk(parse, chunk, phoneMapped);
      imported := |mapped|;
      if mapped != [] {
        var ids := InsertContacts(mapped);
        if !cutOff {
          LinkContacts(ids);
        }
      }
    }

    /** The loop over chunks. */
    method ImportChunks(parse: Parser, kept: seq<Row>, phoneMapped: bool, stop: Stop)
      returns (processed: nat, imported: nat, invalid: nat, through: bool)
      requires Valid()
      modifies this`contacts, this`links, this`processedContacts
      ensures Valid()
      ensures through <==> stop.RunsThrough? || CHUNK * stop.chunk >= |kept|
      ensures Linked() == old(Linked()) + Imports(parse, Take(kept, Cut(stop, |kept|)), phoneMapped)
      ensures through ==> imported + invalid == processed == |kept| && imported == |Linked()| - |old(Linked())|
    {
      processed, imported, invalid, through := 0, 0, 0, false;
      var i, n := 0, 0;
      ghost var before := Linked();
      while i < |kept|
        invariant Valid() && i == CHUNK * n && (stop.RunsThrough? || stop.chunk >= n)
        invariant Progress(parse, kept, phoneMapped, before, Linked(), i, processed, imported, invalid)
        decreases |kept| - i
      {
        if stop == AheadOf(n) {
          return;
        }
        var chunk := if i + CHUNK < |kept| then kept[i..i + CHUNK] else kept[i..];
        ghost var now := Linked();
        var added, skipped := ImportChunk(parse, chunk, phoneMapped, stop == Inside(n));
        if stop == Inside(n) {
          return;
        }
        ChunkDone(parse, kept, phoneMapped, before, now, i, processed, imported, invalid, chunk, added, skipped);
        processed, imported, invalid := processed + |chunk|, imported + added, invalid + skipped;
        processedContacts := processed;
        i, n := i + CHUNK, n + 1;
      }
      through := true;
    }

    method ProcessUpload(parse: Parser, rows: seq<Row>, phoneMapped: bool, stop: Stop) returns (counters: Counters)
      requires Valid()
      modifies this
      ensures Valid()
      ensures var kept := Kept(parse, rows, phoneMapped, old(Linked()));
              && Linked() == old(Linked()) + Imports(parse, Take(kept, Cut(stop, |kept|)), phoneMapped)
              && totalContacts == |kept|
              && counters.duplicates == |rows| - |kept|
              && (completed <==> stop.RunsThrough? || CHUNK * stop.chunk >= |kept|)
              && (completed ==>
                   && counters.imported + counters.invalid == counters.processed == |kept|
                   && processedContacts == |kept|
                   && audienceTotal == counters.imported == |Linked()| - |old(Linked())|
                   && (audienceTotal == |Linked()| <==> old(Linked()) == []))
    {
      var existing: set<string> := {};
      if phoneMapped {
        existing := ListAudiencePhones(parse);
      }
      var kept, duplicates := DedupeParsedContacts(parse, rows, phoneMapped, existing);
      DedupeKeepsUnparsed(parse, rows, existing);
      totalContacts := |kept|;
      var processed, imported, invalid, through := ImportChunks(parse, kept, phoneMapped, stop);
      completed := through;
      if through {
        audienceTotal, processedContacts := imported, processed;
      }
      counters := Counters(processed, imported, invalid, duplicates);
    }

    /** The same file uploaded again and again, cut off anywhere, until a run goes through. */
    method UploadUntilDone(parse: Parser, rows: seq<Row>, stops: seq<Stop>)
      requires Valid() && Normalizes(parse)
      modifies this
      ensures Valid() && completed
      ensures AudiencePhones(parse, Linked()) == AudiencePhones(parse, old(Linked())) + PhonesOf(parse, rows)
      ensures Grown(parse, old(Linked()), Linked(), rows)
    {
      ghost var before, cuts := Linked(), [];
      for i := 0 to |stops|
        invariant Valid() && Linked() == AfterRuns(parse, before, rows, cuts)
      {
        RunIsAfterRun(parse, Linked(), rows, stops[i]);
        ghost var cut := Cut(stops[i], |Kept(parse, rows, true, Linked())|);
        AfterOneMore(parse, before, rows, cuts, cut);
        var _ := ProcessUpload(parse, rows, true, stops[i]);
        cuts := cuts + [cut];
      }
      RunIsAfterRun(parse, Linked(), rows, RunsThrough);
      DedupeKeepsUnparsed(parse, rows, AudiencePhones(parse, Linked()));
      AfterOneMore(parse, before, rows, cuts, |rows|);
      UploadConverges(parse, before, rows, cuts, |rows|);
      var _ := ProcessUpload(parse, rows, true, RunsThrough);
    }
  }

  lemma AfterOneMore(parse: Parser, linked: seq<string>, rows: seq<Row>, cuts: seq<nat>, cut: nat)
    ensures AfterRuns(parse, linked, rows, cuts + [cut])
         == AfterRun(parse, AfterRuns(parse, linked, rows, cuts), rows, cut)
  {
    assert (cuts + [cut])[..|cuts|] == cuts;
  }

  lemma TakeMore(kept: seq<Row>, i: nat, chunk: seq<Row>)
    requires i < |kept| && chunk == if i + CHUNK < |kept| then kept[i..i + CHUNK] else kept[i..]
    ensures Take(kept, i + CHUNK) == Take(kept, i) + chunk
  {
  }

  // ---------- what the runs come to ----------

  /** A run with a phone column is the one the convergence theorem speaks of. */
  lemma RunIsAfterRun(parse: Parser, linked: seq<string>, rows: seq<Row>, stop: Stop)
    ensures var kept := Kept(parse, rows, true, linked);
            linked + Imports(parse, Take(kept, Cut(stop, |kept|)), true)
              == AfterRun(parse, linked, rows, Cut(stop, |kept|))
  {
  }

  /**
   * Without a phone column nothing tells a rerun what is already there: after a run that linked
   * `cut` rows, a full one leaves each row linked once exactly when `cut` is zero.
   */
  lemma PhonelessRerunExactly(parse: Parser, linked: seq<string>, rows: seq<Row>, stop: Stop)
    ensures var first := linked + Imports(parse, Take(Kept(parse, rows, false, linked), Cut(stop, |rows|)), false);
            var second := first + Imports(parse, Take(Kept(parse, rows, false, first), |rows|), false);
            |second| == |linked| + |rows| <==> Cut(stop, |rows|) == 0 || rows == []
  {
  }
}
