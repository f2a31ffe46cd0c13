/** The ledger summary by bucket and the totals read off it. */
module Reconciliation {
  import opened Text
  import opened Sums
  import opened BillingKeys
  import opened Ledger

  function Abs(n: int): nat {
    if n < 0 then -n else n
  }

  function Categorize(e: Entry): Bucket {
    if e.kind == "CREDIT" then PurchaseBucket else BucketFromIdempotencyKey(e.key)
  }

  predicate Counts(e: Entry) {
    e.kind == "DEBIT" || e.kind == "CREDIT"
  }

  function EventIn(b: Bucket): Entry -> int {
    (e: Entry) => if Counts(e) && Categorize(e) == b then 1 else 0
  }

  function CreditsIn(b: Bucket): Entry -> int {
    (e: Entry) => if Counts(e) && Categorize(e) == b then Abs(e.amount) else 0
  }

  datatype Tally = Tally(events: nat, credits: nat)

  ghost predicate SummedAt(summary: map<Bucket, Tally>, rows: seq<Entry>, b: Bucket) {
    b in summary && summary[b].events == Sum(EventIn(b), rows) && summary[b].credits == Sum(CreditsIn(b), rows)
  }

  ghost predicate Summed(summary: map<Bucket, Tally>, rows: seq<Entry>) {
    forall b: Bucket :: SummedAt(summary, rows, b)
  }

  /** One more entry moves its own bucket and leaves the others. */
  lemma SummedMoreAt(summary: map<Bucket, Tally>, rows: seq<Entry>, row: Entry, b: Bucket)
    requires Summed(summary, rows)
    ensures SummedAt(summary, rows, b) && SummedAt(summary, rows, Categorize(row))
    ensures !Counts(row) ==> SummedAt(summary, rows + [row], b)
    ensures Counts(row) ==> SummedAt(summary[Categorize(row) := TallyMore(summary, row)], rows + [row], b)
  {
    assert SummedAt(summary, rows, b) && SummedAt(summary, rows, Categorize(row));
    SumAppend(EventIn(b), rows, row);
    SumAppend(CreditsIn(b), rows, row);
  }

  function TallyMore(summary: map<Bucket, Tally>, row: Entry): Tally {
    var bucket := Categorize(row);
    if bucket in summary then Tally(summary[bucket].events + 1, summary[bucket].credits + Abs(row.amount))
    else Tally(1, Abs(row.amount))
  }

  lemma SummedMore(summary: map<Bucket, Tally>, rows: seq<Entry>, row: Entry)
    requires Summed(summary, rows)
    ensures Categorize(row) in summary
    ensures !Counts(row) ==> Summed(summary, rows + [row])
    ensures Counts(row) ==> Summed(summary[Categorize(row) := TallyMore(summary, row)], rows + [row])
  {
    SummedMoreAt(summary, rows, row, Categorize(row));
    var now := if Counts(row) then summary[Categorize(row) := TallyMore(summary, row)] else summary;
    forall b ensures SummedAt(now, rows + [row], b) {
      SummedMoreAt(summary, rows, row, b);
    }
  }

  /** Every entry of the two kinds is counted in one bucket, with its amount. */
  method SummarizeLedger(rows: seq<Entry>) returns (summary: map<Bucket, Tally>)
    ensures Summed(summary, rows)
  {
    summary := map[
      SmsBucket := Tally(0, 0), VoiceBucket := Tally(0, 0), NumbersBucket := Tally(0, 0),
      PurchaseBucket := Tally(0, 0), AiBucket := Tally(0, 0), OtherBucket := Tally(0, 0)];
    forall b: Bucket ensures SummedAt(summary, [], b) {
      assert b.SmsBucket? || b.VoiceBucket? || b.NumbersBucket? || b.PurchaseBucket? || b.AiBucket? || b.OtherBucket?;
    }
    for i := 0 to |rows|
      invariant Summed(summary, rows[..i])
    {
      var row := rows[i];
      assert rows[..i + 1] == rows[..i] + [row];
      SummedMore(summary, rows[..i], row);
      if row.kind != "DEBIT" && row.kind != "CREDIT" {
        continue;
      }
      var bucket, credits := Categorize(row), Abs(row.amount);
      var tally := summary[bucket].(events := summary[bucket].events + 1);
      if row.kind == "DEBIT" {
        tally := tally.(credits := tally.credits + credits);
      } else if bucket == PurchaseBucket {
        tally := tally.(credits := tally.credits + credits);
      }
      summary := summary[bucket := tally];
    }
    assert rows[..|rows|] == rows;
  }

  function One(): Entry -> int {
    (e: Entry) => if Counts(e) then 1 else 0
  }

  function Size(): Entry -> int {
    (e: Entry) => if Counts(e) then Abs(e.amount) else 0
  }

  /** Conservation: the buckets together hold every counted entry and every credit once. */
  lemma {:induction false} BucketsConserve(rows: seq<Entry>)
    ensures Sum(EventIn(SmsBucket), rows) + Sum(EventIn(VoiceBucket), rows) + Sum(EventIn(NumbersBucket), rows)
          + Sum(EventIn(PurchaseBucket), rows) + Sum(EventIn(AiBucket), rows) + Sum(EventIn(OtherBucket), rows)
         == Sum(One(), rows)
    ensures Sum(CreditsIn(SmsBucket), rows) + Sum(CreditsIn(VoiceBucket), rows) + Sum(CreditsIn(NumbersBucket), rows)
          + Sum(CreditsIn(PurchaseBucket), rows) + Sum(CreditsIn(AiBucket), rows) + Sum(CreditsIn(OtherBucket), rows)
         == Sum(Size(), rows)
  {
    if rows != [] {
      BucketsConserve(rows[..|rows| - 1]);
    }
  }

  // ---------- the period of a report ----------

  datatype Dated = Dated(entry: Entry, created: int)

  const DAY := 86_400_000

  /** Whole days, the last one included up to its last millisecond. */
  datatype Period = Period(startDay: int, endDay: int) {
    function Start(): int { startDay * DAY }

    function End(): int { endDay * DAY + DAY - 1 }

    predicate Holds(row: Dated) {
      Start() <= row.created <= End()
    }
  }

  /** A row belongs to a period exactly if its day, in universal time, is one of the period's. */
  lemma HeldByDay(row: Dated, period: Period)
    ensures period.Holds(row) <==> period.startDay <= row.created / 86_400_000 <= period.endDay
  {
  }

  function InPeriod(rows: seq<Dated>, period: Period): seq<Entry> {
    if rows == [] then []
    else
      var rest, last := InPeriod(rows[..|rows| - 1], period), rows[|rows| - 1];
      if period.Holds(last) then rest + [last.entry] else rest
  }

  method FilterLedgerRowsInPeriod(rows: seq<Dated>, period: Period) returns (kept: seq<Entry>)
    ensures kept == InPeriod(rows, period)
  {
    kept := [];
    for i := 0 to |rows|
      invariant kept == InPeriod(rows[..i], period)
    {
      assert rows[..i + 1][..i] == rows[..i];
      if period.Start() <= rows[i].created && rows[i].created <= period.End() {
        kept := kept + [rows[i].entry];
      }
    }
    assert rows[..|rows|] == rows;
  }

  /** Any figure of two adjoining periods adds up to that of the two together. */
  lemma {:induction false} PeriodsAddUp(f: Entry -> int, rows: seq<Dated>, first: int, cut: int, last: int)
    requires first <= cut <= last
    ensures Sum(f, InPeriod(rows, Period(first, cut))) + Sum(f, InPeriod(rows, Period(cut + 1, last)))
         == Sum(f, InPeriod(rows, Period(first, last)))
  {
    if rows != [] {
      var front, row := rows[..|rows| - 1], rows[|rows| - 1];
      PeriodsAddUp(f, front, first, cut, last);
      SumAppend(f, InPeriod(front, Period(first, cut)), row.entry);
      SumAppend(f, InPeriod(front, Period(cut + 1, last)), row.entry);
      SumAppend(f, InPeriod(front, Period(first, last)), row.entry);
    }
  }

  // ---------- the report's two totals ----------

  datatype Report = Report(debits: int, purchases: int, unrecognized: int)

  function LedgerDebitCredits(rows: seq<Entry>): int {
    Sum(CreditsIn(SmsBucket), rows) + Sum(CreditsIn(VoiceBucket), rows) + Sum(CreditsIn(NumbersBucket), rows)
    + Sum(CreditsIn(AiBucket), rows) + Sum(CreditsIn(OtherBucket), rows)
  }

  function Purchases(rows: seq<Entry>): int {
    Sum(CreditsIn(PurchaseBucket), rows)
  }

  /** The ledger's side of the report on a period. */
  method BuildBillingReconciliationReport(rows: seq<Dated>, period: Period) returns (report: Report)
    ensures report.debits == LedgerDebitCredits(InPeriod(rows, period))
    ensures report.purchases == Purchases(InPeriod(rows, period))
    ensures report.unrecognized == Sum(EventIn(OtherBucket), InPeriod(rows, period))
  {
    var kept := FilterLedgerRowsInPeriod(rows, period);
    var summary := SummarizeLedger(kept);
    assert SummedAt(summary, kept, SmsBucket) && SummedAt(summary, kept, VoiceBucket);
    assert SummedAt(summary, kept, NumbersBucket) && SummedAt(summary, kept, PurchaseBucket);
    assert SummedAt(summary, kept, AiBucket) && SummedAt(summary, kept, OtherBucket);
    report := Report(
      summary[SmsBucket].credits + summary[VoiceBucket].credits + summary[NumbersBucket].credits
      + summary[AiBucket].credits + summary[OtherBucket].credits,
      summary[PurchaseBucket].credits,
      summary[OtherBucket].events);
  }

  function DebitSize(): Entry -> int {
    (e: Entry) => if e.kind == "DEBIT" then Abs(e.amount) else 0
  }

  /** A debit whose key is a payment's: the report adds it to the purchases. */
  function MisfiledDebit(): Entry -> int {
    (e: Entry) => if e.kind == "DEBIT" && BucketFromIdempotencyKey(e.key) == PurchaseBucket then Abs(e.amount) else 0
  }

  function Amount(): Entry -> int {
    (e: Entry) => e.amount
  }

  /** The amount has the sign of its kind, and there are no other kinds. */
  predicate SignedEntry(e: Entry) {
    (e.kind == "DEBIT" && e.amount <= 0) || (e.kind == "CREDIT" && e.amount >= 0)
  }

  predicate Signed(rows: seq<Entry>) {
    forall i | 0 <= i < |rows| :: SignedEntry(rows[i])
  }

  lemma {:induction false} DebitTotal(rows: seq<Entry>)
    ensures LedgerDebitCredits(rows) == Sum(DebitSize(), rows) - Sum(MisfiledDebit(), rows)
  {
    if rows != [] {
      DebitTotal(rows[..|rows| - 1]);
    }
  }

  function CreditSize(): Entry -> int {
    (e: Entry) => if e.kind == "CREDIT" then Abs(e.amount) else 0
  }

  /**
   * The purchases are all credits, whatever their keys, welcome grants among them, and the debits with a
   * payment's key.
   */
  lemma {:induction false} PurchaseTotal(rows: seq<Entry>)
    ensures Purchases(rows) == Sum(CreditSize(), rows) + Sum(MisfiledDebit(), rows)
  {
    if rows != [] {
      PurchaseTotal(rows[..|rows| - 1]);
    }
  }

  function StrangeDebit(): Entry -> int {
    (e: Entry) => if e.kind == "DEBIT" && !Recognized(Trim(e.key)) then 1 else 0
  }

  /** The unrecognized entries are the debits whose key begins with none of the nine prefixes. */
  lemma {:induction false} UnrecognizedTotal(rows: seq<Entry>)
    ensures Sum(EventIn(OtherBucket), rows) == Sum(StrangeDebit(), rows)
  {
    if rows != [] {
      UnrecognizedTotal(rows[..|rows| - 1]);
      OtherExactly(rows[|rows| - 1].key);
    }
  }

  lemma {:induction false} NetTotal(rows: seq<Entry>)
    requires Signed(rows)
    ensures Purchases(rows) - LedgerDebitCredits(rows) == Sum(Amount(), rows) + 2 * Sum(MisfiledDebit(), rows)
  {
    if rows != [] {
      NetTotal(rows[..|rows| - 1]);
    }
  }

  // ---------- the report and the balance ----------

  /** What the rows of a workspace had brought its balance by a moment. */
  function ChangeBy(moment: int): Dated -> int {
    (row: Dated) => if row.created <= moment then row.entry.amount else 0
  }

  ghost predicate SignedRows(rows: seq<Dated>) {
    forall i | 0 <= i < |rows| :: SignedEntry(rows[i].entry)
  }

  /** The entries of a period are what the balance changed by from before its start to its end. */
  lemma {:induction false} ChangeInPeriod(rows: seq<Dated>, period: Period)
    requires period.startDay <= period.endDay
    ensures Sum(Amount(), InPeriod(rows, period))
         == Sum(ChangeBy(period.End()), rows) - Sum(ChangeBy(period.Start() - 1), rows)
  {
    if rows != [] {
      var front, row := rows[..|rows| - 1], rows[|rows| - 1];
      ChangeInPeriod(front, period);
      SumAppend(Amount(), InPeriod(front, period), row.entry);
    }
  }

  predicate Misfiled(e: Entry) {
    e.kind == "DEBIT" && e.amount != 0 && BucketFromIdempotencyKey(e.key) == PurchaseBucket
  }

  lemma {:induction false} PeriodSigned(rows: seq<Dated>, period: Period)
    requires SignedRows(rows)
    ensures Signed(InPeriod(rows, period))
  {
    if rows != [] {
      PeriodSigned(rows[..|rows| - 1], period);
    }
  }

  ghost predicate NoneMisfiled(rows: seq<Dated>, period: Period) {
    forall k | 0 <= k < |rows| && period.Holds(rows[k]) :: !Misfiled(rows[k].entry)
  }

  lemma NoneMisfiledMore(rows: seq<Dated>, period: Period)
    requires rows != []
    ensures NoneMisfiled(rows, period) <==>
      && NoneMisfiled(rows[..|rows| - 1], period)
      && (period.Holds(rows[|rows| - 1]) ==> !Misfiled(rows[|rows| - 1].entry))
  {
    var n := |rows| - 1;
    assert forall k | 0 <= k < n :: rows[..n][k] == rows[k];
  }

  lemma {:induction false} MisfiledNotNegative(rows: seq<Entry>)
    ensures Sum(MisfiledDebit(), rows) >= 0
  {
    if rows != [] {
      MisfiledNotNegative(rows[..|rows| - 1]);
    }
  }

  lemma {:induction false} MisfiledNothing(rows: seq<Dated>, period: Period)
    ensures Sum(MisfiledDebit(), InPeriod(rows, period)) == 0 <==> NoneMisfiled(rows, period)
  {
    if rows != [] {
      var front, row := rows[..|rows| - 1], rows[|rows| - 1];
      MisfiledNothing(front, period);
      MisfiledNotNegative(InPeriod(front, period));
      SumAppend(MisfiledDebit(), InPeriod(front, period), row.entry);
      NoneMisfiledMore(rows, period);
      assert MisfiledDebit()(row.entry) == 0 <==> !Misfiled(row.entry);
    }
  }

  ghost predicate Balances(rows: seq<Dated>, period: Period) {
    Purchases(InPeriod(rows, period)) - LedgerDebitCredits(InPeriod(rows, period))
    == Sum(ChangeBy(period.End()), rows) - Sum(ChangeBy(period.Start() - 1), rows)
  }

  /** The report is off by twice the misfiled debits. */
  lemma NetInPeriod(rows: seq<Dated>, period: Period)
    requires SignedRows(rows) && period.startDay <= period.endDay
    ensures Purchases(InPeriod(rows, period)) - LedgerDebitCredits(InPeriod(rows, period))
         == Sum(ChangeBy(period.End()), rows) - Sum(ChangeBy(period.Start() - 1), rows)
            + 2 * Sum(MisfiledDebit(), InPeriod(rows, period))
  {
    PeriodSigned(rows, period);
    ChangeInPeriod(rows, period);
    NetTotal(InPeriod(rows, period));
  }

  lemma BalancesWithout(rows: seq<Dated>, period: Period, misfiled: int)
    requires Purchases(InPeriod(rows, period)) - LedgerDebitCredits(InPeriod(rows, period))
          == Sum(ChangeBy(period.End()), rows) - Sum(ChangeBy(period.Start() - 1), rows) + 2 * misfiled
    ensures Balances(rows, period) <==> misfiled == 0
  {
  }

  /**
   * The report's purchases less its debits are the change of the balance over the period exactly when no
   * debit of the period carries a payment's key.
   */
  lemma ReportBalancesExactly(rows: seq<Dated>, period: Period)
    requires SignedRows(rows) && period.startDay <= period.endDay
    ensures Balances(rows, period) <==> NoneMisfiled(rows, period)
  {
    NetInPeriod(rows, period);
    BalancesWithout(rows, period, Sum(MisfiledDebit(), InPeriod(rows, period)));
    MisfiledNothing(rows, period);
  }

  /** What the writers of the ledger keep: signs, and debits only for what is no payment. */
  ghost predicate Built(e: Entry) {
    SignedEntry(e) && (e.kind == "DEBIT" ==> exists o: Origin :: IsDebitKey(e.key, o))
  }

  predicate IsDebitKey(key: string, o: Origin) {
    key == Trim(KeyOf(o)) && BucketOfOrigin(o) != PurchaseBucket
  }

  lemma BuiltIsNotMisfiled(e: Entry)
    requires Built(e)
    ensures !Misfiled(e)
  {
    if e.kind == "DEBIT" {
      var o: Origin :| IsDebitKey(e.key, o);
      BuildersClassified(o);
    }
  }

  /** The report on any period of a ledger made by the builders balances. */
  lemma BuiltLedgerBalances(rows: seq<Dated>, period: Period)
    requires period.startDay <= period.endDay && forall i | 0 <= i < |rows| :: Built(rows[i].entry)
    ensures Balances(rows, period)
  {
    forall k | 0 <= k < |rows| ensures !Misfiled(rows[k].entry) {
      BuiltIsNotMisfiled(rows[k].entry);
    }
    ReportBalancesExactly(rows, period);
  }

  /** Billing calls keeps a ledger so. */
  lemma {:induction false} RunKeepsBuilt(rows: seq<Entry>, callbacks: seq<Callback>)
    requires forall i | 0 <= i < |rows| :: Built(rows[i])
    ensures forall i | 0 <= i < |DeliverAll(rows, callbacks)| :: Built(DeliverAll(rows, callbacks)[i])
  {
    if callbacks != [] {
      var c := callbacks[|callbacks| - 1];
      RunKeepsBuilt(rows, callbacks[..|callbacks| - 1]);
      assert IsDebitKey(ChargeOf(c).key, OfCall(c.sid));
      assert Built(ChargeOf(c));
    }
  }

  // ---------- the voice bucket ----------

  function RowsOf(workspace: string, rows: seq<Entry>): seq<Entry> {
    if rows == [] then []
    else
      var rest, last := RowsOf(workspace, rows[..|rows| - 1]), rows[|rows| - 1];
      if last.workspace == workspace then rest + [last] else rest
  }

  function VoiceIn(workspace: string): Entry -> int {
    (e: Entry) => if e.workspace == workspace then CreditsIn(VoiceBucket)(e) else 0
  }

  function VoiceOf(workspace: string): Callback -> int {
    (c: Callback) => if c.workspace == workspace then VoiceCredits(c.seconds, c.kind) else 0
  }

  lemma {:induction false} VoiceOfRows(workspace: string, rows: seq<Entry>)
    ensures Sum(CreditsIn(VoiceBucket), RowsOf(workspace, rows)) == Sum(VoiceIn(workspace), rows)
  {
    if rows != [] {
      var front, last := rows[..|rows| - 1], rows[|rows| - 1];
      VoiceOfRows(workspace, front);
      SumAppend(CreditsIn(VoiceBucket), RowsOf(workspace, front), last);
    }
  }

  lemma ChargeIsVoice(c: Callback)
    ensures CreditsIn(VoiceBucket)(ChargeOf(c)) == VoiceCredits(c.seconds, c.kind)
  {
    StoredKeyShape(c.sid);
    BucketFollowsFamily(StoredKey(c.sid), Call);
  }

  /**
   * The voice credits of a workspace's summary grow over a run of callbacks of all workspaces by the
   * first-delivered charge of each of its own new calls.
   */
  lemma VoiceCreditsAreFirstCharges(workspace: string, rows: seq<Entry>, callbacks: seq<Callback>)
    requires UniqueKeys(rows)
    ensures Sum(CreditsIn(VoiceBucket), RowsOf(workspace, DeliverAll(rows, callbacks)))
         == Sum(CreditsIn(VoiceBucket), RowsOf(workspace, rows))
            + Sum(FirstValue(VoiceOf(workspace), callbacks), NewPlaces(rows, callbacks))
  {
    forall c | Billable(c) ensures VoiceIn(workspace)(ChargeOf(c)) == VoiceOf(workspace)(c) {
      ChargeIsVoice(c);
    }
    RunAddsFirstDeliveries(VoiceIn(workspace), VoiceOf(workspace), rows, callbacks);
    VoiceOfRows(workspace, rows);
    VoiceOfRows(workspace, DeliverAll(rows, callbacks));
  }
}
