/** The credit ledger of all workspaces, the charge for a call, and runs of terminal call callbacks. */
module Ledger {
  import opened Prelude
  import opened Sums
  import opened Text
  import opened BillingKeys

  // ---------- the price of a call ----------

  datatype Kind = Ivr | Staffed

  function StartedMinutes(seconds: int): nat {
    if seconds <= 60 then 1 else (seconds + 59) / 60
  }

  function VoiceCredits(seconds: int, kind: Kind): nat {
    var first, additional := if kind == Ivr then 2 else 4, if kind == Ivr then 3 else 5;
    first + (StartedMinutes(seconds) - 1) * additional
  }

  function DebitAmount(credits: int): int {
    if credits < 0 then credits else -credits
  }

  /** A started minute counts whole, and the charge never falls as a call gets longer. */
  lemma StartedMinutesCover(seconds: int)
    requires seconds > 0
    ensures 60 * (StartedMinutes(seconds) - 1) < seconds <= 60 * StartedMinutes(seconds)
  {
  }

  /** The rate card: the first started minute, and every one after it, by kind of call. */
  lemma RateCard(seconds: int, kind: Kind)
    ensures seconds <= 60 ==> VoiceCredits(seconds, kind) == if kind == Ivr then 2 else 4
    ensures seconds > 0 ==>
      VoiceCredits(seconds + 60, kind) == VoiceCredits(seconds, kind) + if kind == Ivr then 3 else 5
  {
    if seconds > 0 {
      StartedMinutesCover(seconds);
      StartedMinutesCover(seconds + 60);
      assert StartedMinutes(seconds + 60) == StartedMinutes(seconds) + 1;
    }
  }

  lemma LongerCostsMore(seconds: int, longer: int, kind: Kind)
    requires seconds <= longer
    ensures 2 <= VoiceCredits(seconds, kind) <= VoiceCredits(longer, kind)
  {
    assert StartedMinutes(seconds) <= StartedMinutes(longer);
  }

  // ---------- the ledger ----------

  datatype Entry = Entry(workspace: string, kind: string, amount: int, key: string)

  /** Where an entry of one kind goes: keys are told apart within a workspace. */
  datatype Place = Place(workspace: string, key: string)

  /** The database's trim, which takes off spaces only. */
  function StripStart(s: string): string {
    if s != "" && s[0] == ' ' then StripStart(s[1..]) else s
  }

  function StripEnd(s: string): string {
    if s != "" && s[|s| - 1] == ' ' then StripEnd(s[..|s| - 1]) else s
  }

  function Strip(s: string): string {
    StripEnd(StripStart(s))
  }

  lemma {:induction false} StripStartSplits(s: string) returns (before: string)
    ensures s == before + StripStart(s) && forall i | 0 <= i < |before| :: before[i] == ' '
    ensures StripStart(s) != "" ==> StripStart(s)[0] != ' '
  {
    if s != "" && s[0] == ' ' {
      before := StripStartSplits(s[1..]);
      before := [' '] + before;
    } else {
      before := "";
    }
  }

  lemma {:induction false} StripEndSplits(s: string) returns (after: string)
    ensures s == StripEnd(s) + after && forall i | 0 <= i < |after| :: after[i] == ' '
    ensures StripEnd(s) != "" ==> StripEnd(s)[|StripEnd(s)| - 1] != ' '
  {
    if s != "" && s[|s| - 1] == ' ' {
      after := StripEndSplits(s[..|s| - 1]);
      assert s == s[..|s| - 1] + [' '];
      after := after + [' '];
    } else {
      after := "";
    }
  }

  /** The database takes off the spaces around a text, all of them and nothing else. */
  lemma StripSplits(s: string) returns (before: string, after: string)
    ensures s == before + Strip(s) + after
    ensures forall i | 0 <= i < |before| :: before[i] == ' '
    ensures forall i | 0 <= i < |after| :: after[i] == ' '
    ensures Strip(s) != "" ==> Strip(s)[0] != ' ' && Strip(s)[|Strip(s)| - 1] != ' '
  {
    before := StripStartSplits(s);
    after := StripEndSplits(StripStart(s));
    assert s == before + (Strip(s) + after);
    if Strip(s) != "" {
      assert StripStart(s)[0] == Strip(s)[0];
    }
  }

  predicate At(e: Entry, kind: string, place: Place) {
    e.workspace == place.workspace && e.kind == kind && e.key == place.key
  }

  predicate HasEntry(rows: seq<Entry>, kind: string, place: Place) {
    exists i :: 0 <= i < |rows| && At(rows[i], kind, place)
  }

  function PlaceOfEntry(e: Entry): Place {
    Place(e.workspace, e.key)
  }

  predicate UniqueKeys(rows: seq<Entry>) {
    forall i, j | 0 <= i < j < |rows| :: !At(rows[i], rows[j].kind, PlaceOfEntry(rows[j]))
  }

  function AmountIn(workspace: string): Entry -> int {
    (e: Entry) => if e.workspace == workspace then e.amount else 0
  }

  datatype Applied = Rejected | Inserted | Existing(entry: Entry)

  class LedgerDb {
    var rows: seq<Entry>
    var credits: map<string, int>
    const opening: map<string, int>

    /** Keys are unique, and each balance is the opening balance and the workspace's entries. */
    ghost predicate Valid()
      reads this
    {
      && UniqueKeys(rows)
      && credits.Keys == opening.Keys
      && (forall i | 0 <= i < |rows| :: rows[i].workspace in credits)
      && forall w | w in credits :: credits[w] == opening[w] + Sum(AmountIn(w), rows)
    }

    constructor (opening: map<string, int>)
      ensures Valid() && rows == [] && this.opening == opening
    {
      rows, credits, this.opening := [], opening, opening;
    }

    /**
     * One ledger write: an entry and the balance of its workspace together, or nothing if the key is there.
     * A blank key raises, and so does a workspace that is not there.
     */
    method ApplyLedgerEntry(workspace: string, kind: string, amount: int, idempotencyKey: string)
      returns (result: Applied)
      requires Valid()
      modifies this
      ensures Valid()
      ensures var key := Strip(idempotencyKey);
        && (result == Rejected <==> key == "" || workspace !in credits)
        && (result.Rejected? ==> rows == old(rows))
        && (!result.Rejected? ==> rows == Write(old(rows), Entry(workspace, kind, amount, key)))
        && (result.Inserted? ==> !HasEntry(old(rows), kind, Place(workspace, key)))
        && (result.Existing? ==> result.entry in old(rows) && At(result.entry, kind, Place(workspace, key)))
    {
      var key := Strip(idempotencyKey);
      if key == "" {
        return Rejected;
      }
      for i := 0 to |rows|
        invariant rows == old(rows) && credits == old(credits)
        invariant forall k | 0 <= k < i :: !At(rows[k], kind, Place(workspace, key))
      {
        if At(rows[i], kind, Place(workspace, key)) {
          return Existing(rows[i]);
        }
      }
      if workspace !in credits {
        return Rejected;
      }
      forall w ensures Sum(AmountIn(w), rows + [Entry(workspace, kind, amount, key)])
                    == Sum(AmountIn(w), rows) + if w == workspace then amount else 0 {
        SumAppend(AmountIn(w), rows, Entry(workspace, kind, amount, key));
      }
      rows := rows + [Entry(workspace, kind, amount, key)];
      credits := credits[workspace := credits[workspace] + amount];
      result := Inserted;
    }

    /** The caller's side: the key is trimmed before it is sent, and a blank one is refused. */
    method InsertTransactionHistoryIdempotent(workspace: string, kind: string, amount: int, idempotencyKey: string)
      returns (result: Applied)
      requires Valid()
      modifies this
      ensures Valid()
      ensures var key := Trim(idempotencyKey);
        && (result == Rejected <==> AllSpace(idempotencyKey) || workspace !in credits)
        && (result.Rejected? ==> rows == old(rows))
        && (!result.Rejected? ==> rows == Write(old(rows), Entry(workspace, kind, amount, key)))
        && (result.Inserted? ==> !HasEntry(old(rows), kind, Place(workspace, key)))
        && (result.Existing? ==> result.entry in old(rows) && At(result.entry, kind, Place(workspace, key)))
    {
      var key := Trim(idempotencyKey);
      TrimEmptyExactly(idempotencyKey);
      TrimmedIsStripped(idempotencyKey);
      if key == "" {
        return Rejected;
      }
      result := ApplyLedgerEntry(workspace, kind, amount, key);
    }

    /** The call is a database row: a workspace it names is there. */
    method BillTerminalCall(c: Callback) returns (result: Option<Applied>)
      requires Valid() && (c.workspace != "" ==> c.workspace in credits)
      modifies this
      ensures Valid() && rows == Deliver(old(rows), c)
      ensures result.Some? <==>
        c.workspace != "" && c.seconds > 0 && Lower(c.status) in {"completed", "failed", "no-answer", "busy"}
      ensures result.Some? ==> !result.value.Rejected?
    {
      if c.workspace == "" || Lower(c.status) !in BILLABLE_STATUSES || c.seconds <= 0 {
        return None;
      }
      var amount := DebitAmount(VoiceCredits(c.seconds, c.kind));
      StoredKeyShape(c.sid);
      TrimEmptyExactly(CallKey(c.sid));
      var applied := InsertTransactionHistoryIdempotent(c.workspace, "DEBIT", amount, CallKey(c.sid));
      result := Some(applied);
    }

    /** Callbacks as they arrive, in any order and any number of times, of any workspaces. */
    method ProcessCallbacks(callbacks: seq<Callback>)
      requires Valid() && forall c | c in callbacks :: c.workspace != "" ==> c.workspace in credits
      modifies this
      ensures Valid() && rows == DeliverAll(old(rows), callbacks)
      ensures forall w | w in credits ::
        credits[w] == old(credits)[w] + Sum(FirstValue(NegativeCredits(w), callbacks), NewPlaces(old(rows), callbacks))
    {
      forall w ensures Sum(AmountIn(w), DeliverAll(rows, callbacks)) == Sum(AmountIn(w), rows)
                     + Sum(FirstValue(NegativeCredits(w), callbacks), NewPlaces(rows, callbacks)) {
        BalanceAfterRun(rows, callbacks, w);
      }
      ghost var before := rows;
      for i := 0 to |callbacks|
        invariant Valid() && rows == DeliverAll(before, callbacks[..i])
      {
        assert callbacks[..i + 1][..i] == callbacks[..i];
        assert callbacks[i] in callbacks;
        var _ := BillTerminalCall(callbacks[i]);
      }
      assert callbacks[..|callbacks|] == callbacks;
    }
  }

  function Write(rows: seq<Entry>, e: Entry): seq<Entry> {
    if HasEntry(rows, e.kind, PlaceOfEntry(e)) then rows else rows + [e]
  }

  /** A trimmed key has no spaces left for the database to take off. */
  lemma TrimmedIsStripped(s: string)
    ensures Strip(Trim(s)) == Trim(s)
  {
    TrimIsTrimmed(s);
    var t := Trim(s);
    assert t != "" ==> IsSpace(' ') && t[0] != ' ' && t[|t| - 1] != ' ';
  }

  // ---------- callbacks ----------

  const BILLABLE_STATUSES: set<string> := {"completed", "failed", "no-answer", "busy"}

  /** A delivered status callback; `kind` is what the campaign lookup said at that delivery. */
  datatype Callback = Callback(sid: string, workspace: string, status: string, seconds: int, kind: Kind)

  predicate Billable(c: Callback) {
    c.workspace != "" && Lower(c.status) in BILLABLE_STATUSES && c.seconds > 0
  }

  function StoredKey(sid: string): string {
    Trim(CallKey(sid))
  }

  function PlaceOf(c: Callback): Place {
    Place(c.workspace, StoredKey(c.sid))
  }

  function ChargeOf(c: Callback): Entry {
    Entry(c.workspace, "DEBIT", DebitAmount(VoiceCredits(c.seconds, c.kind)), StoredKey(c.sid))
  }

  function Deliver(rows: seq<Entry>, c: Callback): seq<Entry> {
    if Billable(c) then Write(rows, ChargeOf(c)) else rows
  }

  function DeliverAll(rows: seq<Entry>, callbacks: seq<Callback>): seq<Entry> {
    if callbacks == [] then rows
    else Deliver(DeliverAll(rows, callbacks[..|callbacks| - 1]), callbacks[|callbacks| - 1])
  }

  /** The first billable delivery of a call in its workspace. */
  function FirstDelivery(callbacks: seq<Callback>, place: Place): Option<Callback> {
    if callbacks == [] then None
    else
      var earlier, last := FirstDelivery(callbacks[..|callbacks| - 1], place), callbacks[|callbacks| - 1];
      if earlier.Some? then earlier
      else if Billable(last) && PlaceOf(last) == place then Some(last) else None
  }

  lemma StoredKeyShape(sid: string)
    ensures Belongs(StoredKey(sid), Call) && StoredKey(sid) != ""
  {
    TrimKeepsFamily(CallKey(sid), Call);
  }

  predicate EndsVisible(sid: string) {
    sid == "" || !IsSpace(sid[|sid| - 1])
  }

  /** A sid without white space at its end is stored as it is. */
  lemma StoredKeyExact(sid: string)
    requires EndsVisible(sid)
    ensures StoredKey(sid) == CallKey(sid)
  {
    var key := CallKey(sid);
    assert key[0] == 'c' && key[|key| - 1] == if sid == "" then ':' else sid[|sid| - 1];
    TrimChangesExactly(key);
  }

  /** The first started minute of a call, and three or five credits for every further one. */
  ghost function Price(seconds: int, kind: Kind): int {
    var further := if seconds <= 60 then 0 else (seconds - 1) / 60;
    if kind == Ivr then 2 + 3 * further else 4 + 5 * further
  }

  /**
   * What one delivery does, in figures: a call of a workspace with a duration and one of four terminal statuses,
   * in any case of letters, is debited at the rate card unless its key has an entry; anything else, like a call
   * in progress or canceled, changes nothing.
   */
  lemma DeliveryInFigures(rows: seq<Entry>, c: Callback)
    requires UniqueKeys(rows)
    ensures var key, now := Trim("call:" + c.sid), Deliver(rows, c);
      var there := exists i :: 0 <= i < |rows| && rows[i].workspace == c.workspace && rows[i].kind == "DEBIT"
                               && rows[i].key == key;
      if c.workspace != "" && c.seconds > 0 && Lower(c.status) in {"completed", "failed", "no-answer", "busy"} then
        && now == (if there then rows else rows + [Entry(c.workspace, "DEBIT", -Price(c.seconds, c.kind), key)])
        && Sum(EntryAt(Place(c.workspace, key)), now) == 1
      else now == rows
  {
    assert CallKey(c.sid) == "call:" + c.sid;
    StartedMinutesInFigures(c.seconds);
    WriteKeeps(rows, ChargeOf(c));
    EntriesAtPlace(Deliver(rows, c), PlaceOf(c));
  }

  lemma StartedMinutesInFigures(seconds: int)
    ensures StartedMinutes(seconds) == 1 + if seconds <= 60 then 0 else (seconds - 1) / 60
  {
  }

  // ---------- one call, one charge ----------

  function EntryAt(place: Place): Entry -> int {
    (e: Entry) => if At(e, "DEBIT", place) then 1 else 0
  }

  lemma WriteKeeps(rows: seq<Entry>, e: Entry)
    requires UniqueKeys(rows)
    ensures UniqueKeys(Write(rows, e)) && rows <= Write(rows, e)
    ensures HasEntry(Write(rows, e), e.kind, PlaceOfEntry(e))
    ensures forall kind, place ::
      HasEntry(Write(rows, e), kind, place) <==> HasEntry(rows, kind, place) || At(e, kind, place)
  {
    var now := Write(rows, e);
    assert now != rows ==> now[|rows|] == e;
    forall kind, place ensures HasEntry(now, kind, place) <==> HasEntry(rows, kind, place) || At(e, kind, place) {
      if HasEntry(rows, kind, place) {
        var i :| 0 <= i < |rows| && At(rows[i], kind, place);
        assert now[i] == rows[i];
      }
    }
  }

  predicate IsNew(rows: seq<Entry>, callbacks: seq<Callback>, place: Place) {
    !HasEntry(rows, "DEBIT", place) && FirstDelivery(callbacks, place).Some?
  }

  /** The entry a call has after a run: the one it had, or the first delivery's charge. */
  ghost predicate Charged(rows: seq<Entry>, now: seq<Entry>, callbacks: seq<Callback>, place: Place) {
    && (HasEntry(now, "DEBIT", place) <==> HasEntry(rows, "DEBIT", place) || FirstDelivery(callbacks, place).Some?)
    && (IsNew(rows, callbacks, place) ==> ChargeOf(FirstDelivery(callbacks, place).value) in now)
  }

  /**
   * One call, one charge: whatever callbacks are delivered, in whatever order and however often, a
   * call that was charged in its workspace keeps its one entry, and a new one gets exactly one, for the
   * amount of its first billable delivery, even if later deliveries name another kind or duration.
   */
  lemma {:induction false} OneCallOneCharge(rows: seq<Entry>, callbacks: seq<Callback>, place: Place)
    requires UniqueKeys(rows)
    ensures UniqueKeys(DeliverAll(rows, callbacks)) && rows <= DeliverAll(rows, callbacks)
    ensures Charged(rows, DeliverAll(rows, callbacks), callbacks, place)
  {
    if callbacks != [] {
      var front, last := callbacks[..|callbacks| - 1], callbacks[|callbacks| - 1];
      OneCallOneCharge(rows, front, place);
      var before := DeliverAll(rows, front);
      if Billable(last) {
        WriteKeeps(before, ChargeOf(last));
        assert FirstDelivery(front, place).Some? ==> FirstDelivery(callbacks, place) == FirstDelivery(front, place);
      }
      assert before <= DeliverAll(rows, callbacks);
    }
  }

  /** A unique ledger has at most one entry at a place. */
  lemma {:induction false} EntriesAtPlace(rows: seq<Entry>, place: Place)
    requires UniqueKeys(rows)
    ensures Sum(EntryAt(place), rows) == if HasEntry(rows, "DEBIT", place) then 1 else 0
  {
    if rows != [] {
      var n := |rows| - 1;
      EntriesAtPlace(rows[..n], place);
      if HasEntry(rows[..n], "DEBIT", place) {
        var i :| 0 <= i < n && At(rows[..n][i], "DEBIT", place);
        assert At(rows[i], "DEBIT", place) && !At(rows[i], rows[n].kind, PlaceOfEntry(rows[n]));
      }
    }
  }

  /** For sids without white space at their ends, two calls of a workspace share an entry exactly when they are one. */
  lemma SidsApart(sid: string, other: string)
    requires EndsVisible(sid) && EndsVisible(other)
    ensures StoredKey(sid) == StoredKey(other) <==> sid == other
  {
    StoredKeyExact(sid);
    StoredKeyExact(other);
    if CallKey(sid) == CallKey(other) {
      CallKeyInjective(sid, other);
    }
  }

  /** Delivering the same callbacks again changes nothing. */
  lemma {:induction false} RedeliveryChangesNothing(rows: seq<Entry>, callbacks: seq<Callback>, again: seq<Callback>)
    requires UniqueKeys(rows) && forall i | 0 <= i < |again| :: again[i] in callbacks
    ensures DeliverAll(DeliverAll(rows, callbacks), again) == DeliverAll(rows, callbacks)
    decreases |again|
  {
    if again != [] {
      var last := again[|again| - 1];
      RedeliveryChangesNothing(rows, callbacks, again[..|again| - 1]);
      if Billable(last) {
        OneCallOneCharge(rows, callbacks, PlaceOf(last));
        DeliveredOnce(callbacks, last);
      }
    }
  }

  lemma {:induction false} DeliveredOnce(callbacks: seq<Callback>, c: Callback)
    requires c in callbacks && Billable(c)
    ensures FirstDelivery(callbacks, PlaceOf(c)).Some?
  {
    var n := |callbacks| - 1;
    if c in callbacks[..n] {
      DeliveredOnce(callbacks[..n], c);
    } else {
      assert callbacks == callbacks[..n] + [callbacks[n]];
    }
  }

  // ---------- calls charged under old-style keys ----------

  predicate HasLegacyEntry(rows: seq<Entry>, c: Callback) {
    exists i :: 0 <= i < |rows| && rows[i].workspace == c.workspace && rows[i].kind == "DEBIT"
                && rows[i].key in LegacyCallKeys(c.sid)
  }

  /**
   * A call that already has an old-style entry is charged once more exactly when its current key has none:
   * the gate looks for the current key alone, and no old-style key is a current one.
   */
  lemma LegacyCallChargedAgainExactly(rows: seq<Entry>, c: Callback)
    requires UniqueKeys(rows) && HasLegacyEntry(rows, c)
    requires Billable(c) && ColonFree(c.sid) && EndsVisible(c.sid)
    ensures Deliver(rows, c) == rows + [ChargeOf(c)]
       <==> !HasEntry(rows, "DEBIT", Place(c.workspace, CallKey(c.sid)))
    ensures CallKey(c.sid) !in LegacyCallKeys(c.sid)
  {
    StoredKeyExact(c.sid);
    CallKeyIsNotLegacy(c.sid, c.sid);
    assert rows != rows + [ChargeOf(c)] by {
      assert |rows + [ChargeOf(c)]| == |rows| + 1;
    }
  }

  /** So a call that was charged the old way, under either key, is paid for twice. */
  lemma LegacyCallPaysTwice(amount: int, c: Callback, k: nat)
    requires Billable(c) && ColonFree(c.sid) && EndsVisible(c.sid) && k < 2
    ensures Sum(AmountIn(c.workspace), Deliver([Entry(c.workspace, "DEBIT", amount, LegacyCallKeys(c.sid)[k])], c))
         == amount - VoiceCredits(c.seconds, c.kind)
  {
    var entry := Entry(c.workspace, "DEBIT", amount, LegacyCallKeys(c.sid)[k]);
    assert [entry][0].key in LegacyCallKeys(c.sid);
    LegacyCallChargedAgainExactly([entry], c);
    SumAppend(AmountIn(c.workspace), [], entry);
    assert [] + [entry] == [entry];
    SumAppend(AmountIn(c.workspace), [entry], ChargeOf(c));
  }

  // ---------- what a run costs ----------

  /** The places a run adds, in the order in which they are charged. */
  function NewPlaces(rows: seq<Entry>, callbacks: seq<Callback>): seq<Place> {
    if callbacks == [] then []
    else
      var front, last := callbacks[..|callbacks| - 1], callbacks[|callbacks| - 1];
      var places := NewPlaces(rows, front);
      if Billable(last) && !HasEntry(DeliverAll(rows, front), "DEBIT", PlaceOf(last))
      then places + [PlaceOf(last)] else places
  }

  /** What the first delivery at a place is worth. */
  function FirstValue(g: Callback -> int, callbacks: seq<Callback>): Place -> int {
    (place: Place) => var first := FirstDelivery(callbacks, place); if first.Some? then g(first.value) else 0
  }

  /** The new places are the billable ones that had no entry, each once. */
  lemma {:induction false} NewPlacesExactly(rows: seq<Entry>, callbacks: seq<Callback>)
    requires UniqueKeys(rows)
    ensures forall place :: place in NewPlaces(rows, callbacks) <==> IsNew(rows, callbacks, place)
    ensures forall i, j | 0 <= i < j < |NewPlaces(rows, callbacks)| ::
      NewPlaces(rows, callbacks)[i] != NewPlaces(rows, callbacks)[j]
  {
    if callbacks != [] {
      var front, last := callbacks[..|callbacks| - 1], callbacks[|callbacks| - 1];
      NewPlacesExactly(rows, front);
      OneCallOneCharge(rows, front, PlaceOf(last));
      forall place ensures place in NewPlaces(rows, callbacks) <==> IsNew(rows, callbacks, place) {
        assert place in NewPlaces(rows, front) <==> IsNew(rows, front, place);
      }
    }
  }

  /** Later deliveries do not change the first. */
  lemma FirstValueStays(g: Callback -> int, callbacks: seq<Callback>, place: Place)
    requires callbacks != [] && FirstDelivery(callbacks[..|callbacks| - 1], place).Some?
    ensures FirstValue(g, callbacks)(place) == FirstValue(g, callbacks[..|callbacks| - 1])(place)
  {
    assert FirstDelivery(callbacks, place) == FirstDelivery(callbacks[..|callbacks| - 1], place);
  }

  /**
   * Whatever figure is read off the entries, a run raises its total by what the first delivery at
   * each new place brings, and by nothing for the rest.
   */
  lemma {:induction false} RunAddsFirstDeliveries(
      f: Entry -> int, g: Callback -> int, rows: seq<Entry>, callbacks: seq<Callback>)
    requires UniqueKeys(rows) && forall c :: Billable(c) ==> f(ChargeOf(c)) == g(c)
    ensures Sum(f, DeliverAll(rows, callbacks))
         == Sum(f, rows) + Sum(FirstValue(g, callbacks), NewPlaces(rows, callbacks))
  {
    if callbacks != [] {
      var front, last := callbacks[..|callbacks| - 1], callbacks[|callbacks| - 1];
      var places := NewPlaces(rows, front);
      RunAddsFirstDeliveries(f, g, rows, front);
      NewPlacesExactly(rows, front);
      forall i | 0 <= i < |places| ensures FirstValue(g, front)(places[i]) == FirstValue(g, callbacks)(places[i]) {
        assert places[i] in places;
        FirstValueStays(g, callbacks, places[i]);
      }
      SumSame(FirstValue(g, front), FirstValue(g, callbacks), places);
      if Billable(last) {
        var place, before := PlaceOf(last), DeliverAll(rows, front);
        OneCallOneCharge(rows, front, place);
        if !HasEntry(before, "DEBIT", place) {
          assert FirstDelivery(callbacks, place) == Some(last);
          SumAppend(f, before, ChargeOf(last));
          SumAppend(FirstValue(g, callbacks), places, place);
          assert f(ChargeOf(last)) == g(last) == FirstValue(g, callbacks)(place);
        }
      }
    }
  }

  function NegativeCredits(workspace: string): Callback -> int {
    (c: Callback) => if c.workspace == workspace then 0 - VoiceCredits(c.seconds, c.kind) else 0
  }

  /** A workspace's balance after a run is its balance before it less each of its new calls' first-delivered charge. */
  lemma BalanceAfterRun(rows: seq<Entry>, callbacks: seq<Callback>, workspace: string)
    requires UniqueKeys(rows)
    ensures Sum(AmountIn(workspace), DeliverAll(rows, callbacks)) == Sum(AmountIn(workspace), rows)
          + Sum(FirstValue(NegativeCredits(workspace), callbacks), NewPlaces(rows, callbacks))
  {
    RunAddsFirstDeliveries(AmountIn(workspace), NegativeCredits(workspace), rows, callbacks);
  }
}
