/** A whole batch, and what any sequence of slices keeps. */
module SmsBatch {
  import opened Prelude
  import opened Sums
  import opened Text
  import opened SendWindow
  import opened SmsDispatch

  // ---------- at most one text per phone ----------

  /** Every text is on record, and no phone has more than one. */
  ghost predicate Clean(tab: Table) {
    forall p :: tab.texts[p] == tab.records[p] <= 1
  }

  /** The send took no text, or one whose message gets stored. */
  predicate KeepsText(f: Fate) {
    Texts(f) == 0 || (Texts(f) == 1 && Stored(f))
  }

  predicate Kept(slots: seq<Slot>) {
    forall i | 0 <= i < |slots| :: KeepsText(slots[i].fate)
  }

  /** With phones distinct, a sum over the slots of one phone is its one slot. */
  lemma {:induction false} SumOfOne(f: Slot -> int, slots: seq<Slot>, i: nat)
    requires DistinctPhones(slots) && i < |slots|
    requires forall k | 0 <= k < |slots| :: slots[k].member.phone != slots[i].member.phone ==> f(slots[k]) == 0
    ensures Sum(f, slots) == f(slots[i])
  {
    var n := |slots| - 1;
    if i == n {
      SumZero(f, slots[..n]);
    } else {
      SumOfOne(f, slots[..n], i);
    }
  }

  /** What a slice makes of the phone of one of its members. */
  lemma PhoneOfMember(s: Slice, i: nat)
    requires Finished(s) && DistinctPhones(s.slots) && i < |s.slots|
    ensures var slot, p := s.slots[i], s.slots[i].member.phone;
      && s.now.texts[p] == s.was.texts[p] + (if Proceeds(slot) then Texts(slot.fate) else 0)
      && s.now.records[p] == s.was.records[p] + (if Proceeds(slot) && Stored(slot.fate) then 1 else 0)
      && (slot.dup <==> s.was.records[p] > 0)
  {
    var p := s.slots[i].member.phone;
    SumOfOne(TextTo(p), s.slots, i);
    SumOfOne(RecordTo(p), s.slots, i);
  }

  /** A phone of no member keeps its texts and messages. */
  lemma PhoneOfNobody(s: Slice, p: string)
    requires Finished(s) && forall i | 0 <= i < |s.slots| :: s.slots[i].member.phone != p
    ensures s.now.texts[p] == s.was.texts[p] && s.now.records[p] == s.was.records[p]
  {
    SumZero(TextTo(p), s.slots);
    SumZero(RecordTo(p), s.slots);
  }

  /** A slice of distinct phones keeps the tables clean exactly when every member that was sent to kept its text. */
  lemma SliceCleanExactly(s: Slice)
    requires Finished(s) && DistinctPhones(s.slots) && Clean(s.was)
    ensures Clean(s.now) <==> forall i | 0 <= i < |s.slots| :: Proceeds(s.slots[i]) ==> KeepsText(s.slots[i].fate)
  {
    if Clean(s.now) {
      forall i | 0 <= i < |s.slots| && Proceeds(s.slots[i]) ensures KeepsText(s.slots[i].fate) {
        PhoneOfMember(s, i);
        assert s.now.texts[s.slots[i].member.phone] == s.now.records[s.slots[i].member.phone];
      }
    }
    if forall i | 0 <= i < |s.slots| :: Proceeds(s.slots[i]) ==> KeepsText(s.slots[i].fate) {
      forall p ensures s.now.texts[p] == s.now.records[p] <= 1 {
        SliceKeepsCleanAt(s, p);
      }
    }
  }

  lemma SliceKeepsCleanAt(s: Slice, p: string)
    requires Finished(s) && DistinctPhones(s.slots) && Clean(s.was)
    requires forall i | 0 <= i < |s.slots| :: Proceeds(s.slots[i]) ==> KeepsText(s.slots[i].fate)
    ensures s.now.texts[p] == s.now.records[p] <= 1
  {
    if i :| 0 <= i < |s.slots| && s.slots[i].member.phone == p {
      PhoneOfMember(s, i);
      AnswerTakesText(s.slots[i].fate.replies, SEND_ATTEMPTS);
    } else {
      PhoneOfNobody(s, p);
    }
  }

  lemma SliceKeepsClean(s: Slice)
    requires Finished(s) && DistinctPhones(s.slots) && Kept(s.slots) && Clean(s.was)
    ensures Clean(s.now)
  {
    SliceCleanExactly(s);
  }

  /** Slices one after another; between two of them the queue may change but no message is added. */
  ghost predicate Run(run: seq<Slice>) {
    && (forall i :: 0 <= i < |run| ==> Finished(run[i]))
    && (forall i :: 0 < i < |run| ==> Follows(run[i - 1], run[i]))
  }

  predicate Follows(s: Slice, t: Slice) {
    t.was.records == s.now.records && t.was.texts == s.now.texts
  }

  /** Over any sequence of batches, a phone gets at most one text of the campaign. */
  lemma {:induction false} TextedAtMostOnce(run: seq<Slice>, n: nat, p: string)
    requires Run(run) && n < |run| && Clean(run[0].was)
    requires forall i | 0 <= i < |run| :: DistinctPhones(run[i].slots) && Kept(run[i].slots)
    ensures Clean(run[n].was) && Clean(run[n].now)
    ensures run[n].now.texts[p] <= 1
  {
    if n > 0 {
      TextedAtMostOnce(run, n - 1, p);
      assert Follows(run[n - 1], run[n]);
    }
    SliceKeepsClean(run[n]);
  }

  /** A phone all of whose members are barred or outside their hours is never texted. */
  lemma BarredNeverTexted(s: Slice, p: string)
    requires Finished(s)
    requires forall i | 0 <= i < |s.slots| && s.slots[i].member.phone == p ::
      s.slots[i].member.optedOut || s.slots[i].member.incapable || !s.slots[i].member.allowed
    ensures s.now.texts[p] == s.was.texts[p]
  {
    SumZero(TextTo(p), s.slots);
  }

  /** Members outside their hours leave rows, messages and texts as they are. */
  lemma DeferredChangeNothing(s: Slice)
    requires Finished(s) && forall i | 0 <= i < |s.slots| :: !s.slots[i].member.allowed
    ensures s.now.queued == s.was.queued
    ensures s.now.texts == s.was.texts && s.now.records == s.was.records
    ensures forall i | 0 <= i < |s.slots| :: s.slots[i].phase == Done(Deferred)
  {
    forall p ensures s.now.texts[p] == s.was.texts[p] && s.now.records[p] == s.was.records[p] {
      SumZero(TextTo(p), s.slots);
      SumZero(RecordTo(p), s.slots);
    }
    assert forall r :: r in s.now.queued <==> r in s.was.queued;
  }

  // ---------- where it fails ----------

  /** Nothing but an earlier message would keep the member from being sent to. */
  predicate Sendable(m: Member) {
    m.allowed && !m.optedOut && !m.incapable
  }

  /**
   The duplicate gate on a retry. A phone with no message is in two slices one after the other. The
   second sends to it exactly when the first did not get as far as the record; so the carrier takes the
   second send's texts on top of the first's exactly then.
   */
  lemma RetryTextsAgainExactly(first: Slice, i: nat, second: Slice, j: nat)
    requires Finished(first) && Finished(second) && Follows(first, second)
    requires DistinctPhones(first.slots) && DistinctPhones(second.slots)
    requires i < |first.slots| && j < |second.slots| && first.slots[i].member.phone == second.slots[j].member.phone
    requires Sendable(first.slots[i].member) && Sendable(second.slots[j].member)
    requires first.was.records[first.slots[i].member.phone] == 0
    ensures var f, g, p := first.slots[i].fate, second.slots[j].fate, first.slots[i].member.phone;
      && (Proceeds(second.slots[j]) <==> !Stored(f))
      && second.now.texts[p] == first.was.texts[p] + Texts(f) + (if Stored(f) then 0 else Texts(g))
  {
    PhoneOfMember(first, i);
    PhoneOfMember(second, j);
  }

  /** A retry that is answered texts a phone that had its text already exactly when the first was not stored. */
  lemma TextedTwiceExactly(first: Slice, i: nat, second: Slice, j: nat)
    requires Finished(first) && Finished(second) && Follows(first, second)
    requires DistinctPhones(first.slots) && DistinctPhones(second.slots)
    requires i < |first.slots| && j < |second.slots| && first.slots[i].member.phone == second.slots[j].member.phone
    requires Sendable(first.slots[i].member) && Sendable(second.slots[j].member)
    requires first.was.records[first.slots[i].member.phone] == first.was.texts[first.slots[i].member.phone] == 0
    requires Created(second.slots[j].fate)
    ensures var f := first.slots[i].fate;
      second.now.texts[first.slots[i].member.phone] <= 1 <==>
        (if Stored(f) then Texts(f) == 1 else Texts(f) == 0 && Texts(second.slots[j].fate) == 1)
  {
    RetryTextsAgainExactly(first, i, second, j);
    AnswerTakesText(first.slots[i].fate.replies, SEND_ATTEMPTS);
    AnswerTakesText(second.slots[j].fate.replies, SEND_ATTEMPTS);
  }

  /** Equal phones in one slice: both members pass the duplicate gate before either message is stored. */
  lemma EqualPhonesTextTwice(a: Slot, b: Slot, tab: Table)
    requires a.phase.Ready? && b.phase.Ready? && a.member.phone == b.member.phone
    requires forall s | s in [a, b] ::
      Sendable(s.member) && Created(s.fate)
    requires tab.records[a.member.phone] == 0
    ensures var a1, b1 := NextSlot(a, tab), NextSlot(b, tab);
            && a1.phase == b1.phase == Sending
            && NextTable(b1, NextTable(a1, tab)).texts[a.member.phone] >= tab.texts[a.member.phone] + 2
  {
    assert a in [a, b] && b in [a, b];
    AnswerTakesText(a.fate.replies, SEND_ATTEMPTS);
    AnswerTakesText(b.fate.replies, SEND_ATTEMPTS);
  }

  // ---------- counting a batch ----------

  function IsOutcome(o: Outcome): Slot -> int {
    (s: Slot) => if s.phase == Done(o) then 1 else 0
  }

  /** Counted as failed although its row has left the queue. */
  function FailedButGone(): Slot -> int {
    (s: Slot) => if s.phase == Done(Failed) && Gone(s) then 1 else 0
  }

  lemma {:induction false} OutcomesAddUp(slots: seq<Slot>)
    requires AllDone(slots) && AllConsistent(slots)
    ensures Sum(IsOutcome(Sent), slots) + Sum(IsOutcome(Failed), slots)
          + Sum(IsOutcome(Dequeued), slots) + Sum(IsOutcome(Deferred), slots) == |slots|
    ensures Sum(GoneOne(), slots)
         == Sum(IsOutcome(Sent), slots) + Sum(IsOutcome(Dequeued), slots) + Sum(FailedButGone(), slots)
  {
    if slots != [] {
      var n := |slots| - 1;
      assert Consistent(slots[n]);
      OutcomesAddUp(slots[..n]);
    }
  }

  predicate DistinctAudience(audience: seq<Member>) {
    forall i, j | 0 <= i < j < |audience| :: audience[i].row != audience[j].row
  }

  function RowSet(audience: seq<Member>): set<nat> {
    set m | m in audience :: m.row
  }

  /** The end of the slice of the first `max` elements; a negative bound counts from the back. */
  function SliceEnd(length: nat, max: Option<int>): nat {
    match max
    case None => length
    case Some(n) => if n < 0 then (if length + n < 0 then 0 else length + n) else if n < length then n else length
  }

  /** The slots are those of the first members, finished, in order. */
  predicate Handled(slots: seq<Slot>, audience: seq<Member>, fates: seq<Fate>) {
    && |slots| <= |audience| == |fates|
    && AllDone(slots)
    && forall i | 0 <= i < |slots| :: slots[i].member == audience[i] && slots[i].fate == fates[i]
  }

  lemma RowLeftConcat(done: seq<Slot>, more: seq<Slot>, r: nat)
    ensures RowLeft(done + more, r) <==> RowLeft(done, r) || RowLeft(more, r)
  {
    var all := done + more;
    if RowLeft(done, r) {
      var k :| 0 <= k < |done| && done[k].member.row == r && Gone(done[k]);
      assert all[k] == done[k];
    }
    if RowLeft(more, r) {
      var k :| 0 <= k < |more| && more[k].member.row == r && Gone(more[k]);
      assert all[|done| + k] == more[k];
    }
    if RowLeft(all, r) {
      var k :| 0 <= k < |all| && all[k].member.row == r && Gone(all[k]);
      assert k < |done| ==> all[k] == done[k];
      assert k >= |done| ==> all[k] == more[k - |done|];
    }
  }

  lemma RowsCountedConcat(done: seq<Slot>, more: seq<Slot>, was: Table, mid: Table, now: Table)
    requires RowsCounted(done, was, mid) && RowsCounted(more, mid, now)
    ensures RowsCounted(done + more, was, now)
  {
    SumConcat(GoneOne(), done, more);
    forall r ensures r in now.queued <==> r in was.queued && !RowLeft(done + more, r) {
      RowLeftConcat(done, more, r);
    }
  }

  /** The members after those handled are still queued. */
  lemma RestStillQueued(done: seq<Slot>, audience: seq<Member>, fates: seq<Fate>, was: Table, now: Table, i: nat,
                        j: nat)
    requires Handled(done, audience, fates) && DistinctAudience(audience)
    requires RowSet(audience) <= was.queued && RowsCounted(done, was, now)
    requires i == |done| <= j <= |audience|
    ensures RowsQueued(Enter(audience[i..j], fates[i..j]), now)
  {
    var slots := Enter(audience[i..j], fates[i..j]);
    forall k | 0 <= k < |slots| ensures slots[k].member.row in now.queued {
      var m := audience[i + k];
      assert m in audience;
      assert m.row in RowSet(audience);
    }
  }

  lemma HandledMore(done: seq<Slot>, more: seq<Slot>, audience: seq<Member>, fates: seq<Fate>, i: nat, j: nat)
    requires Handled(done, audience, fates) && i == |done| <= j <= |audience|
    requires |more| == j - i && AllDone(more)
    requires forall k | 0 <= k < |more| :: more[k].member == audience[i..j][k] && more[k].fate == fates[i..j][k]
    ensures Handled(done + more, audience, fates)
  {
  }

  /** The trace of slices leads from one table to the other. */
  ghost predicate Leads(run: seq<Slice>, size: nat, was: Table, now: Table) {
    && Run(run)
    && (forall i | 0 <= i < |run| :: 0 < |run[i].slots| <= size)
    && (if run == [] then now == was else run[0].was == was && run[|run| - 1].now == now)
  }

  lemma LeadsOn(run: seq<Slice>, size: nat, was: Table, s: Slice)
    requires Leads(run, size, was, s.was) && Finished(s) && 0 < |s.slots| <= size
    ensures Leads(run + [s], size, was, s.now)
  {
    RunMore(run, s);
    assert forall i | 0 <= i < |run + [s]| :: i < |run| ==> (run + [s])[i] == run[i];
  }

  lemma RunMore(run: seq<Slice>, s: Slice)
    requires Run(run) && Finished(s) && (run != [] ==> Follows(run[|run| - 1], s))
    ensures Run(run + [s])
  {
    var more := run + [s];
    forall i | 0 < i < |more| ensures Follows(more[i - 1], more[i]) {
      if i < |run| {
        assert Follows(run[i - 1], run[i]);
      }
    }
    forall i | 0 <= i < |more| ensures Finished(more[i]) {
      if i < |run| {
        assert Finished(run[i]);
      }
    }
  }

  lemma TotalsConcat(done: seq<Slot>, more: seq<Slot>, was: Table, mid: Table, now: Table)
    requires TextsCounted(done, was, mid) && TextsCounted(more, mid, now)
    requires RecordsCounted(done, was, mid) && RecordsCounted(more, mid, now)
    ensures TextsCounted(done + more, was, now) && RecordsCounted(done + more, was, now)
  {
    forall p
      ensures now.texts[p] == was.texts[p] + Sum(TextTo(p), done + more)
      ensures now.records[p] == was.records[p] + Sum(RecordTo(p), done + more)
    {
      SumConcat(TextTo(p), done, more);
      SumConcat(RecordTo(p), done, more);
    }
  }

  /** With phones distinct, later members too see what the first started with. */
  lemma SightConcat(done: seq<Slot>, more: seq<Slot>, was: Table, mid: Table)
    requires DistinctPhones(done + more) && SawStart(done, was) && SawStart(more, mid)
    requires RecordsCounted(done, was, mid)
    ensures SawStart(done + more, was)
  {
    var all := done + more;
    forall i | 0 <= i < |all| && !all[i].phase.Ready? ensures all[i].dup <==> was.records[all[i].member.phone] > 0 {
      if i < |done| {
        assert all[i] == done[i];
      } else {
        assert all[i] == more[i - |done|];
        OthersHaveNone(done, all, i);
      }
    }
  }

  lemma OthersHaveNone(done: seq<Slot>, all: seq<Slot>, i: nat)
    requires done <= all && |done| <= i < |all| && DistinctPhones(all)
    ensures Sum(RecordTo(all[i].member.phone), done) == 0
  {
    forall k | 0 <= k < |done| ensures RecordTo(all[i].member.phone)(done[k]) == 0 {
      assert done[k] == all[k];
    }
    SumZero(RecordTo(all[i].member.phone), done);
  }

  lemma DistinctParts(done: seq<Slot>, more: seq<Slot>)
    requires DistinctPhones(done + more)
    ensures DistinctPhones(done) && DistinctPhones(more)
  {
    var all := done + more;
    assert forall i | 0 <= i < |done| :: all[i] == done[i];
    assert forall i | 0 <= i < |more| :: all[|done| + i] == more[i];
  }

  /** Slices one after the other come to what one slice of all their members comes to. */
  lemma FinishedConcat(done: seq<Slot>, more: seq<Slot>, was: Table, mid: Table, now: Table)
    requires Finished(Slice(done, was, mid)) && Finished(Slice(more, mid, now))
    ensures Finished(Slice(done + more, was, now))
  {
    TotalsConcat(done, more, was, mid, now);
    RowsCountedConcat(done, more, was, mid, now);
    if DistinctPhones(done + more) {
      DistinctParts(done, more);
      SightConcat(done, more, was, mid);
    }
  }

  /**
   The loop over slices, with the trace of the slices it ran. Together they come to what one slice of all
   members comes to.
   */
  method SendSlices(db: SmsDb, audience: seq<Member>, fates: seq<Fate>, size: nat)
    returns (done: seq<Slot>, ghost run: seq<Slice>)
    requires size > 0 && |audience| == |fates| && DistinctAudience(audience) && RowSet(audience) <= db.queued
    modifies db
    ensures Handled(done, audience, fates) && |done| == |audience|
    ensures Finished(Slice(done, old(db.Tab()), db.Tab()))
    ensures Leads(run, size, old(db.Tab()), db.Tab())
  {
    done, run := [], [];
    ghost var was := db.Tab();
    EnterAccounted(done, was);
    var i := 0;
    while i < |audience|
      invariant i == |done| && Handled(done, audience, fates)
      invariant Finished(Slice(done, was, db.Tab()))
      invariant Leads(run, size, was, db.Tab())
      decreases |audience| - i
    {
      var j := if i + size < |audience| then i + size else |audience|;
      RestStillQueued(done, audience, fates, was, db.Tab(), i, j);
      ghost var mid := db.Tab();
      var slots := db.RunSlice(audience[i..j], fates[i..j]);
      FinishedConcat(done, slots, was, mid, db.Tab());
      HandledMore(done, slots, audience, fates, i, j);
      LeadsOn(run, size, was, Slice(slots, mid, db.Tab()));
      done := done + slots;
      run := run + [Slice(slots, mid, db.Tab())];
      i := j;
    }
  }

  datatype BatchOutcome =
    | InsufficientCredits
    | CallerIdRequired
    | DeferredSendWindow
    | Dispatched(responses: seq<(nat, Outcome)>, sent: nat, failed: nat, dequeued: nat, deferred: nat,
                 queuedRemaining: int)

  method CountOutcomes(done: seq<Slot>)
    returns (responses: seq<(nat, Outcome)>, sent: nat, failed: nat, dequeued: nat, deferred: nat)
    requires AllDone(done)
    ensures |responses| == |done|
    ensures forall i | 0 <= i < |done| :: responses[i] == (done[i].member.contact, done[i].phase.outcome)
    ensures sent == Sum(IsOutcome(Sent), done) && failed == Sum(IsOutcome(Failed), done)
    ensures dequeued == Sum(IsOutcome(Dequeued), done) && deferred == Sum(IsOutcome(Deferred), done)
  {
    responses, sent, failed, dequeued, deferred := [], 0, 0, 0, 0;
    for i := 0 to |done|
      invariant |responses| == i
      invariant forall k | 0 <= k < i :: responses[k] == (done[k].member.contact, done[k].phase.outcome)
      invariant sent == Sum(IsOutcome(Sent), done[..i]) && failed == Sum(IsOutcome(Failed), done[..i])
      invariant dequeued == Sum(IsOutcome(Dequeued), done[..i]) && deferred == Sum(IsOutcome(Deferred), done[..i])
    {
      assert done[..i + 1] == done[..i] + [done[i]];
      SumAppend(IsOutcome(Sent), done[..i], done[i]);
      SumAppend(IsOutcome(Failed), done[..i], done[i]);
      SumAppend(IsOutcome(Dequeued), done[..i], done[i]);
      SumAppend(IsOutcome(Deferred), done[..i], done[i]);
      responses := responses + [(done[i].member.contact, done[i].phase.outcome)];
      match done[i].phase.outcome {
        case Sent => sent := sent + 1;
        case Failed => failed := failed + 1;
        case Dequeued => dequeued := dequeued + 1;
        case Deferred => deferred := deferred + 1;
      }
    }
    assert done[..|done|] == done;
  }

  /** The gates ahead of the loop: the first that is shut decides. */
  function Gates(creditsOk: bool, requiresCallerId: bool, requestId: string, campaignId: string,
                 explicit: bool, inWindow: bool): Option<BatchOutcome>
  {
    var asked := Trim(requestId);
    var effective := if asked != "" then asked else Trim(campaignId);
    if !creditsOk then Some(InsufficientCredits)
    else if requiresCallerId && (if explicit then asked else effective) == "" then Some(CallerIdRequired)
    else if !inWindow then Some(DeferredSendWindow)
    else None
  }

  /**
   Which requests pass, and at which gate the others end. A caller id of blanks is none; the campaign's own one
   counts unless the request has to bring one.
   */
  lemma GatesExactly(creditsOk: bool, requiresCallerId: bool, requestId: string, campaignId: string, explicit: bool,
                     inWindow: bool)
    ensures var shut := Gates(creditsOk, requiresCallerId, requestId, campaignId, explicit, inWindow);
      var caller := !AllSpace(requestId) || (!explicit && !AllSpace(campaignId));
      && (shut.None? <==> creditsOk && (requiresCallerId ==> caller) && inWindow)
      && (shut == Some(InsufficientCredits) <==> !creditsOk)
      && (shut == Some(CallerIdRequired) <==> creditsOk && requiresCallerId && !caller)
      && (shut == Some(DeferredSendWindow) <==> creditsOk && (requiresCallerId ==> caller) && !inWindow)
  {
    TrimEmptyExactly(requestId);
    TrimEmptyExactly(campaignId);
  }

  /** How many members a bound lets a batch take: no more than it says, or all but as many as it says from the back. */
  lemma BoundExactly(length: nat, max: Option<int>)
    ensures var n := SliceEnd(length, max);
      && n <= length && (max.None? ==> n == length)
      && (max.Some? && max.value >= 0 ==> n <= max.value && (n < length ==> n == max.value))
      && (max.Some? && max.value < 0 ==> n == 0 || n == length + max.value)
      && (max.Some? && max.value < 0 && -max.value < length ==> n == length + max.value)
  {
  }

  /** The result counts the members by outcome and says how many rows should be left. */
  ghost predicate Tallied(outcome: BatchOutcome, done: seq<Slot>, queued: set<nat>) {
    && outcome.Dispatched?
    && |outcome.responses| == |done|
    && (forall i | 0 <= i < |done| ::
          done[i].phase.Done? && outcome.responses[i] == (done[i].member.contact, done[i].phase.outcome))
    && outcome.sent == Sum(IsOutcome(Sent), done) && outcome.failed == Sum(IsOutcome(Failed), done)
    && outcome.dequeued == Sum(IsOutcome(Dequeued), done) && outcome.deferred == Sum(IsOutcome(Deferred), done)
    && outcome.sent + outcome.failed + outcome.dequeued + outcome.deferred == |done|
    && outcome.queuedRemaining == |queued| + Sum(FailedButGone(), done)
  }

  /** The part behind the gates. */
  method DispatchAudience(db: SmsDb, audience: seq<Member>, fates: seq<Fate>, size: nat, maxContacts: Option<int>)
    returns (outcome: BatchOutcome, ghost done: seq<Slot>, ghost run: seq<Slice>)
    requires 0 < size <= 25 && |audience| == |fates|
    requires DistinctAudience(audience) && RowSet(audience) == db.queued
    modifies db
    ensures |done| == SliceEnd(|audience|, maxContacts) && Tallied(outcome, done, db.queued)
    ensures Handled(done, audience, fates) && Finished(Slice(done, old(db.Tab()), db.Tab()))
    ensures Leads(run, size, old(db.Tab()), db.Tab())
  {
    var n := SliceEnd(|audience|, maxContacts);
    var members := audience[..n];
    RowCount(audience);
    assert RowSet(members) <= RowSet(audience);
    var slots, trace := SendSlices(db, members, fates[..n], size);
    OutcomesAddUp(slots);
    var responses, sent, failed, dequeued, deferred := CountOutcomes(slots);
    outcome := Dispatched(responses, sent, failed, dequeued, deferred, |audience| - |members| + deferred + failed);
    done, run := slots, trace;
  }

  method DispatchCampaignSmsBatch(db: SmsDb, creditsOk: bool, requiresCallerId: bool, requestId: string,
                                  campaignId: string, explicit: bool, sendWindow: Option<RawWindow>, now: int,
                                  audience: seq<Member>, fates: seq<Fate>, size: nat, maxContacts: Option<int>)
    returns (outcome: BatchOutcome, ghost done: seq<Slot>, ghost run: seq<Slice>)
    requires 0 < size <= 25 && |audience| == |fates|
    requires DistinctAudience(audience) && RowSet(audience) == db.queued
    modifies db
    ensures var shut :=
        Gates(creditsOk, requiresCallerId, requestId, campaignId, explicit, IsWithinSendWindow(sendWindow, now));
      && (shut.Some? ==> outcome == shut.value && done == [])
      && (shut.None? ==> |done| == SliceEnd(|audience|, maxContacts) && Tallied(outcome, done, db.queued))
    ensures Handled(done, audience, fates) && Finished(Slice(done, old(db.Tab()), db.Tab()))
    ensures Leads(run, size, old(db.Tab()), db.Tab())
  {
    done, run := [], [];
    EnterAccounted(done, db.Tab());
    var asked := Trim(requestId);
    var effective := if asked != "" then asked else Trim(campaignId);
    if !creditsOk {
      return InsufficientCredits, done, run;
    }
    var idForGate := if explicit then asked else effective;
    if requiresCallerId && idForGate == "" {
      return CallerIdRequired, done, run;
    }
    var window := ParseSendWindow(sendWindow);
    ParseSendWindowIdempotent(sendWindow);
    if !IsWithinSendWindow(window, now) {
      return DeferredSendWindow, done, run;
    }
    outcome, done, run := DispatchAudience(db, audience, fates, size, maxContacts);
  }

  lemma RowSetAppend(front: seq<Member>, m: Member)
    ensures RowSet(front + [m]) == RowSet(front) + {m.row}
  {
    var all := front + [m];
    forall r ensures r in RowSet(all) <==> r in RowSet(front) || r == m.row {
      if r in RowSet(all) {
        var x :| x in all && x.row == r;
        assert x in front || x == m;
      }
      if r in RowSet(front) {
        var x :| x in front && x.row == r;
        assert x in all;
      }
      if r == m.row {
        assert m in all;
      }
    }
  }

  lemma {:induction false} RowCount(audience: seq<Member>)
    requires DistinctAudience(audience)
    ensures |RowSet(audience)| == |audience|
  {
    if audience != [] {
      var front, m := audience[..|audience| - 1], audience[|audience| - 1];
      RowCount(front);
      assert audience == front + [m];
      RowSetAppend(front, m);
      assert m.row !in RowSet(front);
    }
  }
}
