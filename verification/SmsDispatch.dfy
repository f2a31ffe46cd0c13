/**
 * Dispatch of one campaign SMS batch. The members of a slice run concurrently: every await is a
 * point at which another member of the slice may go on, and any order of going on is allowed.
 */
module SmsDispatch {
  import opened Sums

  datatype Member = Member(
    row: nat,
    contact: nat,
    phone: string,
    allowed: bool,
    optedOut: bool,
    incapable: bool)

  // ---------- the carrier ----------

  const SEND_ATTEMPTS: nat := 3

  /** How a create call ends: answered, refused, or the text taken and the answer lost. */
  datatype Reply = Answered | Refused(retryable: bool) | Lost(retryable: bool)

  predicate GoesAgain(r: Reply) {
    !r.Answered? && r.retryable
  }

  predicate Takes(r: Reply) {
    !r.Refused?
  }

  /** Texts the carrier takes in a send of at most `left` calls. */
  function TextsOut(replies: seq<Reply>, left: nat): nat {
    if left == 0 || replies == [] then 0
    else (if Takes(replies[0]) then 1 else 0) + if GoesAgain(replies[0]) then TextsOut(replies[1..], left - 1) else 0
  }

  /** Whether the send ends with an answer. */
  predicate Answers(replies: seq<Reply>, left: nat) {
    left > 0 && replies != [] && (replies[0].Answered? || (GoesAgain(replies[0]) && Answers(replies[1..], left - 1)))
  }

  /** An answered send took at least one text, and no send takes more than its calls. */
  lemma {:induction false} AnswerTakesText(replies: seq<Reply>, left: nat)
    ensures TextsOut(replies, left) <= left
    ensures Answers(replies, left) ==> TextsOut(replies, left) >= 1
  {
    if left > 0 && replies != [] {
      AnswerTakesText(replies[1..], left - 1);
    }
  }

  /** An answered send takes more than one text exactly when an answer was lost on the way. */
  lemma {:induction false} OneTextExactly(replies: seq<Reply>, left: nat)
    requires Answers(replies, left)
    ensures TextsOut(replies, left) == 1 <==>
      forall k | 0 <= k < |replies| && k < left && Called(replies, k) :: !replies[k].Lost?
    decreases left
  {
    if GoesAgain(replies[0]) {
      var rest := replies[1..];
      OneTextExactly(rest, left - 1);
      AnswerTakesText(rest, left - 1);
      assert Called(replies, 0);
      forall k | 0 <= k < |rest| ensures Called(replies, k + 1) <==> Called(rest, k) {
        CalledNext(replies, k);
      }
      assert forall k | 0 <= k < |rest| :: replies[k + 1] == rest[k];
      assert forall k | 0 < k < |replies| :: replies[k] == rest[k - 1] && (Called(replies, k) <==> Called(rest, k - 1));
    } else {
      assert forall k | 0 < k < |replies| && Called(replies, k) :: GoesAgain(replies[0]);
    }
  }

  /** The `k`th call is made if every call before it asks for another. */
  predicate Called(replies: seq<Reply>, k: nat) {
    k <= |replies| && forall i | 0 <= i < k :: GoesAgain(replies[i])
  }

  lemma CalledNext(replies: seq<Reply>, k: nat)
    requires replies != [] && GoesAgain(replies[0]) && k < |replies[1..]|
    ensures Called(replies, k + 1) <==> Called(replies[1..], k)
  {
    var rest := replies[1..];
    assert forall i | 0 <= i < k :: replies[i + 1] == rest[i];
    if Called(rest, k) {
      forall i | 0 <= i < k + 1 ensures GoesAgain(replies[i]) {
        assert i > 0 ==> replies[i] == rest[i - 1];
      }
    }
  }

  /** withTwilioRetry around the create call. */
  method WithTwilioRetry(replies: seq<Reply>) returns (texts: nat, answered: bool)
    ensures texts == TextsOut(replies, SEND_ATTEMPTS) && answered == Answers(replies, SEND_ATTEMPTS)
  {
    texts, answered := 0, false;
    var attempt: nat := 0;
    while attempt < SEND_ATTEMPTS && attempt < |replies|
      invariant attempt <= SEND_ATTEMPTS && attempt <= |replies| && !answered
      invariant TextsOut(replies, SEND_ATTEMPTS) == texts + TextsOut(replies[attempt..], SEND_ATTEMPTS - attempt)
      invariant Answers(replies, SEND_ATTEMPTS) == Answers(replies[attempt..], SEND_ATTEMPTS - attempt)
    {
      var reply := replies[attempt];
      assert replies[attempt..][1..] == replies[attempt + 1..];
      if Takes(reply) {
        texts := texts + 1;
      }
      if reply.Answered? {
        return texts, true;
      }
      if !reply.retryable {
        return;
      }
      attempt := attempt + 1;
    }
  }

  /** The `k`th call is made, as the calls before it failed and may be made again, and it takes the text. */
  function Took(replies: seq<Reply>, k: nat): nat {
    if k < |replies| && (forall i | 0 <= i < k :: !replies[i].Answered? && replies[i].retryable) && !replies[k].Refused?
    then 1 else 0
  }

  /** A send is three calls at most: which of them are made, what they take, and whether one is answered. */
  lemma SendInFigures(replies: seq<Reply>)
    ensures TextsOut(replies, SEND_ATTEMPTS) == Took(replies, 0) + Took(replies, 1) + Took(replies, 2)
    ensures Answers(replies, SEND_ATTEMPTS) <==>
      exists k ::
        0 <= k < 3 && k < |replies| && replies[k].Answered?
        && forall i | 0 <= i < k :: !replies[i].Answered? && replies[i].retryable
  {
    TextsAt(replies, SEND_ATTEMPTS);
    AnswersAt(replies, SEND_ATTEMPTS);
    if |replies| > 0 {
      var second := replies[1..];
      TextsAt(second, SEND_ATTEMPTS - 1);
      AnswersAt(second, SEND_ATTEMPTS - 1);
      if |second| > 0 {
        TextsAt(second[1..], SEND_ATTEMPTS - 2);
        AnswersAt(second[1..], SEND_ATTEMPTS - 2);
        assert second[0] == replies[1] && second[1..] == replies[2..];
      }
    }
    if Answers(replies, SEND_ATTEMPTS) {
      assert replies[0].Answered? || replies[1].Answered? || replies[2].Answered?;
    }
  }

  lemma TextsAt(replies: seq<Reply>, left: nat)
    requires left > 0
    ensures TextsOut(replies, left) == if replies == [] then 0
      else (if Takes(replies[0]) then 1 else 0)
           + if GoesAgain(replies[0]) then TextsOut(replies[1..], left - 1) else 0
  {
  }

  lemma AnswersAt(replies: seq<Reply>, left: nat)
    requires left > 0
    ensures Answers(replies, left) <==>
      replies != [] && (replies[0].Answered? || (GoesAgain(replies[0]) && Answers(replies[1..], left - 1)))
  {
  }

  // ---------- a member on its way ----------

  /** What the calls made for a member will return. */
  datatype Fate = Fate(replies: seq<Reply>, attempted: bool, updated: bool, persisted: bool, unqueued: bool)

  predicate Created(f: Fate) {
    Answers(f.replies, SEND_ATTEMPTS)
  }

  function Texts(f: Fate): nat {
    TextsOut(f.replies, SEND_ATTEMPTS)
  }

  /** The message gets as far as its record. */
  predicate Stored(f: Fate) {
    Created(f) && f.attempted && f.updated && f.persisted
  }

  datatype Outcome = Sent | Failed | Dequeued | Deferred

  /** Where a member's handling stands; each phase is one wait for a call. */
  datatype Phase =
    | Ready
    | Dropping
    | Sending
    | Updating
    | Persisting
    | Unqueuing(stored: bool)
    | Done(outcome: Outcome)

  /** A member, what its calls will return, whether it saw an earlier message, and its phase. */
  datatype Slot = Slot(member: Member, fate: Fate, dup: bool, phase: Phase)

  /** Queued rows, the campaign's stored messages by phone, and the texts the carrier accepted. */
  datatype Table = Table(queued: set<nat>, records: multiset<string>, texts: multiset<string>)

  // ---------- one step of one member ----------

  predicate Barred(m: Member, dup: bool) {
    m.optedOut || m.incapable || dup
  }

  function NextSlot(s: Slot, tab: Table): (next: Slot)
    requires !s.phase.Done?
    ensures next.member == s.member && next.fate == s.fate
  {
    var m, f := s.member, s.fate;
    match s.phase
    case Ready =>
      var dup := tab.records[m.phone] > 0;
      Slot(m, f, dup, if !m.allowed then Done(Deferred) else if Barred(m, dup) then Dropping else Sending)
    case Dropping => s.(phase := Done(Dequeued))
    case Sending => s.(phase := if Created(f) && f.attempted then Updating else Done(Failed))
    case Updating => s.(phase := if f.updated then Persisting else Done(Failed))
    case Persisting => s.(phase := Unqueuing(f.persisted))
    case Unqueuing(stored) => s.(phase := Done(if stored && f.unqueued then Sent else Failed))
  }

  function NextTable(s: Slot, tab: Table): Table
    requires !s.phase.Done?
  {
    var m, f := s.member, s.fate;
    match s.phase
    case Ready => tab
    case Dropping => tab.(queued := tab.queued - {m.row})
    case Sending => tab.(texts := tab.texts[m.phone := tab.texts[m.phone] + Texts(f)])
    case Updating => tab
    case Persisting => if f.persisted then tab.(records := tab.records + multiset{m.phone}) else tab
    case Unqueuing(_) => if f.unqueued then tab.(queued := tab.queued - {m.row}) else tab
  }

  // ---------- what a member comes to ----------

  predicate Proceeds(s: Slot) {
    s.member.allowed && !Barred(s.member, s.dup)
  }

  predicate Completes(f: Fate) {
    Stored(f) && f.unqueued
  }

  function Verdict(s: Slot): Outcome {
    if !s.member.allowed then Deferred
    else if Barred(s.member, s.dup) then Dequeued
    else if Completes(s.fate) then Sent
    else Failed
  }

  predicate PastSending(s: Slot) {
    s.phase.Updating? || s.phase.Persisting? || s.phase.Unqueuing? || s.phase.Done?
  }

  /** By its phase: how many texts went out, is the message stored, has the row left the queue? */
  function Texted(s: Slot): nat {
    if Proceeds(s) && PastSending(s) then Texts(s.fate) else 0
  }

  predicate Recorded(s: Slot) {
    Proceeds(s) && Stored(s.fate) && (s.phase.Unqueuing? || s.phase.Done?)
  }

  predicate Gone(s: Slot) {
    && s.phase.Done? && s.member.allowed
    && (Barred(s.member, s.dup) || (Created(s.fate) && s.fate.attempted && s.fate.updated && s.fate.unqueued))
  }

  /** The phase agrees with the member, its fate and what it saw. */
  predicate Consistent(s: Slot) {
    match s.phase
    case Ready => !s.dup
    case Dropping => s.member.allowed && Barred(s.member, s.dup)
    case Sending => Proceeds(s)
    case Updating => Proceeds(s) && Created(s.fate) && s.fate.attempted
    case Persisting => Proceeds(s) && Created(s.fate) && s.fate.attempted && s.fate.updated
    case Unqueuing(stored) =>
      Proceeds(s) && Created(s.fate) && s.fate.attempted && s.fate.updated && stored == s.fate.persisted
    case Done(outcome) => outcome == Verdict(s)
  }

  /**
   How a member's handling ends: put off outside its hours; else dropped if it opted out, cannot receive or
   had a message already; else sent if all its calls got through. Its row has left the queue exactly if it was
   dropped, or its calls got through but for the storing of the message.
   */
  lemma OutcomeExactly(s: Slot)
    requires s.phase.Done? && Consistent(s)
    ensures var m, f := s.member, s.fate;
      var called := Answers(f.replies, 3) && f.attempted && f.updated && f.unqueued;
      var dropped := m.optedOut || m.incapable || s.dup;
      && s.phase.outcome == (if !m.allowed then Deferred else if dropped then Dequeued
                             else if called && f.persisted then Sent else Failed)
      && (Gone(s) <==> m.allowed && (dropped || called))
  {
  }

  function TextTo(p: string): Slot -> int {
    (s: Slot) => if s.member.phone == p then Texted(s) else 0
  }

  function RecordTo(p: string): Slot -> int {
    (s: Slot) => if s.member.phone == p && Recorded(s) then 1 else 0
  }

  function GoneOne(): Slot -> int {
    (s: Slot) => if Gone(s) then 1 else 0
  }

  function StepsLeft(): Slot -> int {
    (s: Slot) => match s.phase
      case Ready => 6
      case Sending => 5
      case Updating => 4
      case Persisting => 3
      case Unqueuing(_) => 2
      case Dropping => 1
      case Done(_) => 0
  }

  predicate DistinctRows(slots: seq<Slot>) {
    forall i, j | 0 <= i < j < |slots| :: slots[i].member.row != slots[j].member.row
  }

  predicate DistinctPhones(slots: seq<Slot>) {
    forall i, j | 0 <= i < j < |slots| :: slots[i].member.phone != slots[j].member.phone
  }

  predicate AllDone(slots: seq<Slot>) {
    forall i | 0 <= i < |slots| :: slots[i].phase.Done?
  }

  ghost predicate AllConsistent(slots: seq<Slot>) {
    forall i :: 0 <= i < |slots| ==> Consistent(slots[i])
  }

  ghost predicate TextsCounted(slots: seq<Slot>, was: Table, now: Table) {
    forall p :: now.texts[p] == was.texts[p] + Sum(TextTo(p), slots)
  }

  ghost predicate RecordsCounted(slots: seq<Slot>, was: Table, now: Table) {
    forall p :: now.records[p] == was.records[p] + Sum(RecordTo(p), slots)
  }

  predicate RowLeft(slots: seq<Slot>, row: nat) {
    exists k :: 0 <= k < |slots| && slots[k].member.row == row && Gone(slots[k])
  }

  ghost predicate RowsCounted(slots: seq<Slot>, was: Table, now: Table) {
    && (forall r :: r in now.queued <==> r in was.queued && !RowLeft(slots, r))
    && |now.queued| == |was.queued| - Sum(GoneOne(), slots)
  }

  /** The table is what the slots, as far as they have come, make of the table they started from. */
  ghost predicate Accounted(slots: seq<Slot>, was: Table, now: Table) {
    && AllConsistent(slots)
    && TextsCounted(slots, was, now)
    && RecordsCounted(slots, was, now)
    && RowsCounted(slots, was, now)
  }

  predicate RowsQueued(slots: seq<Slot>, tab: Table) {
    DistinctRows(slots) && RowsIn(slots, tab.queued)
  }

  predicate RowsIn(slots: seq<Slot>, rows: set<nat>) {
    forall i | 0 <= i < |slots| :: slots[i].member.row in rows
  }

  // ---------- a step keeps the account ----------

  lemma StepKeepsTexts(slots: seq<Slot>, was: Table, now: Table, k: nat)
    requires k < |slots| && !slots[k].phase.Done? && Consistent(slots[k])
    requires TextsCounted(slots, was, now)
    ensures TextsCounted(slots[k := NextSlot(slots[k], now)], was, NextTable(slots[k], now))
  {
    var next := NextSlot(slots[k], now);
    forall p ensures NextTable(slots[k], now).texts[p] == was.texts[p] + Sum(TextTo(p), slots[k := next]) {
      SumUpdate(TextTo(p), slots, k, next);
    }
  }

  lemma StepKeepsRecords(slots: seq<Slot>, was: Table, now: Table, k: nat)
    requires k < |slots| && !slots[k].phase.Done? && Consistent(slots[k])
    requires RecordsCounted(slots, was, now)
    ensures RecordsCounted(slots[k := NextSlot(slots[k], now)], was, NextTable(slots[k], now))
  {
    var next := NextSlot(slots[k], now);
    forall p ensures NextTable(slots[k], now).records[p] == was.records[p] + Sum(RecordTo(p), slots[k := next]) {
      SumUpdate(RecordTo(p), slots, k, next);
    }
  }

  lemma RowLeftAfter(slots: seq<Slot>, k: nat, next: Slot, r: nat)
    requires DistinctRows(slots) && k < |slots| && !Gone(slots[k]) && next.member == slots[k].member
    ensures RowLeft(slots[k := next], r) <==> RowLeft(slots, r) || (r == next.member.row && Gone(next))
  {
    var after := slots[k := next];
    if RowLeft(slots, r) {
      var i :| 0 <= i < |slots| && slots[i].member.row == r && Gone(slots[i]);
      assert after[i] == slots[i];
    }
    if r == next.member.row && Gone(next) {
      assert after[k] == next;
    }
    if RowLeft(after, r) {
      var i :| 0 <= i < |after| && after[i].member.row == r && Gone(after[i]);
      assert i != k ==> slots[i] == after[i];
    }
  }

  lemma RowStillQueued(slots: seq<Slot>, was: Table, now: Table, k: nat)
    requires RowsQueued(slots, was) && RowsCounted(slots, was, now)
    requires k < |slots| && !Gone(slots[k])
    ensures slots[k].member.row in now.queued
  {
  }

  lemma StepKeepsRows(slots: seq<Slot>, was: Table, now: Table, k: nat)
    requires k < |slots| && !slots[k].phase.Done? && Consistent(slots[k])
    requires RowsQueued(slots, was) && RowsCounted(slots, was, now)
    ensures RowsCounted(slots[k := NextSlot(slots[k], now)], was, NextTable(slots[k], now))
  {
    var next, then' := NextSlot(slots[k], now), NextTable(slots[k], now);
    SumUpdate(GoneOne(), slots, k, next);
    RowStillQueued(slots, was, now, k);
    assert then'.queued == if Gone(next) then now.queued - {next.member.row} else now.queued;
    forall r ensures r in then'.queued <==> r in was.queued && !RowLeft(slots[k := next], r) {
      RowLeftAfter(slots, k, next, r);
    }
  }

  lemma StepConsistent(s: Slot, tab: Table)
    requires !s.phase.Done? && Consistent(s)
    ensures Consistent(NextSlot(s, tab)) && StepsLeft()(NextSlot(s, tab)) < StepsLeft()(s)
  {
  }

  lemma StepKeepsAccount(slots: seq<Slot>, was: Table, now: Table, k: nat)
    requires k < |slots| && !slots[k].phase.Done?
    requires RowsQueued(slots, was) && Accounted(slots, was, now)
    ensures Accounted(slots[k := NextSlot(slots[k], now)], was, NextTable(slots[k], now))
  {
    StepConsistent(slots[k], now);
    StepKeepsTexts(slots, was, now, k);
    StepKeepsRecords(slots, was, now, k);
    StepKeepsRows(slots, was, now, k);
  }

  // ---------- what a member sees ----------

  /** With phones distinct, every member that has looked saw exactly what the slice started with. */
  ghost predicate SawStart(slots: seq<Slot>, was: Table) {
    forall i :: 0 <= i < |slots| && !slots[i].phase.Ready? ==>
      (slots[i].dup <==> was.records[slots[i].member.phone] > 0)
  }

  lemma StepKeepsSight(slots: seq<Slot>, was: Table, now: Table, k: nat)
    requires k < |slots| && !slots[k].phase.Done?
    requires DistinctPhones(slots) && RecordsCounted(slots, was, now) && SawStart(slots, was)
    ensures SawStart(slots[k := NextSlot(slots[k], now)], was)
  {
    if slots[k].phase.Ready? {
      var p := slots[k].member.phone;
      SumZero(RecordTo(p), slots);
    }
  }

  // ---------- a slice ----------

  /** A finished slice with the tables before and after it. */
  datatype Slice = Slice(slots: seq<Slot>, was: Table, now: Table)

  ghost predicate Finished(s: Slice) {
    && AllDone(s.slots)
    && Accounted(s.slots, s.was, s.now)
    && (DistinctPhones(s.slots) ==> SawStart(s.slots, s.was))
  }

  lemma {:induction false} StepsLeftOfDone(slots: seq<Slot>)
    ensures Sum(StepsLeft(), slots) >= 0
    ensures AllDone(slots) ==> Sum(StepsLeft(), slots) == 0
  {
    if slots != [] {
      StepsLeftOfDone(slots[..|slots| - 1]);
    }
  }

  function Enter(members: seq<Member>, fates: seq<Fate>): seq<Slot>
    requires |members| == |fates|
  {
    seq(|members|, i requires 0 <= i < |members| => Slot(members[i], fates[i], false, Ready))
  }

  lemma EnterAccounted(slots: seq<Slot>, tab: Table)
    requires forall i | 0 <= i < |slots| :: slots[i].phase.Ready? && !slots[i].dup
    ensures Accounted(slots, tab, tab) && SawStart(slots, tab)
  {
    forall p ensures Sum(TextTo(p), slots) == 0 && Sum(RecordTo(p), slots) == 0 {
      SumZero(TextTo(p), slots);
      SumZero(RecordTo(p), slots);
    }
    SumZero(GoneOne(), slots);
  }

  /** One slot for each member, with its fate. */
  predicate Seated(members: seq<Member>, fates: seq<Fate>, slots: seq<Slot>) {
    && |slots| == |members| == |fates|
    && forall i | 0 <= i < |slots| :: slots[i].member == members[i] && slots[i].fate == fates[i]
  }

  ghost predicate Underway(members: seq<Member>, fates: seq<Fate>, slots: seq<Slot>, was: Table, now: Table) {
    && Seated(members, fates, slots)
    && RowsQueued(slots, was)
    && Accounted(slots, was, now)
    && (DistinctPhones(slots) ==> SawStart(slots, was))
  }

  lemma GoesOn(members: seq<Member>, fates: seq<Fate>, slots: seq<Slot>, was: Table, now: Table, k: nat)
    requires Underway(members, fates, slots, was, now) && k < |slots| && !slots[k].phase.Done?
    ensures Underway(members, fates, slots[k := NextSlot(slots[k], now)], was, NextTable(slots[k], now))
  {
    var after := slots[k := NextSlot(slots[k], now)];
    StepKeepsAccount(slots, was, now, k);
    StepKeepsSeats(members, fates, slots, k, NextSlot(slots[k], now));
    StepKeepsMembers(slots, k, NextSlot(slots[k], now), was);
    assert DistinctPhones(after) ==> SawStart(after, was) by {
      if DistinctPhones(slots) {
        StepKeepsSight(slots, was, now, k);
      }
    }
  }

  lemma StepsFall(slots: seq<Slot>, now: Table, k: nat)
    requires k < |slots| && !slots[k].phase.Done? && Consistent(slots[k])
    ensures 0 <= Sum(StepsLeft(), slots[k := NextSlot(slots[k], now)]) < Sum(StepsLeft(), slots)
  {
    StepConsistent(slots[k], now);
    SumUpdate(StepsLeft(), slots, k, NextSlot(slots[k], now));
    StepsLeftOfDone(slots[k := NextSlot(slots[k], now)]);
  }

  lemma StepKeepsSeats(members: seq<Member>, fates: seq<Fate>, slots: seq<Slot>, k: nat, next: Slot)
    requires Seated(members, fates, slots) && k < |slots|
    requires next.member == slots[k].member && next.fate == slots[k].fate
    ensures Seated(members, fates, slots[k := next])
  {
  }

  lemma StepKeepsMembers(slots: seq<Slot>, k: nat, next: Slot, tab: Table)
    requires k < |slots| && next.member == slots[k].member
    ensures RowsQueued(slots, tab) ==> RowsQueued(slots[k := next], tab)
    ensures DistinctPhones(slots) <==> DistinctPhones(slots[k := next])
  {
    assert forall i | 0 <= i < |slots| :: slots[k := next][i].member == slots[i].member;
  }

  class SmsDb {
    var queued: set<nat>
    var records: multiset<string>
    var texts: multiset<string>

    function Tab(): Table
      reads this
    {
      Table(queued, records, texts)
    }

    /** One member goes on until its next wait. */
    method Advance(s: Slot) returns (next: Slot)
      requires !s.phase.Done?
      modifies this
      ensures next == NextSlot(s, old(Tab()))
      ensures Tab() == NextTable(s, old(Tab()))
    {
      var m, f := s.member, s.fate;
      match s.phase {
        case Ready => {
          var duplicateExists := records[m.phone] > 0;
          if !m.allowed {
            next := Slot(m, f, duplicateExists, Done(Deferred));
          } else if m.optedOut || m.incapable || duplicateExists {
            next := Slot(m, f, duplicateExists, Dropping);
          } else {
            next := Slot(m, f, duplicateExists, Sending);
          }
        }
        case Dropping => {
          queued := queued - {m.row};
          next := s.(phase := Done(Dequeued));
        }
        case Sending => {
          var taken, answered := WithTwilioRetry(f.replies);
          texts := texts[m.phone := texts[m.phone] + taken];
          next := s.(phase := if answered && f.attempted then Updating else Done(Failed));
        }
        case Updating => {
          next := s.(phase := if f.updated then Persisting else Done(Failed));
        }
        case Persisting => {
          if f.persisted {
            records := records + multiset{m.phone};
          }
          next := s.(phase := Unqueuing(f.persisted));
        }
        case Unqueuing(stored) => {
          if f.unqueued {
            queued := queued - {m.row};
          }
          next := s.(phase := Done(if stored && f.unqueued then Sent else Failed));
        }
      }
    }

    /** The members of a slice go on in any order until all are done. */
    method RunSlice(members: seq<Member>, fates: seq<Fate>) returns (slots: seq<Slot>)
      requires |members| == |fates| && RowsQueued(Enter(members, fates), Tab())
      modifies this
      ensures |slots| == |members|
      ensures forall i | 0 <= i < |slots| :: slots[i].member == members[i] && slots[i].fate == fates[i]
      ensures Finished(Slice(slots, old(Tab()), Tab()))
    {
      slots := Enter(members, fates);
      ghost var was := Tab();
      EnterAccounted(slots, was);
      while !AllDone(slots)
        invariant Underway(members, fates, slots, was, Tab())
        decreases Sum(StepsLeft(), slots)
      {
        var k: nat :| k < |slots| && !slots[k].phase.Done?;
        StepsFall(slots, Tab(), k);
        GoesOn(members, fates, slots, was, Tab(), k);
        var next := Advance(slots[k]);
        slots := slots[k := next];
      }
    }
  }
}
