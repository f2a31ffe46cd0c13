/**
 A chain of bounded batches, as the worker runs them: each takes the first rows still queued. The queue
 query names no order; this is what follows if the database returns the rows in one order throughout.
 Who leaves, and so who is reached, is told from what the members and their calls come with.
 */
module SmsChain {
  import opened Prelude
  import opened SmsDispatch
  import opened SmsBatch

  // ---------- chains of bounded batches ----------

  /** One batch: the rows it took, those of them that left the queue, and the messages stored before it. */
  datatype Tick = Tick(processed: seq<nat>, left: set<nat>, records: multiset<string>)

  function Take(s: seq<nat>, n: nat): seq<nat> {
    if n < |s| then s[..n] else s
  }

  function Without(s: seq<nat>, rows: set<nat>): seq<nat> {
    if s == [] then []
    else if s[|s| - 1] in rows then Without(s[..|s| - 1], rows)
    else Without(s[..|s| - 1], rows) + [s[|s| - 1]]
  }

  function Remaining(order: seq<nat>, ticks: seq<Tick>): seq<nat> {
    if ticks == [] then order
    else Without(Remaining(order, ticks[..|ticks| - 1]), ticks[|ticks| - 1].left)
  }

  predicate IsTick(tick: Tick, waiting: seq<nat>, n: nat) {
    tick.processed == Take(waiting, n) && forall r | r in tick.left :: r in tick.processed
  }

  ghost predicate BoundedChain(order: seq<nat>, n: nat, ticks: seq<Tick>) {
    forall b :: 0 <= b < |ticks| ==> IsTick(ticks[b], Remaining(order, ticks[..b]), n)
  }

  predicate Distinct(s: seq<nat>) {
    forall i, j | 0 <= i < j < |s| :: s[i] != s[j]
  }

  lemma {:induction false} WithoutNothing(s: seq<nat>)
    ensures Without(s, {}) == s
  {
    if s != [] {
      WithoutNothing(s[..|s| - 1]);
    }
  }

  lemma {:induction false} WithoutConcat(s: seq<nat>, t: seq<nat>, rows: set<nat>)
    ensures Without(s + t, rows) == Without(s, rows) + Without(t, rows)
    decreases |t|
  {
    if t == [] {
      assert s + t == s;
    } else {
      assert (s + t)[..|s + t| - 1] == s + t[..|t| - 1];
      WithoutConcat(s, t[..|t| - 1], rows);
    }
  }

  lemma {:induction false} WithoutOthers(s: seq<nat>, rows: set<nat>)
    requires forall r | r in s :: r !in rows
    ensures Without(s, rows) == s
  {
    if s != [] {
      assert s[|s| - 1] in s;
      WithoutOthers(s[..|s| - 1], rows);
    }
  }

  lemma {:induction false} WithoutMember(s: seq<nat>, rows: set<nat>)
    ensures |Without(s, rows)| <= |s|
    ensures (exists r :: r in s && r in rows) ==> |Without(s, rows)| < |s|
    ensures forall r | r in Without(s, rows) :: r in s
  {
    if s != [] {
      var front := s[..|s| - 1];
      WithoutMember(front, rows);
      assert s == front + [s[|s| - 1]];
    }
  }

  lemma {:induction false} RemainingOfOrder(order: seq<nat>, ticks: seq<Tick>)
    ensures forall r | r in Remaining(order, ticks) :: r in order
  {
    if ticks != [] {
      RemainingOfOrder(order, ticks[..|ticks| - 1]);
      WithoutMember(Remaining(order, ticks[..|ticks| - 1]), ticks[|ticks| - 1].left);
    }
  }

  /** While nothing leaves, the same rows wait. */
  lemma {:induction false} NothingLeftYet(order: seq<nat>, ticks: seq<Tick>)
    requires forall b | 0 <= b < |ticks| :: ticks[b].left == {}
    ensures Remaining(order, ticks) == order
  {
    if ticks != [] {
      NothingLeftYet(order, ticks[..|ticks| - 1]);
      WithoutNothing(order);
    }
  }

  /** When some of the first rows leave, the next batch reaches past them. */
  lemma LeavingReachesBehind(order: seq<nat>, n: nat, left: set<nat>)
    requires Distinct(order) && n < |order|
    requires left != {} && forall r | r in left :: r in order[..n]
    ensures order[n] in Take(Without(order, left), n) && order[n] !in order[..n]
  {
    assert order == order[..n] + order[n..];
    WithoutConcat(order[..n], order[n..], left);
    forall r | r in order[n..] ensures r !in left {
      if r in left {
        NotOnBothSides(order, n, r);
      }
    }
    WithoutOthers(order[n..], left);
    WithoutMember(order[..n], left);
    var some := SomeMember(left);
    assert some in order[..n];
    var front := Without(order[..n], left);
    assert Without(order, left) == front + order[n..];
    assert Take(Without(order, left), n)[|front|] == order[n];
  }

  lemma NotOnBothSides(order: seq<nat>, n: nat, r: nat)
    requires Distinct(order) && n <= |order| && r in order[..n]
    ensures r !in order[n..]
  {
    var i :| 0 <= i < n && order[..n][i] == r;
    assert order[i] == r;
    forall j | 0 <= j < |order[n..]| ensures order[n..][j] != r {
      assert order[n..][j] == order[n + j];
    }
  }

  predicate ReachesBehind(order: seq<nat>, n: nat, tick: Tick) {
    exists r :: r in tick.processed && r !in Take(order, n)
  }

  /** Some batch of the chain takes a row behind the first `n`. */
  ghost predicate Reaches(order: seq<nat>, n: nat, ticks: seq<Tick>) {
    exists b :: 0 <= b < |ticks| && ReachesBehind(order, n, ticks[b])
  }

  lemma ReachedNeedsLeaving(order: seq<nat>, n: nat, ticks: seq<Tick>, b: nat)
    requires BoundedChain(order, n, ticks) && b < |ticks| && ReachesBehind(order, n, ticks[b])
    ensures n < |order| && exists a :: 0 <= a < b && ticks[a].left != {}
  {
    var r :| r in ticks[b].processed && r !in Take(order, n);
    assert IsTick(ticks[b], Remaining(order, ticks[..b]), n);
    RemainingOfOrder(order, ticks[..b]);
    assert r in Remaining(order, ticks[..b]);
    if forall a | 0 <= a < b :: ticks[a].left == {} {
      NothingLeftYet(order, ticks[..b]);
      assert false;
    }
  }

  /** The first batch from which a row leaves. */
  lemma {:induction false} FirstLeaving(ticks: seq<Tick>, b: nat) returns (a: nat)
    requires b < |ticks| && ticks[b].left != {}
    ensures a <= b && ticks[a].left != {} && forall c | 0 <= c < a :: ticks[c].left == {}
    decreases b
  {
    if c :| 0 <= c < b && ticks[c].left != {} {
      a := FirstLeaving(ticks, c);
    } else {
      a := b;
    }
  }

  /** The batch after the first leaving takes a row behind the first `n`. */
  lemma NextReachesBehind(order: seq<nat>, n: nat, ticks: seq<Tick>, first: nat)
    requires Distinct(order) && n < |order| && first + 1 < |ticks|
    requires IsTick(ticks[first], order, n) && ticks[first].left != {}
    requires IsTick(ticks[first + 1], Without(order, ticks[first].left), n)
    ensures ReachesBehind(order, n, ticks[first + 1])
  {
    LeavingReachesBehind(order, n, ticks[first].left);
    assert order[n] in ticks[first + 1].processed && order[n] !in Take(order, n);
  }

  lemma LeavingReachesSome(order: seq<nat>, n: nat, ticks: seq<Tick>, a: nat)
    requires Distinct(order) && BoundedChain(order, n, ticks) && n < |order|
    requires a + 1 < |ticks| && ticks[a].left != {}
    ensures exists b :: 0 <= b < |ticks| && ReachesBehind(order, n, ticks[b])
  {
    var first := FirstLeaving(ticks, a);
    NothingLeftYet(order, ticks[..first]);
    assert IsTick(ticks[first], Remaining(order, ticks[..first]), n);
    assert IsTick(ticks[first + 1], Remaining(order, ticks[..first + 1]), n);
    assert ticks[..first + 1][..first] == ticks[..first];
    NextReachesBehind(order, n, ticks, first);
  }

  /** Some batch takes a row behind the first `n` exactly when there is one and a row left before the last batch. */
  lemma ReachedWhenLeaving(order: seq<nat>, n: nat, ticks: seq<Tick>)
    requires Distinct(order) && BoundedChain(order, n, ticks)
    ensures Reaches(order, n, ticks) <==> n < |order| && exists a :: 0 <= a < |ticks| - 1 && ticks[a].left != {}
  {
    if b :| 0 <= b < |ticks| && ReachesBehind(order, n, ticks[b]) {
      ReachedNeedsLeaving(order, n, ticks, b);
    }
    if n < |order| {
      if a :| 0 <= a < |ticks| - 1 && ticks[a].left != {} {
        LeavingReachesSome(order, n, ticks, a);
      }
    }
  }

  // ---------- who leaves ----------

  /** What the members find at one batch: their calling windows, and the fates of their calls, by row. */
  datatype Batch = Batch(allowed: nat -> bool, fate: nat -> Fate)

  /** The calls made for a member all succeed as far as the dequeue, but for the storing of the message. */
  predicate Unqueues(f: Fate) {
    Created(f) && f.attempted && f.updated && f.unqueued
  }

  predicate Sending(m: Member, batch: Batch, records: multiset<string>) {
    batch.allowed(m.row) && !m.optedOut && !m.incapable && records[m.phone] == 0
  }

  /** A member taken by a batch leaves the queue: it is barred, or its calls get as far as the dequeue. */
  predicate Leaves(m: Member, batch: Batch, records: multiset<string>) {
    batch.allowed(m.row) && (m.optedOut || m.incapable || records[m.phone] > 0 || Unqueues(batch.fate(m.row)))
  }

  predicate Stores(m: Member, batch: Batch, records: multiset<string>) {
    Sending(m, batch, records) && Stored(batch.fate(m.row))
  }

  /** What one batch does to the members of the roster: who of those it takes leaves, and whose message it stores. */
  ghost predicate TellsRoster(tick: Tick, roster: seq<Member>, batch: Batch, now: multiset<string>) {
    forall i | 0 <= i < |roster| :: TellsMember(tick, roster[i], batch, now)
  }

  predicate TellsMember(tick: Tick, m: Member, batch: Batch, now: multiset<string>) {
    && (m.row in tick.left <==> m.row in tick.processed && Leaves(m, batch, tick.records))
    && now[m.phone]
       == tick.records[m.phone] + if m.row in tick.processed && Stores(m, batch, tick.records) then 1 else 0
  }

  function RecordsAt(ticks: seq<Tick>, b: nat, closing: multiset<string>): multiset<string> {
    if b < |ticks| then ticks[b].records else closing
  }

  /** The batches one after the other: each starts from the messages the one before it left. */
  ghost predicate TellsChain(ticks: seq<Tick>, roster: seq<Member>, plan: seq<Batch>, opening: multiset<string>,
                             closing: multiset<string>) {
    && |ticks| == |plan|
    && RecordsAt(ticks, 0, closing) == opening
    && forall b | 0 <= b < |ticks| :: TellsRoster(ticks[b], roster, plan[b], RecordsAt(ticks, b + 1, closing))
  }

  /**
   At this batch the member would leave, if it still waits: it is inside its hours, and it is barred, or it had
   a message to begin with, or an earlier batch stored one and could not dequeue it, or its calls succeed.
   */
  ghost predicate Goes(m: Member, plan: seq<Batch>, opening: multiset<string>, b: nat)
    requires b < |plan|
  {
    && plan[b].allowed(m.row)
    && (m.optedOut || m.incapable || opening[m.phone] > 0 || Unqueues(plan[b].fate(m.row)) || StoredBefore(m, plan, b))
  }

  predicate StoredBefore(m: Member, plan: seq<Batch>, b: nat)
    requires b <= |plan|
  {
    exists a :: 0 <= a < b && plan[a].allowed(m.row) && Stored(plan[a].fate(m.row))
  }

  lemma StoredOnce(m: Member, plan: seq<Batch>, b: nat)
    requires b < |plan|
    ensures StoredBefore(m, plan, b + 1) <==>
      StoredBefore(m, plan, b) || (plan[b].allowed(m.row) && Stored(plan[b].fate(m.row)))
  {
    if StoredBefore(m, plan, b) {
      var a :| 0 <= a < b && plan[a].allowed(m.row) && Stored(plan[a].fate(m.row));
    }
  }

  /** While nobody leaves, the first rows are taken by every batch. */
  lemma FirstTaken(order: seq<nat>, n: nat, ticks: seq<Tick>, b: nat, i: nat)
    requires BoundedChain(order, n, ticks) && b < |ticks| && i < n && i < |order|
    requires forall a | 0 <= a < b :: ticks[a].left == {}
    ensures ticks[b].processed == Take(order, n) && order[i] in ticks[b].processed
  {
    assert IsTick(ticks[b], Remaining(order, ticks[..b]), n);
    NothingLeftYet(order, ticks[..b]);
    assert Take(order, n)[i] == order[i];
  }

  /** One batch a member stays through: it has a message afterwards if it had one or the batch stored it. */
  lemma StaysThrough(tick: Tick, m: Member, batch: Batch, now: multiset<string>)
    requires TellsMember(tick, m, batch, now) && m.row in tick.processed && m.row !in tick.left
    ensures now[m.phone] > 0 <==>
      tick.records[m.phone] > 0 || (batch.allowed(m.row) && Stored(batch.fate(m.row)))
  {
  }

  /** While nobody leaves, a member of the first rows has a message if it had one or some batch stored it. */
  lemma {:induction false} RecordUntil(ticks: seq<Tick>, roster: seq<Member>, n: nat, plan: seq<Batch>,
                                       opening: multiset<string>, closing: multiset<string>, i: nat, b: nat)
    requires BoundedChain(Rows(roster), n, ticks) && TellsChain(ticks, roster, plan, opening, closing)
    requires b <= |ticks| && i < n && i < |roster| && forall a | 0 <= a < b :: ticks[a].left == {}
    ensures RecordsAt(ticks, b, closing)[roster[i].phone] > 0
       <==> opening[roster[i].phone] > 0 || StoredBefore(roster[i], plan, b)
  {
    if b > 0 {
      var a := b - 1;
      RecordUntil(ticks, roster, n, plan, opening, closing, i, a);
      FirstTaken(Rows(roster), n, ticks, a, i);
      assert TellsRoster(ticks[a], roster, plan[a], RecordsAt(ticks, b, closing));
      StaysThrough(ticks[a], roster[i], plan[a], RecordsAt(ticks, b, closing));
      StoredOnce(roster[i], plan, a);
    }
  }

  /** While nobody left before, a member of the first rows leaves exactly when it goes. */
  lemma LeavesWhenGoes(ticks: seq<Tick>, roster: seq<Member>, n: nat, plan: seq<Batch>, opening: multiset<string>,
                       closing: multiset<string>, i: nat, b: nat)
    requires BoundedChain(Rows(roster), n, ticks) && TellsChain(ticks, roster, plan, opening, closing)
    requires b < |ticks| && i < n && i < |roster| && forall a | 0 <= a < b :: ticks[a].left == {}
    ensures roster[i].row in ticks[b].left <==> Goes(roster[i], plan, opening, b)
  {
    RecordUntil(ticks, roster, n, plan, opening, closing, i, b);
    FirstTaken(Rows(roster), n, ticks, b, i);
    assert TellsRoster(ticks[b], roster, plan[b], RecordsAt(ticks, b + 1, closing));
    assert TellsMember(ticks[b], roster[i], plan[b], RecordsAt(ticks, b + 1, closing));
  }

  /** One of the first `n` goes at this batch. */
  ghost predicate SomeGoes(roster: seq<Member>, n: nat, plan: seq<Batch>, opening: multiset<string>, b: nat)
    requires b < |plan|
  {
    exists i :: 0 <= i < n && i < |roster| && Goes(roster[i], plan, opening, b)
  }

  lemma SomeLeavesWhenGoes(ticks: seq<Tick>, roster: seq<Member>, n: nat, plan: seq<Batch>,
                           opening: multiset<string>, closing: multiset<string>, b: nat)
    requires BoundedChain(Rows(roster), n, ticks) && TellsChain(ticks, roster, plan, opening, closing)
    requires b < |ticks| && forall a | 0 <= a < b :: ticks[a].left == {}
    ensures ticks[b].left != {} <==> SomeGoes(roster, n, plan, opening, b)
  {
    if i :| 0 <= i < n && i < |roster| && Goes(roster[i], plan, opening, b) {
      LeavesWhenGoes(ticks, roster, n, plan, opening, closing, i, b);
    }
    if ticks[b].left != {} {
      var r := SomeMember(ticks[b].left);
      var i := LeaverIsFirst(Rows(roster), n, ticks, b, r);
      LeavesWhenGoes(ticks, roster, n, plan, opening, closing, i, b);
    }
  }

  lemma LeaverIsFirst(order: seq<nat>, n: nat, ticks: seq<Tick>, b: nat, r: nat) returns (i: nat)
    requires BoundedChain(order, n, ticks) && b < |ticks| && r in ticks[b].left
    requires forall a | 0 <= a < b :: ticks[a].left == {}
    ensures i < n && i < |order| && order[i] == r
  {
    assert IsTick(ticks[b], Remaining(order, ticks[..b]), n);
    NothingLeftYet(order, ticks[..b]);
    i :| 0 <= i < |Take(order, n)| && Take(order, n)[i] == r;
  }

  /** There are rows behind the first `n`, and one of the first goes at a batch before the last. */
  ghost predicate FrontGoes(roster: seq<Member>, n: nat, plan: seq<Batch>, opening: multiset<string>) {
    n < |roster| && exists b :: 0 <= b < |plan| - 1 && SomeGoes(roster, n, plan, opening, b)
  }

  /** The first batch from which a row leaves is one at which somebody goes. */
  lemma LeavingMeansGoing(ticks: seq<Tick>, roster: seq<Member>, n: nat, plan: seq<Batch>,
                          opening: multiset<string>, closing: multiset<string>, a: nat) returns (first: nat)
    requires BoundedChain(Rows(roster), n, ticks) && TellsChain(ticks, roster, plan, opening, closing)
    requires a < |ticks| && ticks[a].left != {}
    ensures first <= a && SomeGoes(roster, n, plan, opening, first)
  {
    first := FirstLeaving(ticks, a);
    SomeLeavesWhenGoes(ticks, roster, n, plan, opening, closing, first);
  }

  /** If somebody of the first rows goes, a row has left by then. */
  lemma GoingMeansLeaving(ticks: seq<Tick>, roster: seq<Member>, n: nat, plan: seq<Batch>,
                          opening: multiset<string>, closing: multiset<string>, b: nat) returns (a: nat)
    requires BoundedChain(Rows(roster), n, ticks) && TellsChain(ticks, roster, plan, opening, closing)
    requires b < |ticks| && SomeGoes(roster, n, plan, opening, b)
    ensures a <= b && ticks[a].left != {}
  {
    a := b;
    if c: nat :| c < b && ticks[c].left != {} {
      a := c;
    } else {
      SomeLeavesWhenGoes(ticks, roster, n, plan, opening, closing, b);
    }
  }

  lemma ReachedMeansGoing(ticks: seq<Tick>, roster: seq<Member>, n: nat, plan: seq<Batch>,
                          opening: multiset<string>, closing: multiset<string>)
    requires DistinctAudience(roster) && Reaches(Rows(roster), n, ticks)
    requires BoundedChain(Rows(roster), n, ticks) && TellsChain(ticks, roster, plan, opening, closing)
    ensures FrontGoes(roster, n, plan, opening)
  {
    ReachedWhenLeaving(Rows(roster), n, ticks);
    var a :| 0 <= a < |ticks| - 1 && ticks[a].left != {};
    var b := LeavingMeansGoing(ticks, roster, n, plan, opening, closing, a);
  }

  lemma GoingMeansReached(ticks: seq<Tick>, roster: seq<Member>, n: nat, plan: seq<Batch>,
                          opening: multiset<string>, closing: multiset<string>)
    requires DistinctAudience(roster) && FrontGoes(roster, n, plan, opening)
    requires BoundedChain(Rows(roster), n, ticks) && TellsChain(ticks, roster, plan, opening, closing)
    ensures Reaches(Rows(roster), n, ticks)
  {
    var b :| 0 <= b < |plan| - 1 && SomeGoes(roster, n, plan, opening, b);
    var a := GoingMeansLeaving(ticks, roster, n, plan, opening, closing, b);
    ReachedWhenLeaving(Rows(roster), n, ticks);
  }

  /**
   Some batch takes a row behind the first `n` exactly when there is one and, at a batch before the last, one
   of the first `n` goes. So members that stay deferred, or whose sends keep failing, hold up the rest; one
   whose message was stored and not dequeued goes at its next batch.
   */
  lemma BehindReachedExactly(ticks: seq<Tick>, roster: seq<Member>, n: nat, plan: seq<Batch>,
                             opening: multiset<string>, closing: multiset<string>)
    requires DistinctAudience(roster)
    requires BoundedChain(Rows(roster), n, ticks) && TellsChain(ticks, roster, plan, opening, closing)
    ensures Reaches(Rows(roster), n, ticks) <==> FrontGoes(roster, n, plan, opening)
  {
    if Reaches(Rows(roster), n, ticks) {
      ReachedMeansGoing(ticks, roster, n, plan, opening, closing);
    }
    if FrontGoes(roster, n, plan, opening) {
      GoingMeansReached(ticks, roster, n, plan, opening, closing);
    }
  }

  /** The first rows are each, at every batch, outside their hours or sent to in vain. */
  ghost predicate HeldUp(roster: seq<Member>, n: nat, plan: seq<Batch>, opening: multiset<string>) {
    forall i, b | 0 <= i < n && i < |roster| && 0 <= b < |plan| && plan[b].allowed(roster[i].row) ::
      Sending(roster[i], plan[b], opening) && !Created(plan[b].fate(roster[i].row))
  }

  /** Failing or deferred members at the front keep every chain from the rows behind them. */
  lemma HeldUpNeverReaches(ticks: seq<Tick>, roster: seq<Member>, n: nat, plan: seq<Batch>,
                           opening: multiset<string>, closing: multiset<string>)
    requires DistinctAudience(roster) && HeldUp(roster, n, plan, opening)
    requires BoundedChain(Rows(roster), n, ticks) && TellsChain(ticks, roster, plan, opening, closing)
    ensures !Reaches(Rows(roster), n, ticks)
  {
    BehindReachedExactly(ticks, roster, n, plan, opening, closing);
    forall b | 0 <= b < |plan| ensures !SomeGoes(roster, n, plan, opening, b) {
      forall i | 0 <= i < n && i < |roster| ensures !Goes(roster[i], plan, opening, b) {
        NeverStored(roster, n, plan, opening, i, b);
      }
    }
  }

  lemma NeverStored(roster: seq<Member>, n: nat, plan: seq<Batch>, opening: multiset<string>, i: nat, b: nat)
    requires HeldUp(roster, n, plan, opening) && i < n && i < |roster| && b < |plan|
    ensures !StoredBefore(roster[i], plan, b) && !Goes(roster[i], plan, opening, b)
  {
    forall a | 0 <= a < b && plan[a].allowed(roster[i].row) ensures !Stored(plan[a].fate(roster[i].row)) {
      assert !Created(plan[a].fate(roster[i].row));
    }
  }

  /** For one: the first of two members is refused by the carrier at every batch of one, however many there are. */
  lemma RefusedHoldsUp(batches: nat, first: string, second: string)
    requires first != second
    ensures var roster := [Member(0, 0, first, true, false, false), Member(1, 1, second, true, false, false)];
      var refused := Fate([Refused(false)], true, true, true, true);
      var plan := seq(batches, _ => Batch((r: nat) => true, (r: nat) => refused));
      && HeldUp(roster, 1, plan, multiset{})
      && !FrontGoes(roster, 1, plan, multiset{})
  {
    var roster := [Member(0, 0, first, true, false, false), Member(1, 1, second, true, false, false)];
    var refused := Fate([Refused(false)], true, true, true, true);
    var plan := seq(batches, _ => Batch((r: nat) => true, (r: nat) => refused));
    assert !Created(refused);
    assert HeldUp(roster, 1, plan, multiset{});
    forall b | 0 <= b < |plan| ensures !SomeGoes(roster, 1, plan, multiset{}, b) {
      NeverStored(roster, 1, plan, multiset{}, 0, b);
    }
  }

  // ---------- the members still queued ----------

  function Rows(members: seq<Member>): seq<nat> {
    seq(|members|, i requires 0 <= i < |members| => members[i].row)
  }

  /** The members still queued, in the roster's order, with their windows as they are now. */
  function Audience(roster: seq<Member>, queued: set<nat>, allowed: nat -> bool): seq<Member> {
    if roster == [] then []
    else
      var rest, last := Audience(roster[..|roster| - 1], queued, allowed), roster[|roster| - 1];
      if last.row in queued then rest + [last.(allowed := allowed(last.row))] else rest
  }

  function InQueue(order: seq<nat>, queued: set<nat>): seq<nat> {
    if order == [] then []
    else
      var rest, last := InQueue(order[..|order| - 1], queued), order[|order| - 1];
      if last in queued then rest + [last] else rest
  }

  lemma {:induction false} AudienceRows(roster: seq<Member>, queued: set<nat>, allowed: nat -> bool)
    ensures Rows(Audience(roster, queued, allowed)) == InQueue(Rows(roster), queued)
  {
    if roster != [] {
      AudienceRows(roster[..|roster| - 1], queued, allowed);
      assert Rows(roster)[..|roster| - 1] == Rows(roster[..|roster| - 1]);
    }
  }

  lemma {:induction false} InQueueLeaves(order: seq<nat>, queued: set<nat>, left: set<nat>)
    ensures InQueue(order, queued - left) == Without(InQueue(order, queued), left)
  {
    if order != [] {
      var rest := InQueue(order[..|order| - 1], queued);
      InQueueLeaves(order[..|order| - 1], queued, left);
      assert (rest + [order[|order| - 1]])[..|rest|] == rest;
    }
  }

  lemma {:induction false} WholeQueue(order: seq<nat>, queued: set<nat>)
    requires forall r | r in order :: r in queued
    ensures InQueue(order, queued) == order
  {
    if order != [] {
      assert order[|order| - 1] in order;
      WholeQueue(order[..|order| - 1], queued);
    }
  }

  lemma {:induction false} AudienceSound(roster: seq<Member>, queued: set<nat>, allowed: nat -> bool)
    ensures forall m | m in Audience(roster, queued, allowed) :: m.row in queued && m.row in RowSet(roster)
  {
    if roster != [] {
      var front, last := roster[..|roster| - 1], roster[|roster| - 1];
      AudienceSound(front, queued, allowed);
      assert roster == front + [last];
      RowSetAppend(front, last);
    }
  }

  lemma {:induction false} AudienceDistinct(roster: seq<Member>, queued: set<nat>, allowed: nat -> bool)
    requires DistinctAudience(roster)
    ensures DistinctAudience(Audience(roster, queued, allowed))
  {
    if roster != [] {
      var front := roster[..|roster| - 1];
      AudienceDistinct(front, queued, allowed);
      AudienceSound(front, queued, allowed);
      LastRowIsNew(roster);
    }
  }

  lemma {:induction false} AudienceComplete(roster: seq<Member>, queued: set<nat>, allowed: nat -> bool, r: nat)
    requires r in queued && r in RowSet(roster)
    ensures r in RowSet(Audience(roster, queued, allowed))
  {
    var front, last := roster[..|roster| - 1], roster[|roster| - 1];
    assert roster == front + [last];
    RowSetAppend(front, last);
    RowSetAppend(Audience(front, queued, allowed), last.(allowed := allowed(last.row)));
    if r in RowSet(front) {
      AudienceComplete(front, queued, allowed, r);
    }
  }

  lemma AudienceMembers(roster: seq<Member>, queued: set<nat>, allowed: nat -> bool)
    requires DistinctAudience(roster)
    ensures DistinctAudience(Audience(roster, queued, allowed))
    ensures forall m | m in Audience(roster, queued, allowed) :: m.row in queued
    ensures forall r | r in queued && r in RowSet(roster) :: r in RowSet(Audience(roster, queued, allowed))
  {
    AudienceDistinct(roster, queued, allowed);
    AudienceSound(roster, queued, allowed);
    forall r | r in queued && r in RowSet(roster) ensures r in RowSet(Audience(roster, queued, allowed)) {
      AudienceComplete(roster, queued, allowed, r);
    }
  }

  lemma LastRowIsNew(roster: seq<Member>)
    requires DistinctAudience(roster) && roster != []
    ensures roster[|roster| - 1].row !in RowSet(roster[..|roster| - 1])
  {
  }

  lemma RowsOfDone(done: seq<Slot>, audience: seq<Member>, fates: seq<Fate>, n: nat)
    requires Handled(done, audience, fates) && |done| == SliceEnd(|audience|, Some(n))
    ensures Rows(audience[..|done|]) == Take(Rows(audience), n)
  {
  }

  // ---------- one batch on the database ----------

  /** A member as a batch finds it. */
  function Now(m: Member, allowed: nat -> bool): Member {
    m.(allowed := allowed(m.row))
  }

  lemma {:induction false} AudienceFrom(roster: seq<Member>, queued: set<nat>, allowed: nat -> bool, k: nat)
      returns (i: nat)
    requires k < |Audience(roster, queued, allowed)|
    ensures i < |roster| && Audience(roster, queued, allowed)[k] == Now(roster[i], allowed)
  {
    var n := |roster| - 1;
    if k < |Audience(roster[..n], queued, allowed)| {
      i := AudienceFrom(roster[..n], queued, allowed, k);
    } else {
      i := n;
    }
  }

  predicate DistinctRosterPhones(roster: seq<Member>) {
    forall i, j | 0 <= i < j < |roster| :: roster[i].phone != roster[j].phone
  }

  lemma AudiencePhonesDistinct(roster: seq<Member>, queued: set<nat>, allowed: nat -> bool, j: nat, k: nat)
    requires DistinctRosterPhones(roster) && DistinctAudience(Audience(roster, queued, allowed))
    requires j < k < |Audience(roster, queued, allowed)|
    ensures Audience(roster, queued, allowed)[j].phone != Audience(roster, queued, allowed)[k].phone
  {
    var x := AudienceFrom(roster, queued, allowed, j);
    var y := AudienceFrom(roster, queued, allowed, k);
    assert x != y;
  }

  lemma DonePhonesDistinct(done: seq<Slot>, audience: seq<Member>, fates: seq<Fate>, roster: seq<Member>,
                           queued: set<nat>, allowed: nat -> bool)
    requires audience == Audience(roster, queued, allowed) && Handled(done, audience, fates)
    requires DistinctRosterPhones(roster) && DistinctAudience(audience)
    ensures DistinctPhones(done)
  {
    forall j, k | 0 <= j < k < |done| ensures done[j].member.phone != done[k].member.phone {
      AudiencePhonesDistinct(roster, queued, allowed, j, k);
    }
  }

  /** A slot of this roster member, finished. */
  predicate SlotOf(slot: Slot, m: Member, batch: Batch) {
    slot.member == Now(m, batch.allowed) && slot.fate == batch.fate(m.row)
  }

  /** A member taken by the batch: whether it leaves, and what is stored. */
  lemma TakenTells(s: Slice, k: nat, m: Member, batch: Batch, tick: Tick)
    requires Finished(s) && DistinctPhones(s.slots) && k < |s.slots| && SlotOf(s.slots[k], m, batch)
    requires tick.records == s.was.records && m.row in tick.processed
    requires m.row in tick.left <==> Gone(s.slots[k])
    ensures TellsMember(tick, m, batch, s.now.records)
  {
    PhoneOfMember(s, k);
    assert Consistent(s.slots[k]);
  }

  /** A member not taken by the batch stays as it is. */
  lemma UntakenTells(s: Slice, m: Member, batch: Batch, tick: Tick)
    requires Finished(s) && forall k | 0 <= k < |s.slots| :: s.slots[k].member.phone != m.phone
    requires tick.records == s.was.records && m.row !in tick.processed && m.row !in tick.left
    ensures TellsMember(tick, m, batch, s.now.records)
  {
    PhoneOfNobody(s, m.phone);
  }

  /** The row of a finished slot leaves exactly when the slot is gone. */
  lemma LeftWhenGone(s: Slice, audience: seq<Member>, fates: seq<Fate>, k: nat)
    requires Finished(s) && Handled(s.slots, audience, fates) && DistinctAudience(audience)
    requires k < |s.slots| && s.slots[k].member.row in s.was.queued
    ensures s.slots[k].member.row in s.was.queued - s.now.queued <==> Gone(s.slots[k])
  {
    var r := s.slots[k].member.row;
    if RowLeft(s.slots, r) {
      var j :| 0 <= j < |s.slots| && s.slots[j].member.row == r && Gone(s.slots[j]);
      assert audience[j].row == audience[k].row;
    }
  }

  /** Only rows the batch took leave. */
  lemma LeftWasTaken(s: Slice, audience: seq<Member>, fates: seq<Fate>, r: nat)
    requires Finished(s) && Handled(s.slots, audience, fates) && r in s.was.queued - s.now.queued
    ensures r in Rows(audience[..|s.slots|])
  {
    var k :| 0 <= k < |s.slots| && s.slots[k].member.row == r && Gone(s.slots[k]);
    assert Rows(audience[..|s.slots|])[k] == r;
  }

  lemma SlotOfRow(done: seq<Slot>, audience: seq<Member>, fates: seq<Fate>, roster: seq<Member>, queued: set<nat>,
                  batch: Batch, i: nat) returns (k: nat)
    requires audience == Audience(roster, queued, batch.allowed) && Handled(done, audience, fates)
    requires forall j | 0 <= j < |audience| :: fates[j] == batch.fate(audience[j].row)
    requires DistinctAudience(roster) && i < |roster| && roster[i].row in Rows(audience[..|done|])
    ensures k < |done| && SlotOf(done[k], roster[i], batch) && done[k].member.row == roster[i].row
  {
    k :| 0 <= k < |done| && Rows(audience[..|done|])[k] == roster[i].row;
    var x := AudienceFrom(roster, queued, batch.allowed, k);
    assert roster[x].row == roster[i].row;
    assert x == i;
  }

  lemma NobodyElsesPhone(done: seq<Slot>, audience: seq<Member>, fates: seq<Fate>, roster: seq<Member>,
                         queued: set<nat>, allowed: nat -> bool, i: nat, k: nat)
    requires audience == Audience(roster, queued, allowed) && Handled(done, audience, fates)
    requires DistinctRosterPhones(roster) && i < |roster| && k < |done|
    requires roster[i].row !in Rows(audience[..|done|])
    ensures done[k].member.phone != roster[i].phone
  {
    var x := AudienceFrom(roster, queued, allowed, k);
    assert Rows(audience[..|done|])[k] == audience[k].row == roster[x].row;
    assert x != i;
  }

  /** The batch tells about every member of the roster. */
  lemma BatchTells(s: Slice, audience: seq<Member>, fates: seq<Fate>, roster: seq<Member>, batch: Batch, tick: Tick)
    requires Finished(s) && Handled(s.slots, audience, fates)
    requires audience == Audience(roster, s.was.queued, batch.allowed)
    requires forall j | 0 <= j < |audience| :: fates[j] == batch.fate(audience[j].row)
    requires DistinctAudience(roster) && DistinctRosterPhones(roster)
    requires tick == Tick(Rows(audience[..|s.slots|]), s.was.queued - s.now.queued, s.was.records)
    ensures TellsRoster(tick, roster, batch, s.now.records)
  {
    AudienceMembers(roster, s.was.queued, batch.allowed);
    DonePhonesDistinct(s.slots, audience, fates, roster, s.was.queued, batch.allowed);
    forall i | 0 <= i < |roster| ensures TellsMember(tick, roster[i], batch, s.now.records) {
      if roster[i].row in tick.processed {
        var k := SlotOfRow(s.slots, audience, fates, roster, s.was.queued, batch, i);
        assert audience[k] in audience;
        LeftWhenGone(s, audience, fates, k);
        TakenTells(s, k, roster[i], batch, tick);
      } else {
        forall k | 0 <= k < |s.slots| ensures s.slots[k].member.phone != roster[i].phone {
          NobodyElsesPhone(s.slots, audience, fates, roster, s.was.queued, batch.allowed, i, k);
        }
        if roster[i].row in tick.left {
          LeftWasTaken(s, audience, fates, roster[i].row);
        }
        UntakenTells(s, roster[i], batch, tick);
      }
    }
  }

  lemma ChainMore(order: seq<nat>, n: nat, ticks: seq<Tick>, tick: Tick)
    requires BoundedChain(order, n, ticks) && IsTick(tick, Remaining(order, ticks), n)
    ensures BoundedChain(order, n, ticks + [tick])
    ensures Remaining(order, ticks + [tick]) == Without(Remaining(order, ticks), tick.left)
  {
    var more := ticks + [tick];
    assert more[..|ticks|] == ticks;
    forall b | 0 <= b < |more| ensures IsTick(more[b], Remaining(order, more[..b]), n) {
      if b < |ticks| {
        assert more[..b] == ticks[..b];
        assert IsTick(ticks[b], Remaining(order, ticks[..b]), n);
      }
    }
  }

  lemma TellsMore(ticks: seq<Tick>, roster: seq<Member>, plan: seq<Batch>, opening: multiset<string>, tick: Tick,
                  batch: Batch, now: multiset<string>)
    requires TellsChain(ticks, roster, plan, opening, tick.records) && TellsRoster(tick, roster, batch, now)
    ensures TellsChain(ticks + [tick], roster, plan + [batch], opening, now)
  {
    var more, plans := ticks + [tick], plan + [batch];
    forall b | 0 <= b < |more| ensures TellsRoster(more[b], roster, plans[b], RecordsAt(more, b + 1, now)) {
      if b < |ticks| {
        assert more[b] == ticks[b] && plans[b] == plan[b];
        assert TellsRoster(ticks[b], roster, plan[b], RecordsAt(ticks, b + 1, tick.records));
        assert RecordsAt(more, b + 1, now) == RecordsAt(ticks, b + 1, tick.records);
      }
    }
  }

  lemma WholeQueueOfRoster(roster: seq<Member>, queued: set<nat>)
    requires RowSet(roster) == queued
    ensures InQueue(Rows(roster), queued) == Rows(roster)
  {
    forall r | r in Rows(roster) ensures r in queued {
      var i :| 0 <= i < |roster| && roster[i].row == r;
      assert roster[i] in roster;
    }
    WholeQueue(Rows(roster), queued);
  }

  /** The chain so far, and the tables it has led to. */
  ghost predicate SoFar(ticks: seq<Tick>, roster: seq<Member>, n: nat, plan: seq<Batch>, opening: multiset<string>,
                        queued: set<nat>, records: multiset<string>) {
    && |ticks| == |plan| && BoundedChain(Rows(roster), n, ticks)
    && queued <= RowSet(roster) && InQueue(Rows(roster), queued) == Remaining(Rows(roster), ticks)
    && (DistinctRosterPhones(roster) ==> TellsChain(ticks, roster, plan, opening, records))
  }

  lemma ChainStarts(roster: seq<Member>, n: nat, opening: multiset<string>, queued: set<nat>)
    requires RowSet(roster) == queued
    ensures SoFar([], roster, n, [], opening, queued, opening)
  {
    WholeQueueOfRoster(roster, queued);
  }

  lemma ChainGoesOn(ticks: seq<Tick>, roster: seq<Member>, n: nat, plan: seq<Batch>, opening: multiset<string>,
                    was: Table, tick: Tick, batch: Batch, now: Table)
    requires SoFar(ticks, roster, n, plan, opening, was.queued, was.records)
    requires IsTick(tick, Remaining(Rows(roster), ticks), n) && tick.records == was.records
    requires now.queued <= was.queued
    requires InQueue(Rows(roster), now.queued) == Without(Remaining(Rows(roster), ticks), tick.left)
    requires DistinctRosterPhones(roster) ==> TellsRoster(tick, roster, batch, now.records)
    ensures SoFar(ticks + [tick], roster, n, plan + [batch], opening, now.queued, now.records)
  {
    ChainMore(Rows(roster), n, ticks, tick);
    if DistinctRosterPhones(roster) {
      TellsMore(ticks, roster, plan, opening, tick, batch, now.records);
    }
  }

  lemma ChainReaches(ticks: seq<Tick>, roster: seq<Member>, n: nat, plan: seq<Batch>, opening: multiset<string>,
                     queued: set<nat>, records: multiset<string>)
    requires SoFar(ticks, roster, n, plan, opening, queued, records) && DistinctAudience(roster)
    ensures DistinctRosterPhones(roster) ==>
      (Reaches(Rows(roster), n, ticks) <==> FrontGoes(roster, n, plan, opening))
  {
    if DistinctRosterPhones(roster) {
      BehindReachedExactly(ticks, roster, n, plan, opening, records);
    }
  }

  /** The chain goes on by one batch. */
  method RunOn(db: SmsDb, roster: seq<Member>, ghost plan: seq<Batch>, batch: Batch, size: nat, n: nat,
               ghost ticks: seq<Tick>, ghost opening: multiset<string>)
    returns (ghost more: seq<Tick>)
    requires 0 < size <= 25 && DistinctAudience(roster)
    requires SoFar(ticks, roster, n, plan, opening, db.queued, db.records)
    modifies db
    ensures SoFar(more, roster, n, plan + [batch], opening, db.queued, db.records)
  {
    ghost var was := db.Tab();
    ghost var tick := RunTick(db, roster, batch, size, n, Remaining(Rows(roster), ticks));
    ChainGoesOn(ticks, roster, n, plan, opening, was, tick, batch, db.Tab());
    more := ticks + [tick];
  }

  lemma TakeOneMore<A>(s: seq<A>, n: nat)
    requires n < |s|
    ensures s[..n + 1] == s[..n] + [s[n]]
  {
  }

  /**
   The worker's chain on the database is a chain of bounded batches in the sense above. With phones distinct
   it tells about every member, and so reaches behind the first batch exactly when one of its members goes.
   */
  method RunChain(db: SmsDb, roster: seq<Member>, plan: seq<Batch>, size: nat, n: nat)
    returns (ghost ticks: seq<Tick>)
    requires 0 < size <= 25 && DistinctAudience(roster) && RowSet(roster) == db.queued
    modifies db
    ensures SoFar(ticks, roster, n, plan, old(db.records), db.queued, db.records)
    ensures DistinctRosterPhones(roster) ==>
      (Reaches(Rows(roster), n, ticks) <==> FrontGoes(roster, n, plan, old(db.records)))
  {
    ticks := [];
    ghost var opening := db.records;
    ChainStarts(roster, n, opening, db.queued);
    for b := 0 to |plan|
      invariant SoFar(ticks, roster, n, plan[..b], opening, db.queued, db.records)
    {
      ticks := RunOn(db, roster, plan[..b], plan[b], size, n, ticks, opening);
      TakeOneMore(plan, b);
    }
    assert plan[..|plan|] == plan;
    ChainReaches(ticks, roster, n, plan, opening, db.queued, db.records);
  }

  /**
   One batch of the chain takes the first rows waiting. With phones distinct the rows that leave are exactly
   those of members inside their hours that are barred, or whose calls get as far as the dequeue.
   */
  method RunTick(db: SmsDb, roster: seq<Member>, batch: Batch, size: nat, n: nat, ghost waiting: seq<nat>)
    returns (ghost tick: Tick)
    requires 0 < size <= 25 && DistinctAudience(roster) && db.queued <= RowSet(roster)
    requires waiting == InQueue(Rows(roster), db.queued)
    modifies db
    ensures IsTick(tick, waiting, n) && tick.records == old(db.records)
    ensures db.queued == old(db.queued) - tick.left && tick.left <= old(db.queued)
    ensures InQueue(Rows(roster), db.queued) == Without(waiting, tick.left)
    ensures DistinctRosterPhones(roster) ==> TellsRoster(tick, roster, batch, db.records)
  {
    var audience := Audience(roster, db.queued, batch.allowed);
    AudienceReady(roster, db.queued, batch.allowed);
    var fates := seq(|audience|, i requires 0 <= i < |audience| => batch.fate(audience[i].row));
    ghost var was := db.Tab();
    var outcome, done, run :=
      DispatchCampaignSmsBatch(db, true, false, "", "", false, None, 0, audience, fates, size, Some(n));
    ghost var s := Slice(done, was, db.Tab());
    tick := Tick(Rows(audience[..|done|]), was.queued - db.queued, was.records);
    TickDone(s, audience, fates, roster, batch, n, waiting, tick);
  }

  lemma AudienceReady(roster: seq<Member>, queued: set<nat>, allowed: nat -> bool)
    requires DistinctAudience(roster) && queued <= RowSet(roster)
    ensures var audience := Audience(roster, queued, allowed);
      DistinctAudience(audience) && RowSet(audience) == queued
  {
    AudienceMembers(roster, queued, allowed);
    RowSetIsQueue(Audience(roster, queued, allowed), queued);
  }

  /** What a finished batch makes of the queue and of the members. */
  lemma TickDone(s: Slice, audience: seq<Member>, fates: seq<Fate>, roster: seq<Member>, batch: Batch, n: nat,
                 waiting: seq<nat>, tick: Tick)
    requires Finished(s) && Handled(s.slots, audience, fates) && |s.slots| == SliceEnd(|audience|, Some(n))
    requires audience == Audience(roster, s.was.queued, batch.allowed)
    requires forall j | 0 <= j < |audience| :: fates[j] == batch.fate(audience[j].row)
    requires DistinctAudience(roster) && waiting == InQueue(Rows(roster), s.was.queued)
    requires tick == Tick(Rows(audience[..|s.slots|]), s.was.queued - s.now.queued, s.was.records)
    ensures IsTick(tick, waiting, n) && s.now.queued == s.was.queued - tick.left && tick.left <= s.was.queued
    ensures InQueue(Rows(roster), s.now.queued) == Without(waiting, tick.left)
    ensures DistinctRosterPhones(roster) ==> TellsRoster(tick, roster, batch, s.now.records)
  {
    AudienceRows(roster, s.was.queued, batch.allowed);
    RowsOfDone(s.slots, audience, fates, n);
    forall r | r in tick.left ensures r in tick.processed {
      LeftWasTaken(s, audience, fates, r);
    }
    QueueShrinks(s);
    InQueueLeaves(Rows(roster), s.was.queued, tick.left);
    if DistinctRosterPhones(roster) {
      BatchTells(s, audience, fates, roster, batch, tick);
    }
  }

  lemma QueueShrinks(s: Slice)
    requires Finished(s)
    ensures s.now.queued == s.was.queued - (s.was.queued - s.now.queued)
  {
  }

  lemma RowSetIsQueue(audience: seq<Member>, queued: set<nat>)
    requires forall m | m in audience :: m.row in queued
    requires forall r | r in queued :: r in RowSet(audience)
    ensures RowSet(audience) == queued
  {
    forall r ensures r in RowSet(audience) <==> r in queued {
      if r in RowSet(audience) {
        var m :| m in audience && m.row == r;
      }
    }
  }
}
