/**
 * Call attempts merged into shifts, against a specification that mentions neither the loop nor an
 * order of the attempts.
 */
module Shifts {
  import opened Prelude
  import opened Attempts
  import opened Sums

  const GRACE: int := 300000

  datatype Shift = Shift(start: int, end: int, dials: nat, connected: nat)

  /** The condition on the entries of one user: none ends more than the grace before it starts. */
  predicate Timely(entries: seq<Entry>) {
    forall i | 0 <= i < |entries| :: entries[i].start <= entries[i].end + GRACE && entries[i].figures.dials == 1
  }

  predicate InOrder(entries: seq<Entry>) {
    forall i, j | 0 <= i < j < |entries| :: entries[i].start <= entries[j].start
  }

  function OpenShift(e: Entry): Shift {
    Shift(e.start, e.end, 1, e.figures.connected)
  }

  function ExtendShift(s: Shift, e: Entry): Shift {
    Shift(s.start, if e.end > s.end then e.end else s.end, s.dials + 1, s.connected + e.figures.connected)
  }

  /** One turn of the loop, on the finished shifts followed by the current one. */
  function AddEntry(shifts: seq<Shift>, e: Entry): seq<Shift> {
    if shifts == [] || e.start > shifts[|shifts| - 1].end + GRACE then shifts + [OpenShift(e)]
    else shifts[..|shifts| - 1] + [ExtendShift(shifts[|shifts| - 1], e)]
  }

  function Merge(entries: seq<Entry>): seq<Shift> {
    if entries == [] then [] else AddEntry(Merge(entries[..|entries| - 1]), entries[|entries| - 1])
  }

  // ---------- the state-free specification ----------

  /** A time at which some entry starts, more than the grace after the end of every earlier-starting one. */
  ghost predicate Opening(entries: seq<Entry>, t: int) {
    && (exists i :: 0 <= i < |entries| && entries[i].start == t)
    && (forall i :: 0 <= i < |entries| && entries[i].start < t ==> entries[i].end + GRACE < t)
  }

  predicate InSpan(e: Entry, lo: int, hi: Option<int>) {
    lo <= e.start && (hi.Some? ==> e.start < hi.value)
  }

  function DialIn(lo: int, hi: Option<int>): Entry -> int {
    (e: Entry) => if InSpan(e, lo, hi) then 1 else 0
  }

  function ConnectIn(lo: int, hi: Option<int>): Entry -> int {
    (e: Entry) => if InSpan(e, lo, hi) then e.figures.connected else 0
  }

  /** The latest end of the entries starting in a span. */
  ghost predicate LatestEndIn(entries: seq<Entry>, lo: int, hi: Option<int>, end: int) {
    && (forall i :: 0 <= i < |entries| && InSpan(entries[i], lo, hi) ==> entries[i].end <= end)
    && (exists i :: 0 <= i < |entries| && InSpan(entries[i], lo, hi) && entries[i].end == end)
  }

  ghost predicate Describes(s: Shift, hi: Option<int>, entries: seq<Entry>) {
    && LatestEndIn(entries, s.start, hi, s.end)
    && s.dials == Sum(DialIn(s.start, hi), entries)
    && s.connected == Sum(ConnectIn(s.start, hi), entries)
  }

  function NextStart(shifts: seq<Shift>, k: nat): Option<int> {
    if k + 1 < |shifts| then Some(shifts[k + 1].start) else None
  }

  predicate StartsIncrease(shifts: seq<Shift>) {
    forall k, l | 0 <= k < l < |shifts| :: shifts[k].start < shifts[l].start
  }

  predicate HasStart(shifts: seq<Shift>, t: int) {
    exists k :: 0 <= k < |shifts| && shifts[k].start == t
  }

  ghost predicate StartsAtOpenings(shifts: seq<Shift>, entries: seq<Entry>) {
    && (forall k :: 0 <= k < |shifts| ==> Opening(entries, shifts[k].start))
    && (forall t :: Opening(entries, t) ==> HasStart(shifts, t))
  }

  /**
   * The shifts of some entries: one for every opening time, in order, each holding the entries that
   * start before the next opening.
   */
  ghost predicate AreShiftsOf(shifts: seq<Shift>, entries: seq<Entry>) {
    && StartsIncrease(shifts)
    && StartsAtOpenings(shifts, entries)
    && forall k :: 0 <= k < |shifts| ==> Describes(shifts[k], NextStart(shifts, k), entries)
  }

  // ---------- the specification determines the shifts ----------

  lemma OpeningPermutes(entries: seq<Entry>, other: seq<Entry>, t: int)
    requires multiset(entries) == multiset(other)
    requires Opening(entries, t)
    ensures Opening(other, t)
  {
    SameElements(entries, other);
    var i :| 0 <= i < |entries| && entries[i].start == t;
    assert entries[i] in other;
    forall j | 0 <= j < |other| && other[j].start < t ensures other[j].end + GRACE < t {
      assert other[j] in entries;
    }
  }

  lemma LatestEndUnique(entries: seq<Entry>, other: seq<Entry>, lo: int, hi: Option<int>, end: int, end': int)
    requires multiset(entries) == multiset(other)
    requires LatestEndIn(entries, lo, hi, end) && LatestEndIn(other, lo, hi, end')
    ensures end <= end'
  {
    SameElements(entries, other);
    var i :| 0 <= i < |entries| && InSpan(entries[i], lo, hi) && entries[i].end == end;
    assert entries[i] in other;
  }

  lemma NotEarlier(s: seq<Shift>, t: seq<Shift>, n: nat, l: nat)
    requires StartsIncrease(s) && n < |s| && l < |t|
    requires forall k :: 0 <= k < n && k < |t| ==> s[k].start == t[k].start
    requires s[n].start == t[l].start
    ensures n <= l
  {
  }

  lemma StartsMonotone(s: seq<Shift>, k: nat, l: nat)
    requires StartsIncrease(s) && k <= l < |s|
    ensures s[k].start <= s[l].start
  {
  }

  ghost predicate AgreeBelow(s: seq<Shift>, t: seq<Shift>, n: nat) {
    n <= |s| && n <= |t| && forall k :: 0 <= k < n ==> s[k].start == t[k].start
  }

  lemma AgreeAt(s: seq<Shift>, t: seq<Shift>, n: nat)
    requires StartsIncrease(s) && StartsIncrease(t) && AgreeBelow(s, t, n)
    requires n < |s| && HasStart(t, s[n].start)
    requires n < |t| ==> HasStart(s, t[n].start)
    ensures AgreeBelow(s, t, n + 1)
  {
    var l :| 0 <= l < |t| && t[l].start == s[n].start;
    NotEarlier(s, t, n, l);
    StartsMonotone(t, n, l);
    var k :| 0 <= k < |s| && s[k].start == t[n].start;
    NotEarlier(t, s, n, k);
    StartsMonotone(s, n, k);
  }

  /** Two increasing sequences with the same members agree step by step. */
  lemma {:induction false} SameStarts(s: seq<Shift>, t: seq<Shift>, n: nat)
    requires StartsIncrease(s) && StartsIncrease(t)
    requires forall k :: 0 <= k < |s| ==> HasStart(t, s[k].start)
    requires forall l :: 0 <= l < |t| ==> HasStart(s, t[l].start)
    requires n <= |s|
    ensures AgreeBelow(s, t, n)
  {
    if n > 0 {
      SameStarts(s, t, n - 1);
      AgreeAt(s, t, n - 1);
    }
  }

  lemma StartsAgree(s: seq<Shift>, t: seq<Shift>, entries: seq<Entry>, other: seq<Entry>)
    requires multiset(entries) == multiset(other)
    requires StartsAtOpenings(s, entries) && StartsAtOpenings(t, other)
    ensures forall k :: 0 <= k < |s| ==> HasStart(t, s[k].start)
  {
    forall k | 0 <= k < |s| ensures HasStart(t, s[k].start) {
      OpeningPermutes(entries, other, s[k].start);
    }
  }

  lemma DescriptionUnique(s: Shift, t: Shift, hi: Option<int>, entries: seq<Entry>, other: seq<Entry>)
    requires multiset(entries) == multiset(other) && s.start == t.start
    requires Describes(s, hi, entries) && Describes(t, hi, other)
    ensures s == t
  {
    LatestEndUnique(entries, other, s.start, hi, s.end, t.end);
    LatestEndUnique(other, entries, s.start, hi, t.end, s.end);
    SumOfPermutation(DialIn(s.start, hi), entries, other);
    SumOfPermutation(ConnectIn(s.start, hi), entries, other);
  }

  /** However the entries are ordered, there is only one list of shifts for them. */
  lemma ShiftsDetermined(s: seq<Shift>, t: seq<Shift>, entries: seq<Entry>, other: seq<Entry>)
    requires multiset(entries) == multiset(other)
    requires AreShiftsOf(s, entries) && AreShiftsOf(t, other)
    ensures s == t
  {
    StartsAgree(s, t, entries, other);
    StartsAgree(t, s, other, entries);
    SameStarts(s, t, |s|);
    SameStarts(t, s, |t|);
    forall k | 0 <= k < |s| ensures s[k] == t[k] {
      DescriptionUnique(s[k], t[k], NextStart(s, k), entries, other);
    }
  }

  /** Shifts of one user lie more than five minutes apart. */
  lemma ShiftsSeparated(shifts: seq<Shift>, entries: seq<Entry>, k: nat, l: nat)
    requires AreShiftsOf(shifts, entries) && k < l < |shifts|
    ensures shifts[l].start > shifts[k].end + 300_000
  {
    assert Describes(shifts[k], NextStart(shifts, k), entries);
    assert shifts[k + 1].start <= shifts[l].start;
    EndBeforeOpening(entries, shifts[k].start, NextStart(shifts, k), shifts[k].end, shifts[l].start);
  }

  /**
   * An attempt opens a shift exactly if it starts more than five minutes after the end of every attempt that
   * starts before it.
   */
  lemma ShiftOpensExactly(shifts: seq<Shift>, entries: seq<Entry>, j: nat)
    requires AreShiftsOf(shifts, entries) && j < |entries|
    ensures (exists k :: 0 <= k < |shifts| && shifts[k].start == entries[j].start) <==>
      forall i | 0 <= i < |entries| && entries[i].start < entries[j].start ::
        entries[j].start > entries[i].end + 300_000
  {
    var t := entries[j].start;
    assert Opening(entries, t) <==>
      forall i | 0 <= i < |entries| && entries[i].start < t :: entries[i].end + GRACE < t;
    assert HasStart(shifts, t) <==> Opening(entries, t);
  }

  /** A shift starts with an attempt, ends with one, and each attempt is in the last shift begun by then. */
  lemma EntryInShift(shifts: seq<Shift>, entries: seq<Entry>, i: nat, k: nat)
    requires AreShiftsOf(shifts, entries) && i < |entries| && k < |shifts|
    requires shifts[k].start <= entries[i].start && (k + 1 < |shifts| ==> entries[i].start < shifts[k + 1].start)
    ensures shifts[k].dials >= 1 && entries[i].end <= shifts[k].end
    ensures exists j :: 0 <= j < |entries| && entries[j].start == shifts[k].start
    ensures exists j :: 0 <= j < |entries| && shifts[k].start <= entries[j].start && entries[j].end == shifts[k].end
  {
    var hi := NextStart(shifts, k);
    assert Describes(shifts[k], hi, entries) && Opening(entries, shifts[k].start);
    assert InSpan(entries[i], shifts[k].start, hi);
    SumAtLeast(DialIn(shifts[k].start, hi), entries, i);
  }

  lemma {:induction false} SumAtLeast(f: Entry -> int, entries: seq<Entry>, i: nat)
    requires i < |entries| && forall e :: f(e) >= 0
    ensures Sum(f, entries) >= f(entries[i])
  {
    var n := |entries| - 1;
    if i < n {
      SumAtLeast(f, entries[..n], i);
    } else {
      SumNotNegative(f, entries[..n]);
    }
  }

  lemma {:induction false} SumNotNegative(f: Entry -> int, entries: seq<Entry>)
    requires forall e :: f(e) >= 0
    ensures Sum(f, entries) >= 0
  {
    if entries != [] {
      SumNotNegative(f, entries[..|entries| - 1]);
    }
  }

  lemma EndBeforeOpening(entries: seq<Entry>, lo: int, hi: Option<int>, end: int, t: int)
    requires LatestEndIn(entries, lo, hi, end) && Opening(entries, t)
    requires hi.Some? && hi.value <= t
    ensures end + GRACE < t
  {
    var i :| 0 <= i < |entries| && InSpan(entries[i], lo, hi) && entries[i].end == end;
  }

  // ---------- the merge meets the specification ----------

  lemma OpeningBefore(entries: seq<Entry>, e: Entry, t: int)
    requires InOrder(entries + [e]) && t < e.start
    ensures Opening(entries + [e], t) <==> Opening(entries, t)
  {
    var more := entries + [e];
    forall i | 0 <= i < |entries| ensures more[i] == entries[i] {
    }
    if Opening(entries, t) {
      var i :| 0 <= i < |entries| && entries[i].start == t;
      assert more[i].start == t;
    }
  }

  lemma OpeningAt(entries: seq<Entry>, e: Entry)
    ensures Opening(entries + [e], e.start)
       <==> forall i :: 0 <= i < |entries| && entries[i].start < e.start ==> entries[i].end + GRACE < e.start
  {
    var more := entries + [e];
    assert more[|entries|].start == e.start;
    forall i | 0 <= i < |entries| ensures more[i] == entries[i] {
    }
  }

  lemma NoOpeningAfter(entries: seq<Entry>, e: Entry, t: int)
    requires InOrder(entries + [e]) && t > e.start
    ensures !Opening(entries + [e], t)
  {
    var more := entries + [e];
    forall i | 0 <= i < |more| ensures more[i].start <= e.start {
      assert more[|entries|] == e;
    }
  }

  lemma LastStartNotAfter(shifts: seq<Shift>, entries: seq<Entry>, e: Entry, k: nat)
    requires InOrder(entries + [e]) && k < |shifts| && Opening(entries, shifts[k].start)
    ensures shifts[k].start <= e.start
  {
    var more := entries + [e];
    var i :| 0 <= i < |entries| && entries[i].start == shifts[k].start;
    assert more[i].start <= more[|entries|].start;
  }

  lemma FirstOpens(entries: seq<Entry>)
    requires InOrder(entries) && entries != []
    ensures Opening(entries, entries[0].start)
  {
  }

  /** Without a shift there was no entry. */
  lemma NoShiftNoEntry(entries: seq<Entry>)
    requires InOrder(entries) && StartsAtOpenings([], entries)
    ensures entries == []
  {
    if entries != [] {
      FirstOpens(entries);
    }
  }

  /** If the last shift is over when an entry starts, so is every entry before it. */
  lemma AllOver(last: Shift, entries: seq<Entry>, e: Entry)
    requires Opening(entries, last.start) && Describes(last, None, entries)
    requires last.start <= e.start && last.end + GRACE < e.start
    ensures forall i :: 0 <= i < |entries| ==> entries[i].end + GRACE < e.start
  {
    forall i | 0 <= i < |entries| ensures entries[i].end + GRACE < e.start {
      if entries[i].start >= last.start {
        assert InSpan(entries[i], last.start, None);
      }
    }
  }

  /** A new entry outside a span leaves what the span's shift says true. */
  lemma DescribesOthers(s: Shift, hi: Option<int>, hi': Option<int>, entries: seq<Entry>, e: Entry)
    requires Describes(s, hi, entries)
    requires forall i :: 0 <= i < |entries| ==> (InSpan(entries[i], s.start, hi) <==> InSpan(entries[i], s.start, hi'))
    requires !InSpan(e, s.start, hi')
    ensures Describes(s, hi', entries + [e])
  {
    var more := entries + [e];
    SumSame(DialIn(s.start, hi), DialIn(s.start, hi'), entries);
    SumSame(ConnectIn(s.start, hi), ConnectIn(s.start, hi'), entries);
    SumAppend(DialIn(s.start, hi'), entries, e);
    SumAppend(ConnectIn(s.start, hi'), entries, e);
    var i :| 0 <= i < |entries| && InSpan(entries[i], s.start, hi) && entries[i].end == s.end;
    assert InSpan(more[i], s.start, hi') && more[i].end == s.end;
    forall j | 0 <= j < |more| && InSpan(more[j], s.start, hi') ensures more[j].end <= s.end {
      assert j < |entries|;
    }
  }

  lemma DescribesFresh(entries: seq<Entry>, e: Entry)
    requires e.figures.dials == 1
    requires forall i :: 0 <= i < |entries| ==> entries[i].start < e.start
    ensures Describes(OpenShift(e), None, entries + [e])
  {
    FreshSums(entries, e);
    FreshEnd(entries, e);
  }

  lemma FreshSums(entries: seq<Entry>, e: Entry)
    requires e.figures.dials == 1
    requires forall i :: 0 <= i < |entries| ==> entries[i].start < e.start
    ensures Sum(DialIn(e.start, None), entries + [e]) == 1
    ensures Sum(ConnectIn(e.start, None), entries + [e]) == e.figures.connected
  {
    SumZero(DialIn(e.start, None), entries);
    SumZero(ConnectIn(e.start, None), entries);
    SumAppend(DialIn(e.start, None), entries, e);
    SumAppend(ConnectIn(e.start, None), entries, e);
  }

  lemma FreshEnd(entries: seq<Entry>, e: Entry)
    requires forall i :: 0 <= i < |entries| ==> entries[i].start < e.start
    ensures LatestEndIn(entries + [e], e.start, None, e.end)
  {
    assert InSpan((entries + [e])[|entries|], e.start, None);
  }

  lemma DescribesExtended(s: Shift, entries: seq<Entry>, e: Entry)
    requires Describes(s, None, entries) && s.start <= e.start && e.figures.dials == 1
    ensures Describes(ExtendShift(s, e), None, entries + [e])
  {
    var more := entries + [e];
    SumAppend(DialIn(s.start, None), entries, e);
    SumAppend(ConnectIn(s.start, None), entries, e);
    assert InSpan(more[|entries|], s.start, None);
    var i :| 0 <= i < |entries| && InSpan(entries[i], s.start, None) && entries[i].end == s.end;
    assert InSpan(more[i], s.start, None) && more[i].end == s.end;
  }

  /** Opening case: the openings are the old ones and the new entry's start. */
  lemma OpenKeepsStarts(shifts: seq<Shift>, entries: seq<Entry>, e: Entry)
    requires StartsAtOpenings(shifts, entries) && InOrder(entries + [e]) && Timely(entries + [e])
    requires forall i :: 0 <= i < |entries| ==> entries[i].end + GRACE < e.start
    ensures StartsAtOpenings(shifts + [OpenShift(e)], entries + [e])
    ensures forall k :: 0 <= k < |shifts| ==> shifts[k].start < e.start
  {
    var more, now := entries + [e], shifts + [OpenShift(e)];
    forall k | 0 <= k < |shifts| ensures shifts[k].start < e.start && Opening(more, shifts[k].start) {
      var i :| 0 <= i < |entries| && entries[i].start == shifts[k].start;
      assert more[i] == entries[i];
      OpeningBefore(entries, e, shifts[k].start);
    }
    OpeningAt(entries, e);
    forall t | Opening(more, t) ensures HasStart(now, t) {
      if t < e.start {
        OpeningBefore(entries, e, t);
        var k :| 0 <= k < |shifts| && shifts[k].start == t;
        assert now[k].start == t;
      } else if t > e.start {
        NoOpeningAfter(entries, e, t);
      } else {
        assert now[|shifts|].start == t;
      }
    }
  }

  lemma OpenStep(shifts: seq<Shift>, entries: seq<Entry>, e: Entry)
    requires AreShiftsOf(shifts, entries) && InOrder(entries + [e]) && Timely(entries + [e])
    requires forall i :: 0 <= i < |entries| ==> entries[i].end + GRACE < e.start
    ensures AreShiftsOf(shifts + [OpenShift(e)], entries + [e])
  {
    var more, now := entries + [e], shifts + [OpenShift(e)];
    OpenKeepsStarts(shifts, entries, e);
    forall i | 0 <= i < |entries| ensures entries[i].start < e.start {
      assert more[i] == entries[i];
    }
    forall k | 0 <= k < |now| ensures Describes(now[k], NextStart(now, k), more) {
      if k == |shifts| {
        assert more[|entries|] == e;
        DescribesFresh(entries, e);
      } else {
        DescribesOthers(shifts[k], NextStart(shifts, k), NextStart(now, k), entries, e);
      }
    }
  }

  /** Extending case: the openings stay what they were. */
  lemma ExtendKeepsStarts(shifts: seq<Shift>, now: seq<Shift>, entries: seq<Entry>, e: Entry)
    requires StartsAtOpenings(shifts, entries) && InOrder(entries + [e])
    requires forall k :: 0 <= k < |shifts| ==> shifts[k].start <= e.start
    requires exists i :: 0 <= i < |entries| && e.start <= entries[i].end + GRACE
    requires |now| == |shifts| && forall k :: 0 <= k < |now| ==> now[k].start == shifts[k].start
    ensures StartsAtOpenings(now, entries + [e])
  {
    var more := entries + [e];
    forall k | 0 <= k < |now| ensures Opening(more, now[k].start) {
      assert Opening(entries, shifts[k].start);
      if shifts[k].start < e.start {
        OpeningBefore(entries, e, shifts[k].start);
      } else {
        OpeningAt(entries, e);
      }
    }
    forall t | Opening(more, t) ensures HasStart(now, t) {
      if t > e.start {
        NoOpeningAfter(entries, e, t);
      } else {
        if t < e.start {
          OpeningBefore(entries, e, t);
        } else {
          StartOfEqual(entries, e);
        }
        var k :| 0 <= k < |shifts| && shifts[k].start == t;
        assert now[k].start == t;
      }
    }
  }

  /** If an entry that is not over opens a shift, an earlier entry with the same start did already. */
  lemma StartOfEqual(entries: seq<Entry>, e: Entry)
    requires InOrder(entries + [e]) && Opening(entries + [e], e.start)
    requires exists i :: 0 <= i < |entries| && e.start <= entries[i].end + GRACE
    ensures Opening(entries, e.start)
  {
    var more := entries + [e];
    OpeningAt(entries, e);
    var i :| 0 <= i < |entries| && e.start <= entries[i].end + GRACE;
    assert more[i].start <= more[|entries|].start;
  }

  lemma ExtendStep(shifts: seq<Shift>, entries: seq<Entry>, e: Entry)
    requires AreShiftsOf(shifts, entries) && InOrder(entries + [e]) && Timely(entries + [e])
    requires shifts != [] && e.start <= shifts[|shifts| - 1].end + GRACE
    ensures AreShiftsOf(shifts[..|shifts| - 1] + [ExtendShift(shifts[|shifts| - 1], e)], entries + [e])
  {
    var m, more := |shifts| - 1, entries + [e];
    var now := shifts[..m] + [ExtendShift(shifts[m], e)];
    assert Describes(shifts[m], NextStart(shifts, m), entries);
    forall k | 0 <= k < |shifts| ensures shifts[k].start <= e.start {
      LastStartNotAfter(shifts, entries, e, k);
    }
    assert more[|entries|] == e;
    ExtendKeepsStarts(shifts, now, entries, e);
    forall k | 0 <= k < |now| ensures Describes(now[k], NextStart(now, k), more) {
      ExtendDescribes(shifts, entries, e, k);
    }
  }

  lemma ExtendDescribes(shifts: seq<Shift>, entries: seq<Entry>, e: Entry, k: nat)
    requires k < |shifts| && Describes(shifts[k], NextStart(shifts, k), entries)
    requires e.figures.dials == 1
    requires StartsIncrease(shifts) && shifts[|shifts| - 1].start <= e.start
    ensures var now := shifts[..|shifts| - 1] + [ExtendShift(shifts[|shifts| - 1], e)];
            Describes(now[k], NextStart(now, k), entries + [e])
  {
    var m := |shifts| - 1;
    var now := shifts[..m] + [ExtendShift(shifts[m], e)];
    if k == m {
      DescribesExtended(shifts[m], entries, e);
    } else {
      StartsMonotone(shifts, k + 1, m);
      assert NextStart(now, k) == NextStart(shifts, k);
      DescribesOthers(shifts[k], NextStart(shifts, k), NextStart(shifts, k), entries, e);
    }
  }

  lemma AddEntryKeepsShifts(shifts: seq<Shift>, front: seq<Entry>, e: Entry)
    requires AreShiftsOf(shifts, front) && InOrder(front + [e]) && Timely(front + [e])
    ensures AreShiftsOf(AddEntry(shifts, e), front + [e])
  {
    if shifts == [] {
      assert InOrder(front) by {
        assert front == (front + [e])[..|front|];
      }
      NoShiftNoEntry(front);
      OpenStep(shifts, front, e);
    } else {
      var m := |shifts| - 1;
      assert Describes(shifts[m], NextStart(shifts, m), front);
      LastStartNotAfter(shifts, front, e, m);
      if e.start > shifts[m].end + GRACE {
        AllOver(shifts[m], front, e);
        OpenStep(shifts, front, e);
      } else {
        ExtendStep(shifts, front, e);
      }
    }
  }

  /** The merge of entries in order of start is the list of their shifts. */
  lemma {:induction false} MergeMakesShifts(entries: seq<Entry>)
    requires InOrder(entries) && Timely(entries)
    ensures AreShiftsOf(Merge(entries), entries)
  {
    if entries != [] {
      var n := |entries| - 1;
      var front, e := entries[..n], entries[n];
      assert entries == front + [e];
      MergeMakesShifts(front);
      AddEntryKeepsShifts(Merge(front), front, e);
    }
  }
}
