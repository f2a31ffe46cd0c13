/**
 When a campaign will be done: a walk through the send window that consumes in-window time until
 the needed time is used up. The yardstick is a plain count of the milliseconds the window is open.
 */
module Projection {
  import opened Prelude
  import opened Text
  import opened SendWindow
  import opened Sums

  const LOOKAHEAD_DAYS := 366

  // ---------- counting open time ----------

  /** The window as a test on instants. */
  ghost function Opening(window: RawWindow): int -> bool {
    (t: int) => InWindow(window, t)
  }

  /** Open milliseconds of [from, to). */
  ghost function Count(open: int -> bool, from: int, to: int): nat
    decreases to - from
  {
    if to <= from then 0
    else Count(open, from, to - 1) + if open(to - 1) then 1 else 0
  }

  lemma {:induction false} CountSplit(open: int -> bool, a: int, b: int, c: int)
    requires a <= b <= c
    ensures Count(open, a, c) == Count(open, a, b) + Count(open, b, c)
    decreases c - b
  {
    if b < c {
      CountSplit(open, a, b, c - 1);
    }
  }

  lemma {:induction false} CountFull(open: int -> bool, a: int, b: int)
    requires a <= b && forall t | a <= t < b :: open(t)
    ensures Count(open, a, b) == b - a
    decreases b - a
  {
    if a < b {
      CountFull(open, a, b - 1);
    }
  }

  lemma {:induction false} CountNone(open: int -> bool, a: int, b: int)
    requires forall t | a <= t < b :: !open(t)
    ensures Count(open, a, b) == 0
    decreases b - a
  {
    if a < b {
      CountNone(open, a, b - 1);
    }
  }

  /** The first instant by which the needed open time has passed: in an interval or at its closing edge. */
  ghost predicate IsFinish(open: int -> bool, now: int, needed: int, finish: int) {
    now < finish && Count(open, now, finish) == needed && open(finish - 1)
  }

  /** Two tests that agree on a stretch count the same there. */
  lemma {:induction false} CountSame(open: int -> bool, other: int -> bool, a: int, b: int)
    requires forall t | a <= t < b :: open(t) <==> other(t)
    ensures Count(open, a, b) == Count(other, a, b)
    decreases b - a
  {
    if a < b {
      CountSame(open, other, a, b - 1);
    }
  }

  // ---------- the walk over a list of slots ----------

  datatype Slot = Slot(opens: int, closes: int)

  function Max(a: int, b: int): int {
    if a < b then b else a
  }

  /** The part of a slot that lies after now. */
  function Length(now: int): Slot -> int {
    (s: Slot) => if s.closes > Max(s.opens, now) then s.closes - Max(s.opens, now) else 0
  }

  function Available(slots: seq<Slot>, now: int): int {
    Sum(Length(now), slots)
  }

  lemma AvailableMore(slots: seq<Slot>, now: int, k: nat)
    requires k < |slots|
    ensures Available(slots[..k + 1], now) == Available(slots[..k], now) + Length(now)(slots[k])
  {
    assert slots[..k + 1][..k] == slots[..k];
  }

  lemma {:induction false} AvailableGrows(slots: seq<Slot>, now: int, j: nat, k: nat)
    requires j <= k <= |slots|
    ensures Available(slots[..j], now) <= Available(slots[..k], now)
    decreases k
  {
    if j < k {
      AvailableGrows(slots, now, j, k - 1);
      AvailableMore(slots, now, k - 1);
    }
  }

  /** Slots that are over by now have nothing available. */
  lemma {:induction false} NoneAvailable(slots: seq<Slot>, now: int, k: nat)
    requires k <= |slots| && forall j | 0 <= j < k :: slots[j].closes <= now
    ensures Available(slots[..k], now) == 0
    decreases k
  {
    if k > 0 {
      NoneAvailable(slots, now, k - 1);
      AvailableMore(slots, now, k - 1);
    }
  }

  /** Taken in order, the slots' time reaches what is needed in this one, at this instant. */
  ghost predicate RunsOutIn(slots: seq<Slot>, now: int, needed: int, finish: int, k: nat) {
    && k < |slots|
    && Available(slots[..k], now) < needed <= Available(slots[..k + 1], now)
    && finish == Max(slots[k].opens, now) + (needed - Available(slots[..k], now))
  }

  ghost predicate RunsOut(slots: seq<Slot>, now: int, needed: int, finish: int) {
    exists k: nat :: RunsOutIn(slots, now, needed, finish, k)
  }

  /** The instant at which the time of the slots reaches what is needed, or the continuous projection. */
  ghost predicate IsWalk(slots: seq<Slot>, now: int, needed: int, finish: int) {
    if 0 < needed <= Available(slots, now) then RunsOut(slots, now, needed, finish) else finish == now + needed
  }

  /** There is one such instant. */
  lemma WalkDetermined(slots: seq<Slot>, now: int, needed: int, finish: int, other: int)
    requires IsWalk(slots, now, needed, finish) && IsWalk(slots, now, needed, other)
    ensures finish == other
  {
    if 0 < needed <= Available(slots, now) {
      var j: nat :| RunsOutIn(slots, now, needed, finish, j);
      var k: nat :| RunsOutIn(slots, now, needed, other, k);
      if j < k {
        AvailableGrows(slots, now, j + 1, k);
      } else if k < j {
        AvailableGrows(slots, now, k + 1, j);
      }
    }
  }

  lemma {:induction false} SomeSlotRunsOut(slots: seq<Slot>, now: int, needed: int, n: nat)
    requires 0 < n <= |slots| && 0 < needed <= Available(slots[..n], now)
    ensures exists finish :: RunsOut(slots, now, needed, finish)
    decreases n
  {
    if n > 1 && needed <= Available(slots[..n - 1], now) {
      SomeSlotRunsOut(slots, now, needed, n - 1);
    } else {
      var finish := Max(slots[n - 1].opens, now) + (needed - Available(slots[..n - 1], now));
      assert slots[..0] == [];
      assert RunsOutIn(slots, now, needed, finish, n - 1);
      assert RunsOut(slots, now, needed, finish);
    }
  }

  /** That instant. */
  ghost function WalkEnd(slots: seq<Slot>, now: int, needed: int): int {
    if 0 < needed <= Available(slots, now) then
      assert slots[..|slots|] == slots;
      SomeSlotRunsOut(slots, now, needed, |slots|);
      var finish :| RunsOut(slots, now, needed, finish);
      finish
    else now + needed
  }

  lemma WalkEndExactly(slots: seq<Slot>, now: int, needed: int, finish: int)
    ensures finish == WalkEnd(slots, now, needed) <==> IsWalk(slots, now, needed, finish)
  {
    if IsWalk(slots, now, needed, finish) {
      WalkDetermined(slots, now, needed, finish, WalkEnd(slots, now, needed));
    }
  }

  /** One day of the walk; `finish` is set when the needed time runs out on it. */
  method ConsumeDay(slots: seq<Slot>, now: int, left: int) returns (finish: Option<int>, remaining: int)
    requires left > 0
    ensures finish.Some? ==> RunsOut(slots, now, left, finish.value)
    ensures finish.None? ==> remaining == left - Available(slots, now) && remaining > 0
  {
    remaining := left;
    for k := 0 to |slots|
      invariant remaining == left - Available(slots[..k], now) && remaining > 0
    {
      AvailableMore(slots, now, k);
      var start := Max(slots[k].opens, now);
      if slots[k].closes > start {
        var available := slots[k].closes - start;
        if available >= remaining {
          assert RunsOutIn(slots, now, left, start + remaining, k);
          return Some(start + remaining), remaining;
        }
        remaining := remaining - available;
      }
    }
    assert slots[..|slots|] == slots;
    finish := None;
  }

  // ---------- slots that come one after the other ----------

  ghost predicate Ordered(slots: seq<Slot>) {
    && (forall k | 0 <= k < |slots| :: slots[k].opens < slots[k].closes)
    && (forall j, k | 0 <= j < k < |slots| :: slots[j].closes <= slots[k].opens)
  }

  ghost function OpenIn(slots: seq<Slot>): int -> bool {
    (t: int) => exists k :: 0 <= k < |slots| && slots[k].opens <= t < slots[k].closes
  }

  lemma GapIsClosed(slots: seq<Slot>, k: nat, t: int)
    requires Ordered(slots) && k <= |slots|
    requires (k > 0 ==> slots[k - 1].closes <= t) && (k < |slots| ==> t < slots[k].opens)
    ensures !OpenIn(slots)(t)
  {
    forall j | 0 <= j < |slots| ensures !(slots[j].opens <= t < slots[j].closes) {
      if j < k - 1 {
        assert slots[j].closes <= slots[k - 1].opens;
      } else if j > k {
        assert slots[k].closes <= slots[j].opens;
      }
    }
  }

  lemma GapCounts(slots: seq<Slot>, k: nat, a: int, b: int)
    requires Ordered(slots) && k <= |slots|
    requires (k > 0 ==> slots[k - 1].closes <= a) && (k < |slots| ==> b <= slots[k].opens || b <= a)
    ensures Count(OpenIn(slots), a, b) == 0
  {
    forall t | a <= t < b ensures !OpenIn(slots)(t) {
      GapIsClosed(slots, k, t);
    }
    CountNone(OpenIn(slots), a, b);
  }

  /** What is open up to an instant of a slot: the slots before it, and its own part after now. */
  lemma SlotCounts(slots: seq<Slot>, now: int, k: nat, upTo: int)
    requires Ordered(slots) && k < |slots| && Max(slots[k].opens, now) <= upTo <= slots[k].closes
    ensures Count(OpenIn(slots), now, upTo) == Available(slots[..k], now) + (upTo - Max(slots[k].opens, now))
  {
    var open, start := OpenIn(slots), Max(slots[k].opens, now);
    SlotOpensAt(slots, now, k);
    forall t | start <= t < upTo ensures open(t) {
      assert slots[k].opens <= t < slots[k].closes;
    }
    CountFull(open, start, upTo);
    CountSplit(open, now, start, upTo);
  }

  lemma {:induction false} SlotOpensAt(slots: seq<Slot>, now: int, k: nat)
    requires Ordered(slots) && k < |slots|
    ensures Count(OpenIn(slots), now, Max(slots[k].opens, now)) == Available(slots[..k], now)
    decreases k, 0
  {
    var open, start := OpenIn(slots), Max(slots[k].opens, now);
    if k == 0 {
      GapCounts(slots, 0, now, start);
    } else if slots[k - 1].closes <= now {
      assert forall j | 0 <= j < k - 1 :: slots[j].closes <= slots[k - 1].opens;
      NoneAvailable(slots, now, k);
      GapCounts(slots, k, now, start);
    } else {
      SlotEndsAt(slots, now, k - 1);
      GapCounts(slots, k, slots[k - 1].closes, start);
      CountSplit(open, now, slots[k - 1].closes, start);
    }
  }

  /** A slot that is not over by now, counted to its end. */
  lemma {:induction false} SlotEndsAt(slots: seq<Slot>, now: int, k: nat)
    requires Ordered(slots) && k < |slots| && slots[k].closes > now
    ensures Count(OpenIn(slots), now, slots[k].closes) == Available(slots[..k + 1], now)
    decreases k, 1
  {
    var open, start := OpenIn(slots), Max(slots[k].opens, now);
    SlotOpensAt(slots, now, k);
    forall t | start <= t < slots[k].closes ensures open(t) {
      assert slots[k].opens <= t < slots[k].closes;
    }
    CountFull(open, start, slots[k].closes);
    CountSplit(open, now, start, slots[k].closes);
    AvailableMore(slots, now, k);
  }

  /** By an instant behind all slots everything available is counted. */
  lemma AllCounted(slots: seq<Slot>, now: int, far: int)
    requires Ordered(slots) && now <= far && forall k | 0 <= k < |slots| :: slots[k].closes <= far
    ensures Count(OpenIn(slots), now, far) == Available(slots, now)
  {
    var n := |slots|;
    assert slots[..n] == slots;
    if n == 0 || slots[n - 1].closes <= now {
      if n > 0 {
        assert forall j | 0 <= j < n - 1 :: slots[j].closes <= slots[n - 1].opens;
      }
      NoneAvailable(slots, now, n);
      GapCounts(slots, n, now, far);
    } else {
      SlotEndsAt(slots, now, n - 1);
      GapCounts(slots, n, slots[n - 1].closes, far);
      CountSplit(OpenIn(slots), now, slots[n - 1].closes, far);
    }
  }

  /**
   The finish if the needed open time comes by an instant far ahead: it lies before the finish, which ends an
   open instant. Otherwise the continuous projection.
   */
  ghost predicate IsExact(open: int -> bool, now: int, needed: int, finish: int, far: int) {
    if 0 < needed <= Count(open, now, far) then IsFinish(open, now, needed, finish) && finish <= far
    else finish == now + needed
  }

  ghost predicate SameAt(open: int -> bool, other: int -> bool, t: int) {
    open(t) <==> other(t)
  }

  lemma ExactSame(open: int -> bool, other: int -> bool, now: int, needed: int, finish: int, far: int)
    requires IsExact(open, now, needed, finish, far) && forall t :: SameAt(open, other, t)
    ensures IsExact(other, now, needed, finish, far)
  {
    forall t ensures open(t) <==> other(t) {
      assert SameAt(open, other, t);
    }
    CountSame(open, other, now, far);
    CountSame(open, other, now, finish);
  }

  /** For such slots the walk is exact. */
  lemma WalkIsExact(slots: seq<Slot>, now: int, needed: int, finish: int, far: int)
    requires Ordered(slots) && now <= far && OverBy(slots, far)
    requires IsWalk(slots, now, needed, finish)
    ensures IsExact(OpenIn(slots), now, needed, finish, far)
  {
    AllCounted(slots, now, far);
    if 0 < needed <= Available(slots, now) {
      var k: nat :| RunsOutIn(slots, now, needed, finish, k);
      AvailableMore(slots, now, k);
      NotNegative(slots, now, k);
      SlotCounts(slots, now, k, finish);
      assert slots[k].opens <= finish - 1 < slots[k].closes;
    }
  }

  lemma NotNegative(slots: seq<Slot>, now: int, k: nat)
    requires k <= |slots|
    ensures Available(slots[..k], now) >= 0
  {
    AvailableGrows(slots, now, 0, k);
    assert slots[..0] == [];
  }

  // ---------- slots of one day after another ----------

  type Days = int -> seq<Slot>

  /** The slots of the days from one to ahead of another. */
  function Chain(days: Days, first: int, end: int): seq<Slot>
    decreases end - first
  {
    if end <= first then [] else Chain(days, first, end - 1) + days(end - 1)
  }

  ghost predicate Precedes(a: seq<Slot>, b: seq<Slot>) {
    forall j, k | 0 <= j < |a| && 0 <= k < |b| :: a[j].closes <= b[k].opens
  }

  ghost predicate InTurn(days: Days) {
    (forall day :: Ordered(days(day))) && forall day, later | day < later :: Precedes(days(day), days(later))
  }

  lemma {:induction false} ChainMember(days: Days, first: int, end: int, n: nat) returns (day: int, k: nat)
    requires n < |Chain(days, first, end)|
    ensures first <= day < end && k < |days(day)| && Chain(days, first, end)[n] == days(day)[k]
    decreases end - first
  {
    var front := Chain(days, first, end - 1);
    if n < |front| {
      day, k := ChainMember(days, first, end - 1, n);
    } else {
      day, k := end - 1, n - |front|;
    }
  }

  lemma {:induction false} ChainOrdered(days: Days, first: int, end: int)
    requires InTurn(days)
    ensures Ordered(Chain(days, first, end))
    decreases end - first
  {
    if first < end {
      var front, slots := Chain(days, first, end - 1), days(end - 1);
      ChainOrdered(days, first, end - 1);
      forall j, k | 0 <= j < |front| && 0 <= k < |slots| ensures front[j].closes <= slots[k].opens {
        var day, n := ChainMember(days, first, end - 1, j);
        assert Precedes(days(day), days(end - 1));
      }
      OrderedConcat(front, slots);
    }
  }

  lemma OrderedConcat(a: seq<Slot>, b: seq<Slot>)
    requires Ordered(a) && Ordered(b) && forall j, k | 0 <= j < |a| && 0 <= k < |b| :: a[j].closes <= b[k].opens
    ensures Ordered(a + b)
  {
  }

  lemma {:induction false} ChainOpened(days: Days, first: int, end: int, t: int)
    ensures OpenIn(Chain(days, first, end))(t) <==> exists day :: first <= day < end && OpenIn(days(day))(t)
    decreases end - first
  {
    if first < end {
      ChainOpened(days, first, end - 1, t);
      OpenInConcat(Chain(days, first, end - 1), days(end - 1), t);
    }
  }

  lemma OpenInConcat(a: seq<Slot>, b: seq<Slot>, t: int)
    ensures OpenIn(a + b)(t) <==> OpenIn(a)(t) || OpenIn(b)(t)
  {
    if k :| 0 <= k < |b| && b[k].opens <= t < b[k].closes {
      assert (a + b)[|a| + k] == b[k];
    }
    if k :| 0 <= k < |a| && a[k].opens <= t < a[k].closes {
      assert (a + b)[k] == a[k];
    }
  }

  /** The slots of more days begin with those of fewer. */
  lemma {:induction false} ChainFurther(days: Days, first: int, mid: int, end: int) returns (rest: seq<Slot>)
    requires first <= mid <= end
    ensures Chain(days, first, end) == Chain(days, first, mid) + rest
    decreases end - mid
  {
    if mid == end {
      rest := [];
    } else {
      var others := ChainFurther(days, first, mid, end - 1);
      rest := others + days(end - 1);
      assert Chain(days, first, mid) + others + days(end - 1) == Chain(days, first, mid) + rest;
    }
  }

  lemma ChainTaken(days: Days, first: int, day: int, now: int)
    requires first <= day
    ensures Available(Chain(days, first, day + 1), now)
         == Available(Chain(days, first, day), now) + Available(days(day), now)
  {
    SumConcat(Length(now), Chain(days, first, day), days(day));
  }

  /** A day's own end of the walk is an end of the walk over all days. */
  lemma RunsOutLater(front: seq<Slot>, day: seq<Slot>, rest: seq<Slot>, now: int, needed: int, left: int, finish: int)
    requires left == needed - Available(front, now) && RunsOut(day, now, left, finish)
    ensures RunsOut(front + day + rest, now, needed, finish)
  {
    var all := front + day + rest;
    var k: nat :| RunsOutIn(day, now, left, finish, k);
    assert all[..|front| + k] == front + day[..k] && all[..|front| + k + 1] == front + day[..k + 1];
    SumConcat(Length(now), front, day[..k]);
    SumConcat(Length(now), front, day[..k + 1]);
    assert RunsOutIn(all, now, needed, finish, |front| + k);
  }

  lemma SomeAvailable(slots: seq<Slot>, now: int, needed: int, finish: int)
    requires RunsOut(slots, now, needed, finish)
    ensures needed <= Available(slots, now)
  {
    var k: nat :| RunsOutIn(slots, now, needed, finish, k);
    AvailableGrows(slots, now, k + 1, |slots|);
    assert slots[..|slots|] == slots;
  }

  /** What is still needed after the days ahead of this one. */
  ghost predicate LeftAt(days: Days, first: int, day: int, now: int, needed: int, left: int) {
    left == needed - Available(Chain(days, first, day), now)
  }

  lemma DayTaken(days: Days, first: int, day: int, now: int, needed: int, left: int)
    requires first <= day && LeftAt(days, first, day, now, needed, left)
    ensures LeftAt(days, first, day + 1, now, needed, left - Available(days(day), now))
  {
    ChainTaken(days, first, day, now);
  }

  /** A walk over the days ends on the one on which what is left runs out. */
  lemma EndsOnDay(days: Days, first: int, end: int, now: int, needed: int, day: int, left: int, finish: int)
    requires needed > 0 && first <= day < end
    requires LeftAt(days, first, day, now, needed, left) && RunsOut(days(day), now, left, finish)
    ensures IsWalk(Chain(days, first, end), now, needed, finish)
  {
    var front := Chain(days, first, day);
    var rest := ChainFurther(days, first, day + 1, end);
    RunsOutLater(front, days(day), rest, now, needed, left, finish);
    SomeAvailable(front + days(day) + rest, now, needed, finish);
  }

  /** And on none if something is left after all of them. */
  lemma EndsOnNone(days: Days, first: int, end: int, now: int, needed: int, left: int)
    requires needed > 0 ==> left > 0 && LeftAt(days, first, end, now, needed, left)
    ensures IsWalk(Chain(days, first, end), now, needed, now + needed)
  {
  }

  lemma ChainBefore(days: Days, first: int, end: int, far: int)
    requires forall day | first <= day < end :: OverBy(days(day), far)
    ensures OverBy(Chain(days, first, end), far)
  {
    var all := Chain(days, first, end);
    forall n | 0 <= n < |all| ensures all[n].closes <= far {
      var day, k := ChainMember(days, first, end, n);
      assert OverBy(days(day), far);
    }
  }

  ghost predicate OverBy(slots: seq<Slot>, far: int) {
    forall k | 0 <= k < |slots| :: slots[k].closes <= far
  }

  // ---------- tidy windows ----------

  /** Ends by midnight; 00:00-00:00 is the whole day. */
  predicate EndsByMidnight(iv: Interval) {
    iv.start + Span(iv) <= MINUTES_PER_DAY
  }

  predicate Apart(a: Interval, b: Interval) {
    a.start + Span(a) <= b.start || b.start + Span(b) <= a.start
  }

  /** Each interval is listed once and keeps clear of every other. */
  predicate ApartDay(ivs: multiset<Interval>) {
    (forall a | a in ivs :: ivs[a] == 1)
    && forall a, b | a in ivs && b in ivs && a != b :: Apart(a, b)
  }

  /** What runs on overnight is over before the next day's first interval opens. */
  predicate Clear(today: seq<Interval>, tomorrow: seq<Interval>) {
    forall i, j | 0 <= i < |today| && 0 <= j < |tomorrow| ::
      today[i].start + Span(today[i]) <= tomorrow[j].start + MINUTES_PER_DAY
  }

  /** No two intervals of the week overlap, overnight ones included. */
  ghost predicate KeepsApart(window: RawWindow) {
    forall d | 0 <= d < 7 :: ApartDay(multiset(ActiveIntervals(window, d))) && ClearOfNext(window, d)
  }

  predicate ClearOfNext(window: RawWindow, d: nat)
    requires d < 7
  {
    Clear(ActiveIntervals(window, d), ActiveIntervals(window, (d + 1) % 7))
  }

  /** They are apart and each ends by midnight. */
  predicate TidyDay(ivs: multiset<Interval>) {
    ApartDay(ivs) && forall a | a in ivs :: EndsByMidnight(a)
  }

  ghost predicate Tidy(window: RawWindow) {
    forall d | 0 <= d < 7 :: TidyDay(multiset(ActiveIntervals(window, d)))
  }

  lemma TidyKeepsApart(window: RawWindow)
    requires Tidy(window)
    ensures KeepsApart(window)
  {
    forall d | 0 <= d < 7 ensures ClearOfNext(window, d) {
      var today := ActiveIntervals(window, d);
      forall i | 0 <= i < |today| ensures EndsByMidnight(today[i]) {
        assert today[i] in multiset(today);
      }
    }
  }

  // ---------- sorting a day's intervals ----------

  predicate StartsInOrder(ivs: seq<Interval>) {
    forall i, j | 0 <= i < j < |ivs| :: ivs[i].start <= ivs[j].start
  }

  function EarlierStart(): (Interval, Interval) -> bool {
    (a: Interval, b: Interval) => a.start <= b.start
  }

  function SortByStart(ivs: seq<Interval>): seq<Interval> {
    SortBy(EarlierStart(), ivs)
  }

  lemma SortedByStart(ivs: seq<Interval>)
    ensures StartsInOrder(SortByStart(ivs)) && multiset(SortByStart(ivs)) == multiset(ivs)
  {
    SortSorts(EarlierStart(), ivs);
    SortPermutes(EarlierStart(), ivs);
    var sorted := SortByStart(ivs);
    forall i, j | 0 <= i < j < |sorted| ensures sorted[i].start <= sorted[j].start {
      assert EarlierStart()(sorted[i], sorted[j]);
    }
  }

  /** Sorted by start, the intervals of a day that are apart come one after the other. */
  lemma ApartInOrder(ivs: seq<Interval>, i: nat, j: nat)
    requires ApartDay(multiset(ivs)) && StartsInOrder(ivs) && i < j < |ivs|
    requires ValidInterval(ivs[i]) && ValidInterval(ivs[j])
    ensures ivs[i].start + Span(ivs[i]) <= ivs[j].start
  {
    if ivs[i] == ivs[j] {
      CountTwice(ivs, i, j);
    }
    assert ivs[i] in multiset(ivs) && ivs[j] in multiset(ivs);
    assert Apart(ivs[i], ivs[j]);
  }

  // ---------- a day of the window as slots ----------

  function DayStart(day: int): int {
    day * MS_PER_DAY
  }

  function SlotsOf(day: int, ivs: seq<Interval>): (r: seq<Slot>)
    ensures |r| == |ivs|
  {
    seq(|ivs|, i requires 0 <= i < |ivs| => Slot(OpensAt(day, ivs[i]), ClosesAt(day, ivs[i])))
  }

  /** The day's intervals in the order of their starts. */
  function DaySlots(window: RawWindow, day: int): seq<Slot> {
    SlotsOf(day, SortByStart(ActiveIntervals(window, Weekday(day))))
  }

  function DaysOf(window: RawWindow): Days {
    (day: int) => DaySlots(window, day)
  }

  lemma SameBag(a: seq<Interval>, b: seq<Interval>, i: nat) returns (k: nat)
    requires multiset(a) == multiset(b) && i < |a|
    ensures k < |b| && b[k] == a[i]
  {
    assert a[i] in multiset(b);
    k :| 0 <= k < |b| && b[k] == a[i];
  }

  /** A slot of a day is one of its intervals. */
  lemma SlotIsInterval(window: RawWindow, day: int, k: nat) returns (i: nat)
    requires k < |DaySlots(window, day)|
    ensures var ivs := ActiveIntervals(window, Weekday(day));
      && i < |ivs| && ValidInterval(ivs[i])
      && DaySlots(window, day)[k] == Slot(OpensAt(day, ivs[i]), ClosesAt(day, ivs[i]))
  {
    var ivs := ActiveIntervals(window, Weekday(day));
    SortedByStart(ivs);
    i := SameBag(SortByStart(ivs), ivs, k);
  }

  /** A day's slots open on it and are over by the end of the next. */
  lemma SlotOfDay(window: RawWindow, day: int, k: nat)
    requires k < |DaySlots(window, day)|
    ensures var slot := DaySlots(window, day)[k];
      DayStart(day) <= slot.opens < DayStart(day + 1) && slot.opens < slot.closes <= slot.opens + MS_PER_DAY
  {
    var i := SlotIsInterval(window, day, k);
  }

  lemma DayOrdered(window: RawWindow, day: int)
    requires KeepsApart(window)
    ensures Ordered(DaySlots(window, day))
  {
    var ivs, slots := ActiveIntervals(window, Weekday(day)), DaySlots(window, day);
    var sorted := SortByStart(ivs);
    SortedByStart(ivs);
    forall k | 0 <= k < |slots| ensures slots[k].opens < slots[k].closes {
      SlotOfDay(window, day, k);
    }
    forall j, k | 0 <= j < k < |slots| ensures slots[j].closes <= slots[k].opens {
      assert sorted[j] in multiset(ivs) && sorted[k] in multiset(ivs);
      ApartInOrder(sorted, j, k);
    }
  }

  lemma NextWeekday(day: int)
    ensures Weekday(day + 1) == (Weekday(day) + 1) % 7
  {
  }

  lemma NextDayApart(window: RawWindow, day: int, j: nat, k: nat)
    requires KeepsApart(window) && j < |DaySlots(window, day)| && k < |DaySlots(window, day + 1)|
    ensures DaySlots(window, day)[j].closes <= DaySlots(window, day + 1)[k].opens
  {
    NextWeekday(day);
    var i := SlotIsInterval(window, day, j);
    var i' := SlotIsInterval(window, day + 1, k);
    var today, tomorrow := ActiveIntervals(window, Weekday(day)), ActiveIntervals(window, Weekday(day + 1));
    assert ClearOfNext(window, Weekday(day));
    RunsOverAtMost(day, today[i], tomorrow[i']);
  }

  lemma RunsOverAtMost(day: int, today: Interval, tomorrow: Interval)
    requires today.start + Span(today) <= tomorrow.start + MINUTES_PER_DAY
    ensures ClosesAt(day, today) <= OpensAt(day + 1, tomorrow)
  {
  }

  /** A slot is over when one of a later day opens. */
  lemma DaysApart(window: RawWindow, day: int, j: nat, later: int, k: nat)
    requires KeepsApart(window) && day < later && j < |DaySlots(window, day)| && k < |DaySlots(window, later)|
    ensures DaySlots(window, day)[j].closes <= DaySlots(window, later)[k].opens
  {
    if later == day + 1 {
      NextDayApart(window, day, j, k);
    } else {
      FarDaysApart(window, day, j, later, k);
    }
  }

  lemma FarDaysApart(window: RawWindow, day: int, j: nat, later: int, k: nat)
    requires day + 2 <= later && j < |DaySlots(window, day)| && k < |DaySlots(window, later)|
    ensures DaySlots(window, day)[j].closes <= DaySlots(window, later)[k].opens
  {
    SlotOfDay(window, day, j);
    SlotOfDay(window, later, k);
  }

  /** The days of a window that keeps its intervals apart come in turn. */
  lemma DaysInTurn(window: RawWindow)
    requires KeepsApart(window)
    ensures InTurn(DaysOf(window))
  {
    forall day ensures Ordered(DaysOf(window)(day)) {
      DayOrdered(window, day);
    }
    forall day, later | day < later ensures Precedes(DaysOf(window)(day), DaysOf(window)(later)) {
      forall j, k | 0 <= j < |DaySlots(window, day)| && 0 <= k < |DaySlots(window, later)|
        ensures DaySlots(window, day)[j].closes <= DaySlots(window, later)[k].opens {
        DaysApart(window, day, j, later, k);
      }
    }
  }

  // ---------- the walk over the window ----------

  /** Open by an interval of one of the lookahead's days. */
  ghost function OpenedSince(window: RawWindow, first: int): int -> bool {
    (t: int) => exists day :: first <= day < first + LOOKAHEAD_DAYS && OpenedOn(window, day, t)
  }

  lemma SlotOpenedOn(window: RawWindow, day: int, t: int)
    ensures OpenIn(DaySlots(window, day))(t) <==> OpenedOn(window, day, t)
  {
    var ivs, slots := ActiveIntervals(window, Weekday(day)), DaySlots(window, day);
    SortedByStart(ivs);
    if k :| 0 <= k < |slots| && slots[k].opens <= t < slots[k].closes {
      var i := SlotIsInterval(window, day, k);
      assert Covers(day, ivs[i], t);
    }
    if i :| 0 <= i < |ivs| && Covers(day, ivs[i], t) {
      var k := SameBag(ivs, SortByStart(ivs), i);
      assert slots[k].opens <= t < slots[k].closes;
    }
  }

  /** The slots the walk goes through: those of the lookahead. */
  function Lookahead(window: RawWindow, now: int): seq<Slot> {
    Chain(DaysOf(window), DayOf(now), DayOf(now) + LOOKAHEAD_DAYS)
  }

  lemma LookaheadIsChain(window: RawWindow, now: int)
    ensures Lookahead(window, now) == Chain(DaysOf(window), DayOf(now), DayOf(now) + LOOKAHEAD_DAYS)
  {
  }

  lemma LookaheadOpens(window: RawWindow, now: int, t: int)
    ensures OpenIn(Lookahead(window, now))(t) <==> OpenedSince(window, DayOf(now))(t)
  {
    LookaheadIsChain(window, now);
    AllDaysOpen(window, t);
    DaysOpened(DaysOf(window), window, DayOf(now), DayOf(now) + LOOKAHEAD_DAYS, t);
  }

  lemma AllDaysOpen(window: RawWindow, t: int)
    ensures forall day :: DayOpens(DaysOf(window), window, day, t)
  {
    forall day ensures DayOpens(DaysOf(window), window, day, t) {
      SlotOpenedOn(window, day, t);
    }
  }

  /** The slots of a day hold the instant exactly if an interval opened on it does. */
  ghost predicate DayOpens(days: Days, window: RawWindow, day: int, t: int) {
    OpenIn(days(day))(t) <==> OpenedOn(window, day, t)
  }

  lemma DaysOpened(days: Days, window: RawWindow, first: int, end: int, t: int)
    requires forall day :: DayOpens(days, window, day, t)
    ensures OpenIn(Chain(days, first, end))(t) <==> exists day :: first <= day < end && OpenedOn(window, day, t)
  {
    ChainOpened(days, first, end, t);
    if day :| first <= day < end && OpenIn(days(day))(t) {
      assert DayOpens(days, window, day, t);
    }
    if day :| first <= day < end && OpenedOn(window, day, t) {
      assert DayOpens(days, window, day, t);
    }
  }

  function Horizon(now: int): int {
    DayStart(DayOf(now) + LOOKAHEAD_DAYS)
  }

  /** The needed time fits into the open time of the lookahead. */
  ghost predicate Reached(open: int -> bool, now: int, needed: int) {
    0 < needed <= Count(open, now, Horizon(now))
  }

  /** The exact finish when the needed time fits into the lookahead, else the continuous projection. */
  ghost predicate IsProjection(open: int -> bool, now: int, needed: int, finish: int) {
    if Reached(open, now, needed) then IsFinish(open, now, needed, finish) else finish == now + needed
  }

  lemma StartOfDay(now: int)
    ensures DayStart(DayOf(now)) <= now < DayStart(DayOf(now) + 1)
  {
  }

  ghost predicate SlotsOfWindow(days: Days, window: RawWindow) {
    forall day :: SlotsOfDay(days, window, day)
  }

  ghost predicate SlotsOfDay(days: Days, window: RawWindow, day: int) {
    days(day) == DaySlots(window, day)
  }

  /** One day more, if anything is still needed. */
  method WalkDay(now: int, needed: int, window: RawWindow, day: int, remaining: int, ghost days: Days, ghost first: int)
    returns (found: Option<int>, left: int)
    requires first <= day && SlotsOfWindow(days, window)
    requires remaining > 0 && LeftAt(days, first, day, now, needed, remaining)
    ensures found.Some? ==> RunsOut(days(day), now, remaining, found.value)
    ensures found.None? ==> left > 0 && LeftAt(days, first, day + 1, now, needed, left)
  {
    assert SlotsOfDay(days, window, day);
    found, left := ConsumeDay(DaySlots(window, day), now, remaining);
    DayTaken(days, first, day, now, needed, remaining);
  }

  lemma NothingTaken(days: Days, first: int, now: int, needed: int)
    ensures LeftAt(days, first, first, now, needed, needed)
  {
  }

  /** Where the walk stops: on a day on which what is left runs out, or behind the lookahead. */
  ghost predicate StopsAt(days: Days, first: int, now: int, needed: int, finish: Option<int>, day: int, left: int) {
    && LeftAt(days, first, day, now, needed, left)
    && (finish.Some? ==>
          needed > 0 && first <= day < first + LOOKAHEAD_DAYS && RunsOut(days(day), now, left, finish.value))
    && (finish.None? && needed > 0 ==> left > 0 && day == first + LOOKAHEAD_DAYS)
  }

  lemma StoppedWalk(days: Days, first: int, now: int, needed: int, found: Option<int>, day: int, left: int)
    requires StopsAt(days, first, now, needed, found, day, left)
    ensures WalkEnd(Chain(days, first, first + LOOKAHEAD_DAYS), now, needed)
         == if found.Some? then found.value else now + needed
  {
    if found.Some? {
      EndsOnDay(days, first, first + LOOKAHEAD_DAYS, now, needed, day, left, found.value);
      WalkEndExactly(Chain(days, first, first + LOOKAHEAD_DAYS), now, needed, found.value);
    } else {
      EndsOnNone(days, first, first + LOOKAHEAD_DAYS, now, needed, left);
      WalkEndExactly(Chain(days, first, first + LOOKAHEAD_DAYS), now, needed, now + needed);
    }
  }

  lemma StoppedLookahead(window: RawWindow, now: int, needed: int, found: Option<int>, day: int, left: int)
    requires StopsAt(DaysOf(window), DayOf(now), now, needed, found, day, left)
    ensures WalkEnd(Lookahead(window, now), now, needed) == if found.Some? then found.value else now + needed
  {
    LookaheadIsChain(window, now);
    StoppedWalk(DaysOf(window), DayOf(now), now, needed, found, day, left);
  }

  /** The walk day by day, until the time runs out or the lookahead is over. */
  method WalkDays(now: int, needed: int, window: RawWindow, ghost days: Days)
    returns (found: Option<int>, ghost day: int, ghost left: int)
    requires SlotsOfWindow(days, window)
    ensures StopsAt(days, DayOf(now), now, needed, found, day, left)
  {
    var remaining := needed;
    var firstDay := DayOf(now);
    var dayOffset := 0;
    NothingTaken(days, firstDay, now, needed);
    while dayOffset < LOOKAHEAD_DAYS && remaining > 0
      invariant 0 <= dayOffset <= LOOKAHEAD_DAYS
      invariant if needed > 0 then remaining > 0 else remaining == needed
      invariant LeftAt(days, firstDay, firstDay + dayOffset, now, needed, remaining)
    {
      var rest;
      found, rest := WalkDay(now, needed, window, firstDay + dayOffset, remaining, days, firstDay);
      if found.Some? {
        return found, firstDay + dayOffset, remaining;
      }
      remaining := rest;
      dayOffset := dayOffset + 1;
    }
    return None, firstDay + dayOffset, remaining;
  }

  lemma DaysAreSlots(window: RawWindow)
    ensures SlotsOfWindow(DaysOf(window), window)
  {
    forall day ensures SlotsOfDay(DaysOf(window), window, day) {
    }
  }

  /** projectThroughSendWindow, in milliseconds: the walk through the slots of the lookahead, whatever the window. */
  method ProjectThroughSendWindow(now: int, needed: int, window: RawWindow) returns (finish: int)
    ensures finish == WalkEnd(Lookahead(window, now), now, needed)
  {
    DaysAreSlots(window);
    var found, day, left := WalkDays(now, needed, window, DaysOf(window));
    finish := if found.Some? then found.value else now + needed;
    StoppedLookahead(window, now, needed, found, day, left);
  }

  /**
   In a window whose intervals do not overlap, overnight ones included, the walk is exact for the time opened
   on the days it looks at.
   */
  lemma ApartWalkIsExact(window: RawWindow, now: int, needed: int, finish: int)
    requires KeepsApart(window) && finish == WalkEnd(Lookahead(window, now), now, needed)
    ensures IsExact(OpenedSince(window, DayOf(now)), now, needed, finish, Horizon(now) + MS_PER_DAY)
  {
    var slots, open, far := Lookahead(window, now), OpenedSince(window, DayOf(now)), Horizon(now) + MS_PER_DAY;
    StartOfDay(now);
    LookaheadOrdered(window, now);
    LookaheadOverBy(window, now);
    WalkEndExactly(slots, now, needed, finish);
    WalkIsExact(slots, now, needed, finish, far);
    forall t ensures SameAt(OpenIn(slots), open, t) {
      LookaheadOpens(window, now, t);
    }
    ExactSame(OpenIn(slots), open, now, needed, finish, far);
  }

  lemma LookaheadOrdered(window: RawWindow, now: int)
    requires KeepsApart(window)
    ensures Ordered(Lookahead(window, now))
  {
    LookaheadIsChain(window, now);
    DaysInTurn(window);
    WholeChainOrdered(DaysOf(window), DayOf(now), DayOf(now) + LOOKAHEAD_DAYS, Lookahead(window, now));
  }

  lemma WholeChainOrdered(days: Days, first: int, end: int, slots: seq<Slot>)
    requires InTurn(days) && slots == Chain(days, first, end)
    ensures Ordered(slots)
  {
    ChainOrdered(days, first, end);
  }

  lemma LookaheadOverBy(window: RawWindow, now: int)
    ensures OverBy(Lookahead(window, now), Horizon(now) + MS_PER_DAY)
  {
    LookaheadIsChain(window, now);
    DaysOverBy(window, DayOf(now), DayOf(now) + LOOKAHEAD_DAYS, Horizon(now) + MS_PER_DAY);
    ChainBefore(DaysOf(window), DayOf(now), DayOf(now) + LOOKAHEAD_DAYS, Horizon(now) + MS_PER_DAY);
  }

  lemma DaysOverBy(window: RawWindow, first: int, end: int, far: int)
    requires DayStart(end + 1) <= far
    ensures forall day | first <= day < end :: OverBy(DaysOf(window)(day), far)
  {
    forall day | first <= day < end ensures OverBy(DaysOf(window)(day), far) {
      DayOverBy(window, day, far);
    }
  }

  lemma DayOverBy(window: RawWindow, day: int, far: int)
    requires DayStart(day + 2) <= far
    ensures OverBy(DaySlots(window, day), far)
  {
    forall k | 0 <= k < |DaySlots(window, day)| ensures DaySlots(window, day)[k].closes <= far {
      SlotOfDay(window, day, k);
    }
  }

  /** What the walk does not see of the window: what runs on overnight from the day before. */
  lemma WalkMissesTail(window: RawWindow, now: int, t: int)
    requires now <= t < Horizon(now)
    ensures InWindow(window, t) <==> OpenedSince(window, DayOf(now))(t) || OpenedOn(window, DayOf(now) - 1, t)
  {
    StartOfDay(now);
    StartOfDay(t);
    if day :| OpenedOn(window, day, t) {
      OpenedOnByMinutes(window, day, t);
    }
  }

  /** In a tidy window nothing runs on overnight. */
  lemma TidyDayOnly(window: RawWindow, day: int, t: int)
    requires Tidy(window) && OpenedOn(window, day, t)
    ensures DayStart(day) <= t < DayStart(day + 1)
  {
    var ivs := ActiveIntervals(window, Weekday(day));
    var i :| 0 <= i < |ivs| && Covers(day, ivs[i], t);
    assert ivs[i] in multiset(ivs) && EndsByMidnight(ivs[i]);
  }

  /** So an instant is decided by its own day's intervals. */
  lemma TidyMembership(window: RawWindow, day: int, ms: int)
    requires Tidy(window) && DayStart(day) <= ms < DayStart(day + 1)
    ensures InWindow(window, ms) <==> OpenedOn(window, day, ms)
  {
    if d :| OpenedOn(window, d, ms) {
      TidyDayOnly(window, d, ms);
      assert d == day;
    }
  }

  /** The tests agree ahead of the horizon, and behind it the first is never met. */
  ghost predicate SameWithin(open: int -> bool, other: int -> bool, now: int, t: int) {
    && (now <= t < Horizon(now) ==> (open(t) <==> other(t)))
    && (Horizon(now) <= t ==> !open(t))
  }

  lemma TidyOpens(window: RawWindow, now: int, t: int)
    requires Tidy(window)
    ensures SameWithin(OpenedSince(window, DayOf(now)), Opening(window), now, t)
  {
    StartOfDay(now);
    if now <= t < Horizon(now) {
      WalkMissesTail(window, now, t);
      if OpenedOn(window, DayOf(now) - 1, t) {
        TidyDayOnly(window, DayOf(now) - 1, t);
      }
    }
    if day :| DayOf(now) <= day < DayOf(now) + LOOKAHEAD_DAYS && OpenedOn(window, day, t) {
      TidyDayOnly(window, day, t);
    }
  }

  lemma ExactWithin(open: int -> bool, other: int -> bool, now: int, needed: int, finish: int, far: int)
    requires now <= Horizon(now) <= far && IsExact(open, now, needed, finish, far)
    requires forall t :: SameWithin(open, other, now, t)
    ensures IsProjection(other, now, needed, finish)
  {
    var horizon := Horizon(now);
    forall t
      ensures now <= t < horizon ==> (open(t) <==> other(t))
      ensures horizon <= t ==> !open(t) {
      assert SameWithin(open, other, now, t);
    }
    CountSame(open, other, now, horizon);
    CountNone(open, horizon, far);
    CountSplit(open, now, horizon, far);
    if Reached(other, now, needed) {
      FinishInHorizon(open, now, needed, finish, horizon, far);
      CountSame(open, other, now, finish);
    }
  }

  lemma TidySame(window: RawWindow, now: int)
    requires Tidy(window)
    ensures forall t :: SameWithin(OpenedSince(window, DayOf(now)), Opening(window), now, t)
  {
    forall t ensures SameWithin(OpenedSince(window, DayOf(now)), Opening(window), now, t) {
      TidyOpens(window, now, t);
    }
  }

  /** In a tidy window the walk is exact for the window itself, as far as the lookahead goes. */
  lemma TidyWalkProjects(window: RawWindow, now: int, needed: int, finish: int)
    requires Tidy(window) && finish == WalkEnd(Lookahead(window, now), now, needed)
    ensures IsProjection(Opening(window), now, needed, finish)
  {
    StartOfDay(now);
    TidyKeepsApart(window);
    ApartWalkIsExact(window, now, needed, finish);
    TidySame(window, now);
    ExactWithin(OpenedSince(window, DayOf(now)), Opening(window), now, needed, finish, Horizon(now) + MS_PER_DAY);
  }

  /** A finish is no later than an instant behind which nothing opens. */
  lemma FinishInHorizon(open: int -> bool, now: int, needed: int, finish: int, horizon: int, far: int)
    requires IsFinish(open, now, needed, finish) && finish <= far && forall t | horizon <= t < far :: !open(t)
    ensures finish <= horizon
  {
    assert open(finish - 1);
  }

  // ---------- what the exact finish implies ----------

  /** There is at most one finish, and more work never finishes earlier. */
  lemma FinishMonotone(open: int -> bool, now: int, n1: int, f1: int, n2: int, f2: int)
    requires IsFinish(open, now, n1, f1) && IsFinish(open, now, n2, f2) && n1 <= n2
    ensures f1 <= f2
    ensures n1 == n2 ==> f1 == f2
  {
    if f2 < f1 {
      CountSplit(open, now, f2, f1 - 1);
    } else if f1 < f2 {
      CountSplit(open, now, f1, f2 - 1);
    }
  }

  /**
   The slow bound can come out before the average: when the average fits into the lookahead and the
   slow bound does not, the slow bound falls back to continuous time, and it is earlier exactly when
   the window is open for less than the average's work during that time.
   */
  lemma SlowBeforeAverageExactly(open: int -> bool, now: int, average: int, averageFinish: int, slow: int,
                                 slowFinish: int)
    requires IsProjection(open, now, average, averageFinish) && Reached(open, now, average)
    requires IsProjection(open, now, slow, slowFinish) && !Reached(open, now, slow) && average <= slow
    ensures slowFinish < averageFinish <==> Count(open, now, now + slow) < average
  {
    if now + slow < averageFinish {
      CountSplit(open, now, now + slow, averageFinish - 1);
    } else {
      CountSplit(open, now, averageFinish, now + slow);
    }
  }

  /** The three dates are in order whenever the slow one is reached within the lookahead. */
  lemma OrderedWhenReached(open: int -> bool, now: int, fast: int, a: int, average: int, b: int, slow: int, c: int)
    requires IsProjection(open, now, fast, a) && IsProjection(open, now, average, b) && IsProjection(open, now, slow, c)
    requires 0 <= fast <= average <= slow && Reached(open, now, slow)
    ensures a <= b <= c
  {
    if average > 0 { FinishMonotone(open, now, average, b, slow, c); }
    if fast > 0 { FinishMonotone(open, now, fast, a, average, b); }
  }

  /** A 00:00-00:00 window on every day. */
  ghost predicate AllDayEveryDay(window: RawWindow) {
    forall d | 0 <= d < 7 :: ActiveIntervals(window, d) == [Interval(0, 0)]
  }

  lemma AlwaysOpen(window: RawWindow, ms: int)
    requires AllDayEveryDay(window)
    ensures Opening(window)(ms)
  {
    var day := DayOf(ms);
    assert ActiveIntervals(window, Weekday(day))[0] == Interval(0, 0);
    assert Covers(day, Interval(0, 0), ms);
    assert OpenedOn(window, day, ms);
  }

  /** An all-day, every-day window gives exactly the continuous projection, reached or not. */
  lemma AllDayIsContinuous(window: RawWindow, now: int, needed: int, finish: int)
    requires AllDayEveryDay(window) && IsProjection(Opening(window), now, needed, finish)
    ensures Tidy(window) && finish == now + needed
  {
    assert forall a | a in multiset([Interval(0, 0)]) :: a == Interval(0, 0);
    if Reached(Opening(window), now, needed) {
      forall t | now <= t < finish ensures Opening(window)(t) {
        AlwaysOpen(window, t);
      }
      CountFull(Opening(window), now, finish);
    }
  }

  // ---------- the estimate ----------

  datatype Estimate = Estimate(activeMs: int, fastFinish: int, averageFinish: int, slowFinish: int)

  /** Needed milliseconds at a rate of `rateNum / rateDen` sends a second, cut to a whole number. */
  function ActiveMs(queueCount: int, rateNum: int, rateDen: int): int
    requires rateNum > 0
  {
    queueCount * 1000 * rateDen / rateNum
  }

  function FastMs(activeMs: int): int {
    activeMs * 4 / 5
  }

  function SlowMs(activeMs: int): int {
    activeMs * 6 / 5
  }

  /** The active time is the sends over the rate, in whole milliseconds; the bounds are a fifth below and above it. */
  lemma ActiveTimeInFigures(queueCount: int, rateNum: int, rateDen: int)
    requires rateNum > 0
    ensures var active := ActiveMs(queueCount, rateNum, rateDen);
      && active * rateNum <= queueCount * rateDen * 1000 < (active + 1) * rateNum
      && 0 <= 4 * active - 5 * FastMs(active) < 5
      && 0 <= 6 * active - 5 * SlowMs(active) < 5
  {
    var work := queueCount * 1000 * rateDen;
    assert work == (work / rateNum) * rateNum + work % rateNum && 0 <= work % rateNum < rateNum;
    assert (work / rateNum + 1) * rateNum == (work / rateNum) * rateNum + rateNum;
    assert work == queueCount * rateDen * 1000;
  }

  /** The walk looks at the day of the start and the 365 days after it. */
  lemma LookaheadInFigures(now: int)
    ensures Horizon(now) - 366 * 86_400_000 <= now < Horizon(now) - 365 * 86_400_000
    ensures Horizon(now) % 86_400_000 == 0
  {
  }

  ghost predicate Continuous(e: Estimate, now: int) {
    && e.fastFinish == now + FastMs(e.activeMs)
    && e.averageFinish == now + e.activeMs
    && e.slowFinish == now + SlowMs(e.activeMs)
  }

  /** Each date projects its share of the work: 80%, all, 120%. */
  ghost predicate Windowed(e: Estimate, open: int -> bool, now: int) {
    && IsProjection(open, now, FastMs(e.activeMs), e.fastFinish)
    && IsProjection(open, now, e.activeMs, e.averageFinish)
    && IsProjection(open, now, SlowMs(e.activeMs), e.slowFinish)
  }

  /** Each date is the walk for its share of the work: 80%, all, 120%. */
  ghost predicate Walked(e: Estimate, window: RawWindow, now: int) {
    var slots := Lookahead(window, now);
    && e.fastFinish == WalkEnd(slots, now, FastMs(e.activeMs))
    && e.averageFinish == WalkEnd(slots, now, e.activeMs)
    && e.slowFinish == WalkEnd(slots, now, SlowMs(e.activeMs))
  }

  lemma TidyEstimate(e: Estimate, window: RawWindow, now: int)
    requires Tidy(window) && Walked(e, window, now)
    ensures Windowed(e, Opening(window), now)
  {
    TidyWalkProjects(window, now, FastMs(e.activeMs), e.fastFinish);
    TidyWalkProjects(window, now, e.activeMs, e.averageFinish);
    TidyWalkProjects(window, now, SlowMs(e.activeMs), e.slowFinish);
  }

  method ProjectAll(now: int, activeMs: int, window: RawWindow) returns (e: Estimate)
    ensures e.activeMs == activeMs && Walked(e, window, now)
  {
    var a := ProjectThroughSendWindow(now, FastMs(activeMs), window);
    var b := ProjectThroughSendWindow(now, activeMs, window);
    var c := ProjectThroughSendWindow(now, SlowMs(activeMs), window);
    e := Estimate(activeMs, a, b, c);
  }

  /** estimateOutboundCompletion: the average, and bounds 20% to either side. */
  method EstimateOutboundCompletion(queueCount: int, rateNum: int, rateDen: int, now: int,
                                    sendWindow: Option<RawWindow>)
    returns (r: Option<Estimate>)
    requires rateDen > 0
    ensures r.None? <==> queueCount <= 0 || rateNum <= 0
    ensures r.Some? ==> r.value.activeMs == ActiveMs(queueCount, rateNum, rateDen)
    ensures r.Some? && ParsedWindow(sendWindow).None? ==> Continuous(r.value, now)
    ensures r.Some? && ParsedWindow(sendWindow).Some? ==> Walked(r.value, ParsedWindow(sendWindow).value, now)
    ensures r.Some? && ParsedWindow(sendWindow).Some? && Tidy(ParsedWindow(sendWindow).value) ==>
      Windowed(r.value, Opening(ParsedWindow(sendWindow).value), now)
  {
    if queueCount <= 0 || rateNum <= 0 {
      return None;
    }
    var activeMs := ActiveMs(queueCount, rateNum, rateDen);
    var window := ParseSendWindow(sendWindow);
    if window.None? {
      return Some(Estimate(activeMs, now + FastMs(activeMs), now + activeMs, now + SlowMs(activeMs)));
    }
    var e := ProjectAll(now, activeMs, window.value);
    if Tidy(window.value) {
      TidyEstimate(e, window.value, now);
    }
    r := Some(e);
  }

  /** So fast <= average <= slow when slow is reached, and an always-open window changes nothing. */
  lemma EstimateInOrder(e: Estimate, window: RawWindow, now: int)
    requires Windowed(e, Opening(window), now) && e.activeMs >= 0
    ensures Reached(Opening(window), now, SlowMs(e.activeMs)) ==> e.fastFinish <= e.averageFinish <= e.slowFinish
    ensures AllDayEveryDay(window) ==> Continuous(e, now)
  {
    if Reached(Opening(window), now, SlowMs(e.activeMs)) {
      OrderedWhenReached(Opening(window), now, FastMs(e.activeMs), e.fastFinish, e.activeMs, e.averageFinish,
                         SlowMs(e.activeMs), e.slowFinish);
    }
    if AllDayEveryDay(window) {
      AllDayIsContinuous(window, now, FastMs(e.activeMs), e.fastFinish);
      AllDayIsContinuous(window, now, e.activeMs, e.averageFinish);
      AllDayIsContinuous(window, now, SlowMs(e.activeMs), e.slowFinish);
    }
  }

  // ---------- a window where the slow bound comes first ----------

  const CLOSED_DAY := RawDay(false, Some([]))

  /** Mondays from 10:00 to 10:01. */
  const MONDAY_MINUTE: RawWindow :=
    [CLOSED_DAY, RawDay(true, Some([RawInterval(Some("10:00"), Some("10:01"))])),
     CLOSED_DAY, CLOSED_DAY, CLOSED_DAY, CLOSED_DAY, CLOSED_DAY]

  /** As the window closes on Monday, 5 January 1970. */
  const CLOSING := 4 * MS_PER_DAY + 601 * MS_PER_MINUTE

  const WEEK := 7 * MS_PER_DAY

  function WeekEnd(week: int): int {
    CLOSING + week * WEEK
  }

  lemma MondayIntervals()
    ensures ActiveIntervals(MONDAY_MINUTE, 1) == [Interval(600, 601)]
    ensures ParsedWindow(Some(MONDAY_MINUTE)) == Some(MONDAY_MINUTE)
  {
    TrimChangesExactly("10:00");
    TrimChangesExactly("10:01");
    var raw := RawInterval(Some("10:00"), Some("10:01"));
    assert ParseInterval(raw) == Some(Interval(600, 601));
    assert KeepValid([raw]) == [raw] && ParseAll([raw]) == [Interval(600, 601)];
    forall i | 0 <= i < 7 ensures NormalDay(MONDAY_MINUTE[i]) == MONDAY_MINUTE[i] {
    }
    assert NormalDays(MONDAY_MINUTE) == MONDAY_MINUTE;
    assert MONDAY_MINUTE[1].active;
  }

  lemma OneIntervalTidy(iv: Interval)
    requires EndsByMidnight(iv)
    ensures TidyDay(multiset([iv]))
  {
    assert forall a | a in multiset([iv]) :: a == iv;
  }

  lemma ClosedDayTidy(d: nat)
    requires d < 7 && MONDAY_MINUTE[d] == CLOSED_DAY
    ensures TidyDay(multiset(ActiveIntervals(MONDAY_MINUTE, d)))
  {
  }

  lemma MondayIsTidy()
    ensures Tidy(MONDAY_MINUTE)
  {
    forall d | 0 <= d < 7 ensures TidyDay(multiset(ActiveIntervals(MONDAY_MINUTE, d))) {
      if d == 1 {
        MondayIntervals();
        OneIntervalTidy(Interval(600, 601));
      } else {
        ClosedDayTidy(d);
      }
    }
  }

  lemma OpenedOnMondays(day: int, t: int)
    ensures OpenedOn(MONDAY_MINUTE, day, t) <==> Weekday(day) == 1 && Covers(day, Interval(600, 601), t)
  {
    MondayIntervals();
    var d := Weekday(day);
    if d == 1 {
      assert OpenedOn(MONDAY_MINUTE, day, t) <==> Covers(day, ActiveIntervals(MONDAY_MINUTE, 1)[0], t);
    } else {
      assert MONDAY_MINUTE[d] == CLOSED_DAY;
    }
  }

  lemma OpenOnDay(day: int, t: int)
    requires DayStart(day) <= t < DayStart(day + 1)
    ensures Opening(MONDAY_MINUTE)(t)
       <==> Weekday(day) == 1 && DayStart(day) + 600 * MS_PER_MINUTE <= t < DayStart(day) + 601 * MS_PER_MINUTE
  {
    MondayIsTidy();
    TidyMembership(MONDAY_MINUTE, day, t);
    OpenedOnMondays(day, t);
    assert Covers(day, Interval(600, 601), t)
      <==> DayStart(day) + 600 * MS_PER_MINUTE <= t < DayStart(day) + 601 * MS_PER_MINUTE;
  }

  lemma WeekOfMonday(week: int, t: int) returns (day: int)
    requires WeekEnd(week - 1) <= t < WeekEnd(week)
    ensures DayStart(day) <= t < DayStart(day + 1) && 4 + 7 * (week - 1) <= day <= 4 + 7 * week
  {
    day := DayOf(t);
    StartOfDay(t);
  }

  lemma MondaysApart(week: int, day: int)
    requires 4 + 7 * (week - 1) <= day <= 4 + 7 * week
    ensures Weekday(day) == 1 <==> day == 4 + 7 * (week - 1) || day == 4 + 7 * week
  {
    var k := day - 4 - 7 * (week - 1);
    assert day + 4 == 7 * week + (1 + k);
  }

  lemma WeekEndsMonday(week: int)
    ensures WeekEnd(week) == DayStart(4 + 7 * week) + 601 * MS_PER_MINUTE
  {
  }

  /** The window is open in the last minute of each week counted from the closing edge, and at no other time. */
  lemma MondayOpen(week: int, t: int)
    requires WeekEnd(week - 1) <= t < WeekEnd(week)
    ensures Opening(MONDAY_MINUTE)(t) <==> WeekEnd(week) - MS_PER_MINUTE <= t
  {
    var day := WeekOfMonday(week, t);
    OpenOnDay(day, t);
    MondaysApart(week, day);
    WeekEndsMonday(week - 1);
    WeekEndsMonday(week);
  }

  lemma LastMinute(week: int)
    ensures Count(Opening(MONDAY_MINUTE), WeekEnd(week) - MS_PER_MINUTE, WeekEnd(week)) == MS_PER_MINUTE
  {
    forall t | WeekEnd(week) - MS_PER_MINUTE <= t < WeekEnd(week) ensures Opening(MONDAY_MINUTE)(t) {
      MondayOpen(week, t);
    }
    CountFull(Opening(MONDAY_MINUTE), WeekEnd(week) - MS_PER_MINUTE, WeekEnd(week));
  }

  lemma OneWeek(week: int)
    ensures WeekEnd(week - 1) < WeekEnd(week)
    ensures Count(Opening(MONDAY_MINUTE), WeekEnd(week - 1), WeekEnd(week)) == MS_PER_MINUTE
  {
    var open, from, to := Opening(MONDAY_MINUTE), WeekEnd(week - 1), WeekEnd(week);
    assert from == to - WEEK;
    ClosedInWeek(week, from, to - MS_PER_MINUTE);
    LastMinute(week);
    CountSplit(open, from, to - MS_PER_MINUTE, to);
  }

  lemma {:induction false} MinuteAWeek(weeks: nat)
    ensures Count(Opening(MONDAY_MINUTE), CLOSING, WeekEnd(weeks)) == weeks * MS_PER_MINUTE
  {
    if weeks > 0 {
      MinuteAWeek(weeks - 1);
      OneWeek(weeks);
      CountSplit(Opening(MONDAY_MINUTE), CLOSING, WeekEnd(weeks - 1), WeekEnd(weeks));
    }
  }

  lemma ClosedInWeek(week: int, from: int, to: int)
    requires WeekEnd(week - 1) <= from && to <= WeekEnd(week) - MS_PER_MINUTE
    ensures Count(Opening(MONDAY_MINUTE), from, to) == 0
  {
    forall t | from <= t < to ensures !Opening(MONDAY_MINUTE)(t) {
      MondayOpen(week, t);
    }
    CountNone(Opening(MONDAY_MINUTE), from, to);
  }

  /** There are 52 open minutes in the lookahead. */
  lemma OpenInLookahead()
    ensures Count(Opening(MONDAY_MINUTE), CLOSING, Horizon(CLOSING)) == 52 * MS_PER_MINUTE
  {
    var reached := WeekEnd(52);
    MinuteAWeek(52);
    ClosedInWeek(53, reached, Horizon(CLOSING));
    CountSplit(Opening(MONDAY_MINUTE), CLOSING, reached, Horizon(CLOSING));
  }

  lemma AverageInYear(finish: int)
    requires IsProjection(Opening(MONDAY_MINUTE), CLOSING, 52 * MS_PER_MINUTE, finish)
    ensures finish == WeekEnd(52)
  {
    OpenInLookahead();
    MinuteAWeek(52);
    MondayOpen(52, WeekEnd(52) - 1);
    assert IsFinish(Opening(MONDAY_MINUTE), CLOSING, 52 * MS_PER_MINUTE, WeekEnd(52));
    FinishMonotone(Opening(MONDAY_MINUTE), CLOSING, 52 * MS_PER_MINUTE, WeekEnd(52), 52 * MS_PER_MINUTE, finish);
  }

  lemma SlowInHour(finish: int)
    requires IsProjection(Opening(MONDAY_MINUTE), CLOSING, 3_744_000, finish)
    ensures finish == CLOSING + 3_744_000
  {
    OpenInLookahead();
  }

  /**
   With 3120 contacts to text at one a second, and this window, the average takes all 52 open minutes and
   comes 52 weeks later; the slow bound takes more than there are and comes after 62.4 minutes.
   */
  lemma SlowBeforeAverageHappens(e: Estimate)
    requires e.activeMs == ActiveMs(3120, 1, 1) && Windowed(e, Opening(MONDAY_MINUTE), CLOSING)
    ensures Tidy(MONDAY_MINUTE) && ParsedWindow(Some(MONDAY_MINUTE)) == Some(MONDAY_MINUTE)
    ensures e.averageFinish == WeekEnd(52)
    ensures e.slowFinish == CLOSING + 3_744_000 < e.averageFinish
  {
    MondayIntervals();
    MondayIsTidy();
    assert e.activeMs == 52 * MS_PER_MINUTE && SlowMs(e.activeMs) == 3_744_000;
    AverageInYear(e.averageFinish);
    SlowInHour(e.slowFinish);
  }
}
