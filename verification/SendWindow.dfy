/**
 Weekly send windows: the stored value and its parser, the in-window test and the quiet-hours
 check, set against the plain reading of a window as a union of intervals on the time line.
 Times are UTC milliseconds.
 */
module SendWindow {
  import opened Prelude
  import opened Text

  const MINUTES_PER_DAY := 1440
  const MS_PER_MINUTE := 60_000
  const MS_PER_DAY := 86_400_000
  const QUIET_START_MINUTES := 1260
  const QUIET_END_MINUTES := 480

  // ---------- the stored value ----------

  /** An entry of an interval list; a bound that is not a string is None. */
  datatype RawInterval = RawInterval(start: Option<string>, end: Option<string>)

  /** `intervals` is None when the stored value is not an array. */
  datatype RawDay = Missing | RawDay(active: bool, intervals: Option<seq<RawInterval>>)

  /** Sunday first. */
  type RawWindow = w: seq<RawDay> | |w| == 7 witness [Missing, Missing, Missing, Missing, Missing, Missing, Missing]

  datatype Interval = Interval(start: nat, end: nat)

  predicate ValidInterval(iv: Interval) {
    iv.start < MINUTES_PER_DAY && iv.end < MINUTES_PER_DAY
  }

  predicate IsDigit(c: char) {
    '0' <= c <= '9'
  }

  function Digit(c: char): int {
    c as int - '0' as int
  }

  /** Minutes since midnight for "H:mm" or "HH:mm", blanks around it allowed. */
  function ParseClockMinutes(time: string): (r: Option<nat>)
    ensures r.Some? ==> r.value < MINUTES_PER_DAY
  {
    var t := Trim(time);
    if (|t| == 4 || |t| == 5) && t[|t| - 3] == ':'
       && IsDigit(t[0]) && IsDigit(t[|t| - 4]) && IsDigit(t[|t| - 2]) && IsDigit(t[|t| - 1])
    then
      var hours := if |t| == 4 then Digit(t[0]) else 10 * Digit(t[0]) + Digit(t[1]);
      var minutes := 10 * Digit(t[|t| - 2]) + Digit(t[|t| - 1]);
      if hours > 23 || minutes > 59 then None else Some(hours * 60 + minutes)
    else None
  }

  function ParseInterval(raw: RawInterval): Option<Interval> {
    if raw.start.None? || raw.end.None? then None
    else
      var s, e := ParseClockMinutes(raw.start.value), ParseClockMinutes(raw.end.value);
      if s.None? || e.None? then None else Some(Interval(s.value, e.value))
  }

  function KeepValid(raw: seq<RawInterval>): seq<RawInterval> {
    if raw == [] then []
    else (if ParseInterval(raw[0]).Some? then [raw[0]] else []) + KeepValid(raw[1..])
  }

  function NormalDay(day: RawDay): RawDay {
    if day.Missing? then RawDay(false, Some([]))
    else
      var kept := if day.intervals.Some? then KeepValid(day.intervals.value) else [];
      if day.active && kept != [] then RawDay(true, Some(kept)) else RawDay(false, Some([]))
  }

  function NormalDays(days: RawWindow): RawWindow {
    seq(7, i requires 0 <= i < 7 => NormalDay(days[i]))
  }

  predicate SomeActive(days: RawWindow, n: nat)
    requires n <= 7
  {
    exists i :: 0 <= i < n && days[i].RawDay? && days[i].active
  }

  lemma SomeActiveMore(days: RawWindow, n: nat)
    requires n < 7 && days[n].RawDay?
    ensures SomeActive(days, n + 1) <==> SomeActive(days, n) || days[n].active
  {
  }

  /** parseSendWindow's result: the days with their valid intervals, or nothing when no day is active. */
  function ParsedWindow(value: Option<RawWindow>): (r: Option<RawWindow>) {
    if value.None? then None
    else
      var days := NormalDays(value.value);
      if SomeActive(days, 7) then Some(days) else None
  }

  /** One day of the loop: its valid intervals, if it is active and has any. */
  method ParseDay(day: RawDay) returns (next: RawDay)
    ensures next == NormalDay(day) && next.RawDay?
  {
    next := RawDay(false, Some([]));
    if day.RawDay? {
      var intervals := if day.intervals.Some? then KeepValid(day.intervals.value) else [];
      if day.active && intervals != [] {
        next := RawDay(true, Some(intervals));
      }
    }
  }

  method ParseSendWindow(value: Option<RawWindow>) returns (r: Option<RawWindow>)
    ensures r == ParsedWindow(value)
  {
    if value.None? {
      return None;
    }
    ghost var days := NormalDays(value.value);
    var normalized: seq<RawDay> := [];
    var hasActive := false;
    for d := 0 to 7
      invariant normalized == days[..d]
      invariant hasActive <==> SomeActive(days, d)
    {
      var next := ParseDay(value.value[d]);
      assert next == days[d];
      SomeActiveMore(days, d);
      if next.active {
        hasActive := true;
      }
      normalized := normalized + [next];
    }
    assert days[..7] == days;
    r := if hasActive then Some(normalized) else None;
  }

  lemma {:induction false} KeepValidIdempotent(raw: seq<RawInterval>)
    ensures KeepValid(KeepValid(raw)) == KeepValid(raw)
  {
    if raw != [] {
      KeepValidIdempotent(raw[1..]);
      var tail := KeepValid(raw[1..]);
      if ParseInterval(raw[0]).Some? {
        assert KeepValid(raw) == [raw[0]] + tail;
        assert KeepValid(raw)[1..] == tail;
      } else {
        assert KeepValid(raw) == [] + tail == tail;
      }
    }
  }

  /** Parsing again changes nothing, so callers may pass a stored value or a parsed one. */
  lemma ParseSendWindowIdempotent(value: Option<RawWindow>)
    ensures ParsedWindow(ParsedWindow(value)) == ParsedWindow(value)
  {
    if ParsedWindow(value).Some? {
      var days := ParsedWindow(value).value;
      forall i | 0 <= i < 7 ensures NormalDay(days[i]) == days[i] {
        if value.value[i].RawDay? && value.value[i].intervals.Some? {
          KeepValidIdempotent(value.value[i].intervals.value);
        }
      }
      assert NormalDays(days) == days;
    }
  }

  // ---------- intervals ----------

  function ParseAll(raw: seq<RawInterval>): (r: seq<Interval>)
    ensures forall i | 0 <= i < |r| :: ValidInterval(r[i])
  {
    if raw == [] then []
    else (match ParseInterval(raw[0]) case Some(iv) => [iv] case None => []) + ParseAll(raw[1..])
  }

  /** sendWindowActiveIntervals. */
  function ActiveIntervals(window: RawWindow, day: nat): (r: seq<Interval>)
    requires day < 7
    ensures forall i | 0 <= i < |r| :: ValidInterval(r[i])
  {
    var d := window[day];
    if d.Missing? || !d.active || d.intervals.None? then [] else ParseAll(d.intervals.value)
  }

  function DayOf(ms: int): int {
    ms / MS_PER_DAY
  }

  /** getUTCDay of a day number counted from 1 January 1970, a Thursday. */
  function Weekday(day: int): nat {
    (day + 4) % 7
  }

  function MinuteOfDay(ms: int): nat {
    ms % MS_PER_DAY / MS_PER_MINUTE
  }

  // ---------- the window as a set of instants ----------

  /** Minutes the interval stays open: an end not after its start is on the next day, equal ends a full day. */
  function Span(iv: Interval): int {
    if iv.end > iv.start then iv.end - iv.start else iv.end + MINUTES_PER_DAY - iv.start
  }

  function OpensAt(day: int, iv: Interval): int {
    day * MS_PER_DAY + iv.start * MS_PER_MINUTE
  }

  function ClosesAt(day: int, iv: Interval): int {
    OpensAt(day, iv) + Span(iv) * MS_PER_MINUTE
  }

  predicate Covers(day: int, iv: Interval, ms: int) {
    OpensAt(day, iv) <= ms < ClosesAt(day, iv)
  }

  ghost predicate OpenedOn(window: RawWindow, day: int, ms: int) {
    exists i ::
      0 <= i < |ActiveIntervals(window, Weekday(day))| && Covers(day, ActiveIntervals(window, Weekday(day))[i], ms)
  }

  /** The weekly union of intervals, over all days there ever are. */
  ghost predicate InWindow(window: RawWindow, ms: int) {
    exists day :: OpenedOn(window, day, ms)
  }

  // ---------- the test the dispatcher makes ----------

  predicate InToday(iv: Interval, minutes: nat) {
    if iv.end > iv.start then iv.start <= minutes < iv.end else minutes >= iv.start
  }

  predicate InTail(iv: Interval, minutes: nat) {
    iv.end <= iv.start && minutes < iv.end
  }

  predicate SomeToday(ivs: seq<Interval>, minutes: nat) {
    exists i :: 0 <= i < |ivs| && InToday(ivs[i], minutes)
  }

  predicate SomeTail(ivs: seq<Interval>, minutes: nat) {
    exists i :: 0 <= i < |ivs| && InTail(ivs[i], minutes)
  }

  predicate WithinParsed(window: RawWindow, now: int) {
    var today, minutes := Weekday(DayOf(now)), MinuteOfDay(now);
    SomeToday(ActiveIntervals(window, today), minutes) || SomeTail(ActiveIntervals(window, (today + 6) % 7), minutes)
  }

  predicate IsWithinSendWindow(value: Option<RawWindow>, now: int) {
    var parsed := ParsedWindow(value);
    parsed.Some? ==> WithinParsed(parsed.value, now)
  }

  /** An interval reaches into its own day and the next and no further, at whole minutes. */
  lemma CoversByMinutes(day: int, iv: Interval, ms: int)
    requires ValidInterval(iv)
    ensures Covers(day, iv, ms)
        <==> (DayOf(ms) == day && InToday(iv, MinuteOfDay(ms))) || (DayOf(ms) == day + 1 && InTail(iv, MinuteOfDay(ms)))
  {
    var r := ms % MS_PER_DAY;
    assert ms == DayOf(ms) * MS_PER_DAY + r && 0 <= r < MS_PER_DAY;
    assert MinuteOfDay(ms) * MS_PER_MINUTE <= r < (MinuteOfDay(ms) + 1) * MS_PER_MINUTE;
  }

  /**
   The in-window test is membership in the weekly union, exactly: overnight intervals run into the
   next day and equal ends mean a full day.
   */
  lemma WithinParsedExactly(window: RawWindow, now: int)
    ensures WithinParsed(window, now) <==> InWindow(window, now)
  {
    var today := DayOf(now);
    DayBefore(today);
    OpenedOnByMinutes(window, today, now);
    OpenedOnByMinutes(window, today - 1, now);
    if WithinParsed(window, now) {
      assert OpenedOn(window, today, now) || OpenedOn(window, today - 1, now);
    }
    if day :| OpenedOn(window, day, now) {
      OpenedOnByMinutes(window, day, now);
    }
  }

  lemma DayBefore(day: int)
    ensures Weekday(day - 1) == (Weekday(day) + 6) % 7
  {
  }

  lemma OpenedOnByMinutes(window: RawWindow, day: int, ms: int)
    ensures OpenedOn(window, day, ms) <==>
      || (day == DayOf(ms) && SomeToday(ActiveIntervals(window, Weekday(day)), MinuteOfDay(ms)))
      || (day == DayOf(ms) - 1 && SomeTail(ActiveIntervals(window, Weekday(day)), MinuteOfDay(ms)))
  {
    var ivs := ActiveIntervals(window, Weekday(day));
    forall i | 0 <= i < |ivs|
      ensures Covers(day, ivs[i], ms)
          <==> (DayOf(ms) == day && InToday(ivs[i], MinuteOfDay(ms)))
               || (DayOf(ms) == day + 1 && InTail(ivs[i], MinuteOfDay(ms)))
    {
      CoversByMinutes(day, ivs[i], ms);
    }
  }

  /** For a stored value: as above when some day is active, and no restriction at all otherwise. */
  lemma WithinExactly(value: Option<RawWindow>, now: int)
    ensures IsWithinSendWindow(value, now) <==> ParsedWindow(value).None? || InWindow(ParsedWindow(value).value, now)
  {
    if ParsedWindow(value).Some? {
      WithinParsedExactly(ParsedWindow(value).value, now);
    }
  }

  // ---------- quiet hours ----------

  predicate IsQuiet(ms: int) {
    MinuteOfDay(ms) >= QUIET_START_MINUTES || MinuteOfDay(ms) < QUIET_END_MINUTES
  }

  predicate TouchesQuietHours(iv: Interval) {
    iv.end <= iv.start || iv.start < QUIET_END_MINUTES || iv.end > QUIET_START_MINUTES
  }

  predicate DayOverlapsQuiet(window: RawWindow, day: nat)
    requires day < 7
  {
    exists i :: 0 <= i < |ActiveIntervals(window, day)| && TouchesQuietHours(ActiveIntervals(window, day)[i])
  }

  method QuietDays(window: RawWindow) returns (days: seq<nat>)
    ensures forall d :: d in days <==> 0 <= d < 7 && DayOverlapsQuiet(window, d)
    ensures forall i, j | 0 <= i < j < |days| :: days[i] < days[j]
  {
    days := [];
    for d := 0 to 7
      invariant forall i | 0 <= i < |days| :: days[i] < d && DayOverlapsQuiet(window, days[i])
      invariant forall k | 0 <= k < d && DayOverlapsQuiet(window, k) :: k in days
      invariant forall i, j | 0 <= i < j < |days| :: days[i] < days[j]
    {
      if DayOverlapsQuiet(window, d) {
        days := days + [d];
      }
    }
  }

  method SendWindowQuietHoursOverlap(value: Option<RawWindow>) returns (overlaps: bool, days: seq<nat>)
    ensures overlaps <==> days != []
    ensures ParsedWindow(value).None? ==> days == []
    ensures ParsedWindow(value).Some? ==>
      forall d :: d in days <==> 0 <= d < 7 && DayOverlapsQuiet(ParsedWindow(value).value, d)
  {
    var parsed := ParseSendWindow(value);
    days := [];
    if parsed.Some? {
      days := QuietDays(parsed.value);
    }
    overlaps := |days| > 0;
  }

  /** An interval touches quiet hours exactly when some instant it covers is a quiet one. */
  lemma TouchesQuietExactly(day: int, iv: Interval)
    requires ValidInterval(iv)
    ensures TouchesQuietHours(iv) <==> exists ms :: Covers(day, iv, ms) && IsQuiet(ms)
  {
    if TouchesQuietHours(iv) {
      var minute := if iv.end <= iv.start then MINUTES_PER_DAY - 1
                    else if iv.start < QUIET_END_MINUTES then iv.start else iv.end - 1;
      var ms := day * MS_PER_DAY + minute * MS_PER_MINUTE;
      assert DayOf(ms) == day && MinuteOfDay(ms) == minute;
      CoversByMinutes(day, iv, ms);
      assert Covers(day, iv, ms) && IsQuiet(ms);
    }
    if ms :| Covers(day, iv, ms) && IsQuiet(ms) {
      CoversByMinutes(day, iv, ms);
    }
  }

  /** A day is reported exactly when an interval opened on it covers a quiet instant. */
  lemma QuietDayExactly(window: RawWindow, day: int)
    ensures DayOverlapsQuiet(window, Weekday(day)) <==> exists ms :: OpenedOn(window, day, ms) && IsQuiet(ms)
  {
    var ivs := ActiveIntervals(window, Weekday(day));
    if i :| 0 <= i < |ivs| && TouchesQuietHours(ivs[i]) {
      TouchesQuietExactly(day, ivs[i]);
      var ms :| Covers(day, ivs[i], ms) && IsQuiet(ms);
      assert OpenedOn(window, day, ms);
    }
    if ms :| OpenedOn(window, day, ms) && IsQuiet(ms) {
      var i :| 0 <= i < |ivs| && Covers(day, ivs[i], ms);
      TouchesQuietExactly(day, ivs[i]);
    }
  }

  /** The check reports an overlap exactly when some instant is both in the window and in 21:00-08:00. */
  lemma QuietOverlapExactly(window: RawWindow)
    ensures (exists day :: 0 <= day < 7 && DayOverlapsQuiet(window, day))
      <==> exists ms :: InWindow(window, ms) && IsQuiet(ms)
  {
    if day :| 0 <= day < 7 && DayOverlapsQuiet(window, day) {
      assert Weekday(day + 3) == day;
      QuietDayExactly(window, day + 3);
      var ms :| OpenedOn(window, day + 3, ms) && IsQuiet(ms);
      assert InWindow(window, ms);
    }
    if ms :| InWindow(window, ms) && IsQuiet(ms) {
      var day :| OpenedOn(window, day, ms);
      QuietDayExactly(window, day);
    }
  }
}
