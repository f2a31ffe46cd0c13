/**
 A send window as it is stored, read without its parser: which clock texts are times, when a stored window
 is open, and what the presets allow.
 */
module StoredWindow {
  import opened Prelude
  import opened Text
  import opened SendWindow
  import Decimal

  // ---------- clock texts ----------

  /** A number below a hundred with two digits. */
  function TwoDigits(n: nat): string
    requires n < 100
  {
    [Decimal.Digit(n / 10), Decimal.Digit(n % 10)]
  }

  lemma DigitsRead(d: nat)
    requires d < 10
    ensures IsDigit(Decimal.Digit(d)) && Digit(Decimal.Digit(d)) == d && !IsSpace(Decimal.Digit(d))
  {
  }

  lemma DigitsWrite(c: char)
    requires IsDigit(c)
    ensures 0 <= Digit(c) < 10 && Decimal.Digit(Digit(c)) == c
  {
  }

  /** A time of day with its hour in one digit or two, and any white space around it, is read as its minutes. */
  lemma ClockTextReads(hours: nat, minutes: nat, short: bool, before: string, after: string)
    requires hours < 24 && minutes < 60 && (short ==> hours < 10) && AllSpace(before) && AllSpace(after)
    ensures ParseClockMinutes(before + ClockText(hours, minutes, short) + after) == Some(60 * hours + minutes)
  {
    var t := ClockText(hours, minutes, short);
    DigitsRead(hours / 10);
    DigitsRead(hours % 10);
    DigitsRead(minutes / 10);
    DigitsRead(minutes % 10);
    TrimPadded(before, t, after);
    assert t[|t| - 3] == ':' && t[|t| - 2] == Decimal.Digit(minutes / 10) && t[|t| - 1] == Decimal.Digit(minutes % 10);
  }

  function ClockText(hours: nat, minutes: nat, short: bool): string
    requires hours < 100 && minutes < 100 && (short ==> hours < 10)
  {
    (if short then [Decimal.Digit(hours)] else TwoDigits(hours)) + ":" + TwoDigits(minutes)
  }

  /** And nothing else is read as a time. */
  lemma OnlyClockTextsRead(text: string) returns (hours: nat, minutes: nat, short: bool, before: string, after: string)
    requires ParseClockMinutes(text).Some?
    ensures hours < 24 && minutes < 60 && (short ==> hours < 10) && AllSpace(before) && AllSpace(after)
    ensures text == before + ClockText(hours, minutes, short) + after
    ensures ParseClockMinutes(text) == Some(60 * hours + minutes)
  {
    var t := Trim(text);
    before, after := TrimSplits(text);
    short := |t| == 4;
    DigitsWrite(t[0]);
    DigitsWrite(t[|t| - 4]);
    DigitsWrite(t[|t| - 2]);
    DigitsWrite(t[|t| - 1]);
    hours := if short then Digit(t[0]) else 10 * Digit(t[0]) + Digit(t[1]);
    minutes := 10 * Digit(t[|t| - 2]) + Digit(t[|t| - 1]);
    assert t == ClockText(hours, minutes, short);
  }

  // ---------- when a stored window is open ----------

  /** The day is switched on and this entry of its list has two times. */
  ghost predicate Counts(day: RawDay, i: nat) {
    && day.RawDay? && day.active && day.intervals.Some? && i < |day.intervals.value|
    && var raw := day.intervals.value[i];
       && raw.start.Some? && ParseClockMinutes(raw.start.value).Some?
       && raw.end.Some? && ParseClockMinutes(raw.end.value).Some?
  }

  /** The entry, on the day of this number, is open at the instant; an end not behind the start is on the day after. */
  ghost predicate OpenFrom(entry: RawInterval, day: int, ms: int)
    requires entry.start.Some? && ParseClockMinutes(entry.start.value).Some?
    requires entry.end.Some? && ParseClockMinutes(entry.end.value).Some?
  {
    var s, e := ParseClockMinutes(entry.start.value).value, ParseClockMinutes(entry.end.value).value;
    day * 86_400_000 + s * 60_000 <= ms < day * 86_400_000 + (if e > s then e else e + 1440) * 60_000
  }

  /** Some day has an entry that counts. */
  ghost predicate Restricts(window: RawWindow) {
    exists d, i :: 0 <= d < 7 && 0 <= i && Counts(window[d], i)
  }

  /** Day 0 was a Thursday, and weeks are listed from Sunday. */
  ghost predicate OpenOn(window: RawWindow, day: int, ms: int) {
    SomeEntryOpen(window[(day + 4) % 7], day, ms)
  }

  ghost predicate SomeEntryOpen(stored: RawDay, day: int, ms: int) {
    exists i: nat :: EntryOpen(stored, i, day, ms)
  }

  ghost predicate EntryOpen(stored: RawDay, i: nat, day: int, ms: int) {
    Counts(stored, i) && OpenFrom(stored.intervals.value[i], day, ms)
  }

  lemma {:induction false} ParseAllKept(raw: seq<RawInterval>)
    ensures ParseAll(KeepValid(raw)) == ParseAll(raw)
  {
    if raw != [] {
      var first, rest := raw[0], KeepValid(raw[1..]);
      ParseAllKept(raw[1..]);
      if ParseInterval(first).Some? {
        assert ([first] + rest)[0] == first && ([first] + rest)[1..] == rest;
      } else {
        assert [] + rest == rest && [] + ParseAll(raw[1..]) == ParseAll(raw[1..]);
      }
    }
  }

  lemma {:induction false} NoneKept(raw: seq<RawInterval>)
    ensures KeepValid(raw) == [] <==> forall i | 0 <= i < |raw| :: ParseInterval(raw[i]).None?
  {
    if raw != [] {
      NoneKept(raw[1..]);
      assert forall i | 0 < i < |raw| :: raw[i] == raw[1..][i - 1];
    }
  }

  lemma {:induction false} ParseAllMembers(raw: seq<RawInterval>, iv: Interval)
    ensures iv in ParseAll(raw) <==> exists i :: 0 <= i < |raw| && ParseInterval(raw[i]) == Some(iv)
  {
    if raw != [] {
      ParseAllMembers(raw[1..], iv);
      if i :| 0 <= i < |raw| && ParseInterval(raw[i]) == Some(iv) {
        if i > 0 { assert raw[1..][i - 1] == raw[i]; }
      }
      if i :| 0 <= i < |raw[1..]| && ParseInterval(raw[1..][i]) == Some(iv) {
        assert raw[i + 1] == raw[1..][i];
      }
    }
  }

  lemma DayCounts(day: RawDay)
    ensures (NormalDay(day).active && NormalDay(day).RawDay?) <==> exists i :: 0 <= i && Counts(day, i)
  {
    if day.RawDay? && day.intervals.Some? {
      NoneKept(day.intervals.value);
      assert forall i | 0 <= i < |day.intervals.value| && day.active ::
        Counts(day, i) <==> ParseInterval(day.intervals.value[i]).Some?;
    }
  }

  /** The parser finds no window exactly when nothing in the stored value counts. */
  lemma ParsedExactly(window: RawWindow)
    ensures ParsedWindow(Some(window)).Some? <==> Restricts(window)
    ensures ParsedWindow(Some(window)).Some? ==> ParsedWindow(Some(window)).value == NormalDays(window)
  {
    var days := NormalDays(window);
    forall d | 0 <= d < 7 ensures days[d] == NormalDay(window[d]) && days[d].RawDay?
                                 && (days[d].active <==> exists i :: 0 <= i && Counts(window[d], i)) {
      DayCounts(window[d]);
    }
    if d, i :| 0 <= d < 7 && 0 <= i && Counts(window[d], i) {
      assert days[d].active;
    }
  }

  lemma StoredIntervals(window: RawWindow, day: int)
    ensures var stored, ivs := window[Weekday(day)], ActiveIntervals(NormalDays(window), Weekday(day));
      if stored.RawDay? && stored.active && stored.intervals.Some? then ivs == ParseAll(stored.intervals.value)
      else ivs == []
  {
    var stored := window[Weekday(day)];
    if stored.RawDay? && stored.intervals.Some? {
      ParseAllKept(stored.intervals.value);
    }
  }

  lemma OpenedMeansOpen(window: RawWindow, day: int, ms: int)
    requires OpenedOn(NormalDays(window), day, ms)
    ensures OpenOn(window, day, ms)
  {
    var stored, ivs := window[Weekday(day)], ActiveIntervals(NormalDays(window), Weekday(day));
    StoredIntervals(window, day);
    var i :| 0 <= i < |ivs| && Covers(day, ivs[i], ms);
    ParseAllMembers(stored.intervals.value, ivs[i]);
    var k: nat :| k < |stored.intervals.value| && ParseInterval(stored.intervals.value[k]) == Some(ivs[i]);
    assert EntryOpen(stored, k, day, ms);
  }

  lemma OpenMeansOpened(window: RawWindow, day: int, ms: int)
    requires OpenOn(window, day, ms)
    ensures OpenedOn(NormalDays(window), day, ms)
  {
    var stored, ivs := window[Weekday(day)], ActiveIntervals(NormalDays(window), Weekday(day));
    StoredIntervals(window, day);
    var k: nat :| EntryOpen(stored, k, day, ms);
    var iv := ParseInterval(stored.intervals.value[k]).value;
    ParseAllMembers(stored.intervals.value, iv);
    var i :| 0 <= i < |ivs| && ivs[i] == iv;
    assert Covers(day, ivs[i], ms);
  }

  /**
   A stored window lets a message out at an instant exactly when nothing in it counts, or one of its entries
   that count is open then.
   */
  lemma StoredWindowExactly(window: RawWindow, now: int)
    ensures IsWithinSendWindow(Some(window), now) <==> !Restricts(window) || exists day :: OpenOn(window, day, now)
    ensures IsWithinSendWindow(None, now)
  {
    ParsedExactly(window);
    WithinExactly(Some(window), now);
    if Restricts(window) {
      if day :| OpenOn(window, day, now) {
        OpenMeansOpened(window, day, now);
      }
      if day :| OpenedOn(NormalDays(window), day, now) {
        OpenedMeansOpen(window, day, now);
      }
    }
  }

  // ---------- the presets ----------

  function OneEntry(start: string, end: string): RawDay {
    RawDay(true, Some([RawInterval(Some(start), Some(end))]))
  }

  const OFF := RawDay(false, Some([]))

  /** Monday to Friday, 09:00 to 17:00. */
  const BUSINESS_HOURS: RawWindow :=
    [OFF, OneEntry("09:00", "17:00"), OneEntry("09:00", "17:00"), OneEntry("09:00", "17:00"),
     OneEntry("09:00", "17:00"), OneEntry("09:00", "17:00"), OFF]

  /** Evenings on weekdays until quiet hours begin, and weekends from ten to five. */
  const EVENINGS_WEEKENDS: RawWindow :=
    [OneEntry("10:00", "17:00"), OneEntry("17:00", "21:00"), OneEntry("17:00", "21:00"), OneEntry("17:00", "21:00"),
     OneEntry("17:00", "21:00"), OneEntry("17:00", "21:00"), OneEntry("10:00", "17:00")]

  lemma OneEntryDay(start: string, end: string, s: nat, e: nat)
    requires ParseClockMinutes(start) == Some(s) && ParseClockMinutes(end) == Some(e)
    ensures NormalDay(OneEntry(start, end)) == OneEntry(start, end)
    ensures ParseAll(OneEntry(start, end).intervals.value) == [Interval(s, e)]
  {
    var raw := OneEntry(start, end).intervals.value;
    assert raw[1..] == [] && KeepValid(raw) == raw;
  }

  lemma FullHour(hours: nat, text: string)
    requires hours < 24 && text == TwoDigits(hours) + ":" + "00"
    ensures ParseClockMinutes(text) == Some(60 * hours)
  {
    ClockTextReads(hours, 0, false, "", "");
    assert "" + ClockText(hours, 0, false) + "" == text;
  }

  lemma PresetTimes()
    ensures ParseClockMinutes("09:00") == Some(540) && ParseClockMinutes("10:00") == Some(600)
    ensures ParseClockMinutes("17:00") == Some(1020) && ParseClockMinutes("21:00") == Some(1260)
  {
    FullHour(9, "09:00");
    FullHour(10, "10:00");
    FullHour(17, "17:00");
    FullHour(21, "21:00");
  }

  lemma PresetsParsed()
    ensures ParsedWindow(Some(BUSINESS_HOURS)) == Some(BUSINESS_HOURS)
    ensures ParsedWindow(Some(EVENINGS_WEEKENDS)) == Some(EVENINGS_WEEKENDS)
  {
    PresetTimes();
    OneEntryDay("09:00", "17:00", 540, 1020);
    OneEntryDay("17:00", "21:00", 1020, 1260);
    OneEntryDay("10:00", "17:00", 600, 1020);
    assert NormalDay(OFF) == OFF;
    assert NormalDays(BUSINESS_HOURS) == BUSINESS_HOURS && NormalDays(EVENINGS_WEEKENDS) == EVENINGS_WEEKENDS;
    assert BUSINESS_HOURS[1].active && EVENINGS_WEEKENDS[1].active;
  }

  lemma BusinessIntervals(d: nat)
    requires d < 7
    ensures ActiveIntervals(BUSINESS_HOURS, d) == if 1 <= d <= 5 then [Interval(540, 1020)] else []
  {
    PresetTimes();
    OneEntryDay("09:00", "17:00", 540, 1020);
    assert BUSINESS_HOURS[d] == if 1 <= d <= 5 then OneEntry("09:00", "17:00") else OFF;
  }

  lemma EveningIntervals(d: nat)
    requires d < 7
    ensures ActiveIntervals(EVENINGS_WEEKENDS, d) ==
      if 1 <= d <= 5 then [Interval(1020, 1260)] else [Interval(600, 1020)]
  {
    PresetTimes();
    OneEntryDay("17:00", "21:00", 1020, 1260);
    OneEntryDay("10:00", "17:00", 600, 1020);
    assert EVENINGS_WEEKENDS[d] == if 1 <= d <= 5 then OneEntry("17:00", "21:00") else OneEntry("10:00", "17:00");
  }

  lemma MinutesBetween(now: int, lo: nat, hi: nat)
    ensures lo <= MinuteOfDay(now) < hi <==> lo * 60_000 <= now % 86_400_000 < hi * 60_000
  {
    assert MinuteOfDay(now) * 60_000 <= now % 86_400_000 < (MinuteOfDay(now) + 1) * 60_000;
  }

  lemma BusinessMinutes(today: nat, yesterday: nat, minutes: nat)
    requires today < 7 && yesterday < 7
    ensures SomeToday(ActiveIntervals(BUSINESS_HOURS, today), minutes) <==> 1 <= today <= 5 && 540 <= minutes < 1020
    ensures !SomeTail(ActiveIntervals(BUSINESS_HOURS, yesterday), minutes)
  {
    BusinessIntervals(today);
    BusinessIntervals(yesterday);
    if 1 <= today <= 5 {
      assert ActiveIntervals(BUSINESS_HOURS, today)[0] == Interval(540, 1020);
    }
  }

  lemma ParsedWithin(window: RawWindow, now: int, today: nat, minutes: nat)
    requires ParsedWindow(Some(window)) == Some(window) && today == Weekday(DayOf(now)) && minutes == MinuteOfDay(now)
    ensures today < 7
    ensures IsWithinSendWindow(Some(window), now) <==>
      SomeToday(ActiveIntervals(window, today), minutes)
      || SomeTail(ActiveIntervals(window, (today + 6) % 7), minutes)
  {
  }

  predicate BusinessOpen(now: int) {
    IsWithinSendWindow(Some(BUSINESS_HOURS), now)
  }

  /** Business hours let messages out from nine to five, Monday to Friday, and at no other instant. */
  lemma BusinessHoursExactly(now: int)
    ensures IsWithinSendWindow(Some(BUSINESS_HOURS), now) <==>
      1 <= (now / 86_400_000 + 4) % 7 <= 5 && 9 * 3_600_000 <= now % 86_400_000 < 17 * 3_600_000
  {
    var today, minutes := (now / 86_400_000 + 4) % 7, MinuteOfDay(now);
    assert BusinessOpen(now) <==> 1 <= today <= 5 && 540 <= minutes < 1020 by {
      PresetsParsed();
      ParsedWithin(BUSINESS_HOURS, now, today, minutes);
      BusinessMinutes(today, (today + 6) % 7, minutes);
    }
    MinutesBetween(now, 540, 1020);
  }

  /** Quiet hours are from nine in the evening to eight in the morning. */
  lemma QuietInFigures(now: int)
    ensures IsQuiet(now) <==> now % 86_400_000 >= 21 * 3_600_000 || now % 86_400_000 < 8 * 3_600_000
  {
    assert MinuteOfDay(now) * 60_000 <= now % 86_400_000 < (MinuteOfDay(now) + 1) * 60_000;
  }

  /** Neither preset trips the quiet-hours warning, so neither lets a message out in quiet hours. */
  lemma PresetsKeepQuietHours(now: int)
    requires now % 86_400_000 >= 21 * 3_600_000 || now % 86_400_000 < 8 * 3_600_000
    ensures forall d | 0 <= d < 7 :: !DayOverlapsQuiet(BUSINESS_HOURS, d) && !DayOverlapsQuiet(EVENINGS_WEEKENDS, d)
    ensures !IsWithinSendWindow(Some(BUSINESS_HOURS), now) && !IsWithinSendWindow(Some(EVENINGS_WEEKENDS), now)
  {
    forall d | 0 <= d < 7
      ensures !DayOverlapsQuiet(BUSINESS_HOURS, d) && !DayOverlapsQuiet(EVENINGS_WEEKENDS, d) {
      BusinessIntervals(d);
      EveningIntervals(d);
    }
    QuietInFigures(now);
    PresetsParsed();
    WithinExactly(Some(BUSINESS_HOURS), now);
    WithinExactly(Some(EVENINGS_WEEKENDS), now);
    QuietOverlapExactly(BUSINESS_HOURS);
    QuietOverlapExactly(EVENINGS_WEEKENDS);
  }
}
