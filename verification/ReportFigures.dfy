/**
 The figures of the workspace report, told from the attempts: when an attempt is connected, how long it rang
 and held its user, and what every total and every row of the report counts.
 */
module ReportFigures {
  import opened Prelude
  import opened Text
  import opened Sums
  import opened Attempts
  import opened Tally
  import opened Shifts
  import opened ShiftReport
  import opened WorkspaceReport

  // ---------- one attempt ----------

  /**
   An attempt is connected if it was answered, or its disposition, whatever its case, is there and is none of
   eight words, or one of its calls was completed and lasted three seconds.
   */
  lemma ConnectedExactly(a: Attempt)
    ensures AttemptMetrics(a).connected <==>
      || a.answered.Some?
      || Lower(a.disposition) !in {"", "no-answer", "failed", "busy", "canceled", "cancelled", "voicemail",
                                   "voicemail-no-message", "undelivered"}
      || exists i :: 0 <= i < |a.calls| && a.calls[i].completed && a.calls[i].durationSeconds >= 3
  {
    assert |Lower(a.disposition)| == |a.disposition|;
  }

  /** The nearest whole number of seconds, half a second counting as one. */
  ghost predicate Rounds(seconds: int, ms: int) {
    1000 * seconds - 500 <= ms < 1000 * seconds + 500
  }

  /** Seconds between two instants, and none if the second is missing or not later. */
  ghost predicate Lasts(seconds: nat, start: int, end: Option<int>) {
    if end.Some? && end.value > start then Rounds(seconds, end.value - start) else seconds == 0
  }

  function Seconds(): Call -> int {
    (c: Call) => c.durationSeconds
  }

  lemma {:induction false} CallSecondsSum(calls: seq<Call>)
    ensures CallSeconds(calls) == Sum(Seconds(), calls)
  {
    if calls != [] {
      CallSecondsSum(calls[..|calls| - 1]);
    }
  }

  /** When the attempt is known to have ended: its own end, or the last end among its calls. */
  ghost predicate KnownEnd(a: Attempt, end: Option<int>) {
    if a.ended.Some? then end == a.ended
    else
      && (end.None? <==> forall i | 0 <= i < |a.calls| :: a.calls[i].endTime.None?)
      && (end.Some? ==> exists i :: 0 <= i < |a.calls| && a.calls[i].endTime == end)
      && (end.Some? ==>
            forall i | 0 <= i < |a.calls| && a.calls[i].endTime.Some? :: a.calls[i].endTime.value <= end.value)
  }

  /**
   An attempt rings until it is answered, or until its end; its user is held until its end, or until it is
   answered if no end is known; and if that comes to nothing, for the ringing and the talking together.
   */
  lemma AttemptInFigures(a: Attempt) returns (end: Option<int>, held: nat)
    ensures KnownEnd(a, end)
    ensures var m := AttemptMetrics(a);
      && m.connectedSeconds == Sum(Seconds(), a.calls)
      && Lasts(m.dialing, a.created, if a.answered.Some? then a.answered else end)
      && Lasts(held, a.created, if end.Some? then end else a.answered)
      && m.interface == (if held > 0 then held else m.dialing + m.connectedSeconds)
  {
    LatestEndIsLatest(a.calls);
    CallSecondsSum(a.calls);
    end := if a.ended.Some? then a.ended else LatestEnd(a.calls);
    held := SecondsBetween(a.created, if end.Some? then end else a.answered);
  }

  /** An attempt is over when it ended, or else when its user has been held as long as it says. */
  lemma AttemptOver(a: Attempt)
    requires HasUser(a)
    ensures EntryOf(a).start == a.created
    ensures EntryOf(a).end == if a.ended.Some? then a.ended.value else a.created + 1000 * AttemptMetrics(a).interface
  {
  }

  // ---------- totals ----------

  /** Which figure of an attempt is counted. */
  datatype Figure = Dials | Connects | Ringing | Talking | Held

  function FigureOf(figure: Figure, m: Metrics): nat {
    match figure
    case Dials => 1
    case Connects => if m.connected then 1 else 0
    case Ringing => m.dialing
    case Talking => m.connectedSeconds
    case Held => m.interface
  }

  function TotalOf(figure: Figure, totals: Totals): nat {
    match figure
    case Dials => totals.dials
    case Connects => totals.connected
    case Ringing => totals.dialing
    case Talking => totals.connectedSeconds
    case Held => totals.interface
  }

  /** The figure of an attempt that has a user. */
  function Anybody(figure: Figure): Attempt -> int {
    (a: Attempt) => if a.user.Some? && a.user.value != "" then FigureOf(figure, AttemptMetrics(a)) else 0
  }

  /** The figure of an attempt of one user. */
  function Only(user: string, figure: Figure): Attempt -> int {
    (a: Attempt) => if a.user == Some(user) then FigureOf(figure, AttemptMetrics(a)) else 0
  }

  /** Every total of the summary is the figure's sum over the attempts that have a user. */
  lemma {:induction false} SummaryInFigures(attempts: seq<Attempt>, figure: Figure)
    ensures TotalOf(figure, TotalsOf(Entries(attempts))) == Sum(Anybody(figure), attempts)
  {
    if attempts != [] {
      var front, last := attempts[..|attempts| - 1], attempts[|attempts| - 1];
      SummaryInFigures(front, figure);
      if HasUser(last) {
        TotalsOfAppend(Entries(front), EntryOf(last));
      }
    }
  }

  /** And every total of a user's row its sum over that user's attempts. */
  lemma {:induction false} UserInFigures(attempts: seq<Attempt>, user: string, figure: Figure)
    requires user != ""
    ensures TotalOf(figure, TotalsOf(Of(Entries(attempts), user))) == Sum(Only(user, figure), attempts)
  {
    if attempts != [] {
      var front, last := attempts[..|attempts| - 1], attempts[|attempts| - 1];
      UserInFigures(front, user, figure);
      if HasUser(last) {
        UserTotalsAppend(Entries(front), EntryOf(last), user);
      }
    }
  }

  /** The connects of the summary, attempt by attempt. */
  lemma ConnectsInFigures(attempts: seq<Attempt>)
    ensures TotalsOf(Entries(attempts)).connected == Sum(Connection(), attempts)
  {
    SummaryInFigures(attempts, Connects);
    forall i | 0 <= i < |attempts| ensures Connection()(attempts[i]) == Anybody(Connects)(attempts[i]) {
      ConnectedExactly(attempts[i]);
    }
    SumSame(Connection(), Anybody(Connects), attempts);
  }

  /** One for an attempt with a user that was connected, and nothing for any other. */
  ghost function Connection(): Attempt -> int {
    (a: Attempt) =>
      if a.user.Some? && a.user.value != ""
         && (a.answered.Some?
             || Lower(a.disposition) !in {"", "no-answer", "failed", "busy", "canceled", "cancelled", "voicemail",
                                          "voicemail-no-message", "undelivered"}
             || exists i :: 0 <= i < |a.calls| && a.calls[i].completed && a.calls[i].durationSeconds >= 3)
      then 1 else 0
  }

  // ---------- rows ----------

  /** A user's rows number that user's shifts from one, with the user's name and the length in seconds. */
  ghost predicate RowOfShift(row: ShiftRow, attempts: seq<Attempt>, labels: map<string, string>) {
    && 1 <= row.number <= |UserShifts(Entries(attempts), row.user)|
    && row.shift == UserShifts(Entries(attempts), row.user)[row.number - 1]
    && row.name == (if row.user in labels then labels[row.user] else row.user)
    && Rounds(row.seconds, row.shift.end - row.shift.start)
  }

  lemma {:induction false} RowsOf(attempts: seq<Attempt>, users: seq<string>, labels: map<string, string>,
                                  row: ShiftRow)
    ensures row in AllRows(Entries(attempts), users, labels)
       <==> row.user in users && RowOfShift(row, attempts, labels)
    decreases |users|
  {
    if users != [] {
      var front, last := users[..|users| - 1], users[|users| - 1];
      RowsOf(attempts, front, labels, row);
      RowsOfOne(attempts, last, labels, row);
    }
  }

  lemma RowsOfOne(attempts: seq<Attempt>, user: string, labels: map<string, string>, row: ShiftRow)
    ensures row in UserRows(Entries(attempts), user, labels) <==> row.user == user && RowOfShift(row, attempts, labels)
  {
    NumberedRows(UserShifts(Entries(attempts), user), user, labels, row);
  }

  lemma NumberedRows(shifts: seq<Shift>, user: string, labels: map<string, string>, row: ShiftRow)
    ensures row in Numbered(shifts, user, labels) <==>
      && row.user == user && 1 <= row.number <= |shifts| && row.shift == shifts[row.number - 1]
      && row.name == (if user in labels then labels[user] else user)
      && Rounds(row.seconds, row.shift.end - row.shift.start)
  {
    var rows := Numbered(shifts, user, labels);
    if k :| 0 <= k < |rows| && rows[k] == row {
      assert rows[k] == RowFor(k + 1, user, labels, shifts[k]);
    }
    if 1 <= row.number <= |shifts| {
      assert rows[row.number - 1] == RowFor(row.number, user, labels, shifts[row.number - 1]);
    }
  }

  /** Every shift of every user with an attempt is one row of the table, and there are no other rows. */
  lemma TableInFigures(attempts: seq<Attempt>, labels: map<string, string>, collate: string -> int, row: ShiftRow)
    ensures row in ShiftTable(attempts, labels, collate) <==>
      RowOfShift(row, attempts, labels) && HasUserEntry(Entries(attempts), row.user)
  {
    var entries := Entries(attempts);
    RowsOf(attempts, Users(entries), labels, row);
    UsersListed(entries);
    SortPermutes(RowOrder(collate), AllRows(entries, Users(entries), labels));
    SameElements(ShiftTable(attempts, labels, collate), AllRows(entries, Users(entries), labels));
  }

  /** The latest shift comes first; shifts that start together come in the order of their users. */
  lemma TableInOrder(attempts: seq<Attempt>, labels: map<string, string>, collate: string -> int, i: nat, j: nat)
    requires i < j < |ShiftTable(attempts, labels, collate)|
    ensures var table := ShiftTable(attempts, labels, collate);
      || table[i].shift.start > table[j].shift.start
      || (table[i].shift.start == table[j].shift.start && collate(table[i].user) <= collate(table[j].user))
  {
    TableSorted(AllRows(Entries(attempts), Users(Entries(attempts)), labels), collate);
  }

  /** Users are listed by falling number of dials. */
  lemma UsersInOrder(rows: seq<UserRow>, i: nat, j: nat)
    requires Sorted(ByDials(), rows) && i < j < |rows|
    ensures rows[i].totals.dials >= rows[j].totals.dials
  {
  }

  /** A user goes by the name last given for that user. */
  lemma {:induction false} NamedLast(users: seq<User>, user: string)
    ensures user in Labels(users) <==> exists i :: 0 <= i < |users| && users[i].id == user
    ensures forall i | 0 <= i < |users| && users[i].id == user && (forall j | i < j < |users| :: users[j].id != user) ::
      Labels(users)[user] == users[i].name
  {
    if users != [] {
      var n := |users| - 1;
      NamedLast(users[..n], user);
      if i :| 0 <= i < |users| && users[i].id == user {
        if i < n { assert users[..n][i].id == user; }
      }
      forall i | 0 <= i < |users| && users[i].id == user && (forall j | i < j < |users| :: users[j].id != user)
        ensures Labels(users)[user] == users[i].name {
        if i < n {
          assert users[n].id != user;
          assert users[..n][i].id == user;
        }
      }
    }
  }
}
