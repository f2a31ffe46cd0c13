/** The workspace report: one pass over the attempts fills the summary and a row per user. */
module WorkspaceReport {
  import opened Attempts
  import opened Sums
  import opened Tally
  import opened ShiftReport

  datatype User = User(id: string, name: string)
  datatype UserRow = UserRow(user: string, name: string, totals: Totals)
  datatype Report = Report(
    summary: Totals,
    totalShifts: nat,
    totalShiftSeconds: int,
    users: seq<UserRow>,
    shifts: seq<ShiftRow>)

  function RowSeconds(): ShiftRow -> int {
    (r: ShiftRow) => r.seconds
  }

  function ByDials(): (UserRow, UserRow) -> bool {
    (x: UserRow, y: UserRow) => x.totals.dials >= y.totals.dials
  }

  function Labels(users: seq<User>): map<string, string> {
    if users == [] then map[]
    else Labels(users[..|users| - 1])[users[|users| - 1].id := users[|users| - 1].name]
  }

  /** The map of user rows, keyed in `order`: right for the entries seen so far. */
  ghost predicate Tracks(perUser: map<string, Totals>, order: seq<string>, entries: seq<Entry>) {
    && Distinct(order)
    && (forall u :: u in perUser <==> u in order)
    && (forall u :: u in order ==> perUser[u] == TotalsOf(Of(entries, u)))
    && Covers(order, entries)
  }

  lemma {:induction false} TotalsOfNone(entries: seq<Entry>, user: string)
    requires forall i | 0 <= i < |entries| :: entries[i].user != user
    ensures Of(entries, user) == []
  {
    if entries != [] {
      TotalsOfNone(entries[..|entries| - 1], user);
    }
  }

  lemma TrackMore(perUser: map<string, Totals>, order: seq<string>, entries: seq<Entry>, e: Entry)
    requires Tracks(perUser, order, entries) && e.user in order
    ensures Tracks(perUser[e.user := Plus(perUser[e.user], e.figures)], order, entries + [e])
  {
    var now, more := perUser[e.user := Plus(perUser[e.user], e.figures)], entries + [e];
    forall u | u in order ensures now[u] == TotalsOf(Of(more, u)) {
      UserTotalsAppend(entries, e, u);
    }
    assert Covers(order, more);
    assert forall u :: u in now <==> u in order;
  }

  lemma TrackNew(perUser: map<string, Totals>, order: seq<string>, entries: seq<Entry>, user: string)
    requires Tracks(perUser, order, entries) && user !in order
    ensures Tracks(perUser[user := ZERO], order + [user], entries)
  {
    TotalsOfNone(entries, user);
    var now := order + [user];
    assert forall i | 0 <= i < |entries| :: entries[i].user in order;
    assert forall u :: u in now <==> u in order || u == user;
  }

  lemma TrackReset(perUser: map<string, Totals>, order: seq<string>, user: string)
    requires Tracks(perUser, order, []) && user in order
    ensures Tracks(perUser[user := ZERO], order, [])
  {
  }

  /** A row for everybody who dialled and for nobody else, each with that user's own totals. */
  ghost predicate UserRowsOf(rows: seq<UserRow>, entries: seq<Entry>) {
    && (forall i, j :: 0 <= i < j < |rows| ==> rows[i].user != rows[j].user)
    && (forall i :: 0 <= i < |rows| ==>
      rows[i].totals == TotalsOf(Of(entries, rows[i].user)) && rows[i].totals.dials > 0)
    && (forall e :: e in entries ==> exists i :: 0 <= i < |rows| && rows[i].user == e.user)
  }

  function RowUsers(rows: seq<UserRow>): seq<string> {
    seq(|rows|, i requires 0 <= i < |rows| => rows[i].user)
  }

  function SumRows(rows: seq<UserRow>): Totals {
    if rows == [] then ZERO else Plus(SumRows(rows[..|rows| - 1]), rows[|rows| - 1].totals)
  }

  lemma {:induction false} SumRowsIsSumTotals(rows: seq<UserRow>, entries: seq<Entry>)
    requires forall i :: 0 <= i < |rows| ==> rows[i].totals == TotalsOf(Of(entries, rows[i].user))
    ensures SumRows(rows) == SumTotals(RowUsers(rows), entries)
  {
    if rows != [] {
      SumRowsIsSumTotals(rows[..|rows| - 1], entries);
      assert RowUsers(rows)[..|rows| - 1] == RowUsers(rows[..|rows| - 1]);
    }
  }

  /** Conservation: the user table adds up to the summary. */
  lemma UserTableConserves(rows: seq<UserRow>, entries: seq<Entry>)
    requires UserRowsOf(rows, entries)
    ensures SumRows(rows) == TotalsOf(entries)
  {
    SumRowsIsSumTotals(rows, entries);
    var users := RowUsers(rows);
    forall i | 0 <= i < |entries| ensures entries[i].user in users {
      assert entries[i] in entries;
      var k :| 0 <= k < |rows| && rows[k].user == entries[i].user;
      assert users[k] == entries[i].user;
    }
    SumsToWhole(users, entries);
  }

  /** The table lists the users by number of dials. */
  lemma SortKeepsRows(rows: seq<UserRow>, entries: seq<Entry>)
    requires UserRowsOf(rows, entries)
    ensures UserRowsOf(SortBy(ByDials(), rows), entries)
    ensures Sorted(ByDials(), SortBy(ByDials(), rows))
  {
    var sorted := SortBy(ByDials(), rows);
    SortSorts(ByDials(), rows);
    SortPermutes(ByDials(), rows);
    SameElements(sorted, rows);
    SortedRowsDistinct(rows, sorted);
    forall i | 0 <= i < |sorted|
      ensures sorted[i].totals == TotalsOf(Of(entries, sorted[i].user)) && sorted[i].totals.dials > 0
    {
      assert sorted[i] in rows;
    }
    forall e | e in entries ensures exists i :: 0 <= i < |sorted| && sorted[i].user == e.user {
      var k :| 0 <= k < |rows| && rows[k].user == e.user;
      assert rows[k] in sorted;
    }
  }

  lemma SortedRowsDistinct(rows: seq<UserRow>, sorted: seq<UserRow>)
    requires multiset(sorted) == multiset(rows)
    requires forall i, j :: 0 <= i < j < |rows| ==> rows[i].user != rows[j].user
    ensures forall i, j :: 0 <= i < j < |sorted| ==> sorted[i].user != sorted[j].user
  {
    SameElements(sorted, rows);
    forall i, j | 0 <= i < j < |sorted| ensures sorted[i].user != sorted[j].user {
      assert sorted[i] in rows && sorted[j] in rows;
      if sorted[i] == sorted[j] {
        CountOfDistinct(rows, sorted[i]);
        CountTwice(sorted, i, j);
      }
    }
  }

  lemma {:induction false} DialsPositive(entries: seq<Entry>, user: string)
    requires forall i | 0 <= i < |entries| :: entries[i].figures.dials == 1
    ensures TotalsOf(Of(entries, user)).dials == 0 ==> forall i | 0 <= i < |entries| :: entries[i].user != user
  {
    if entries != [] {
      DialsPositive(entries[..|entries| - 1], user);
    }
  }

  ghost predicate Collected(rows: seq<UserRow>, perUser: map<string, Totals>, done: seq<string>) {
    && (forall i, j :: 0 <= i < j < |rows| ==> rows[i].user != rows[j].user)
    && (forall i :: 0 <= i < |rows| ==> IsRow(rows[i], perUser, done))
    && (forall u :: u in done && u in perUser && perUser[u].dials > 0 ==> HasRow(rows, u))
  }

  predicate IsRow(row: UserRow, perUser: map<string, Totals>, done: seq<string>) {
    row.user in done && row.user in perUser && row.totals == perUser[row.user] && row.totals.dials > 0
  }

  predicate HasRow(rows: seq<UserRow>, user: string) {
    exists i :: 0 <= i < |rows| && rows[i].user == user
  }

  lemma CollectStep(rows: seq<UserRow>, perUser: map<string, Totals>, done: seq<string>, user: string, name: string)
    requires Collected(rows, perUser, done) && user !in done && user in perUser
    ensures perUser[user].dials > 0 ==> Collected(rows + [UserRow(user, name, perUser[user])], perUser, done + [user])
    ensures perUser[user].dials == 0 ==> Collected(rows, perUser, done + [user])
  {
    var now, row := done + [user], UserRow(user, name, perUser[user]);
    assert forall u :: u in now <==> u in done || u == user;
    forall i | 0 <= i < |rows| ensures IsRow(rows[i], perUser, now) {
      assert IsRow(rows[i], perUser, done);
    }
    if perUser[user].dials > 0 {
      forall u | u in now && u in perUser && perUser[u].dials > 0 ensures HasRow(rows + [row], u) {
        if u == user {
          assert (rows + [row])[|rows|].user == u;
        } else {
          var i :| 0 <= i < |rows| && rows[i].user == u;
          assert (rows + [row])[i].user == u;
        }
      }
    }
  }

  lemma CollectedRows(rows: seq<UserRow>, perUser: map<string, Totals>, order: seq<string>, entries: seq<Entry>)
    requires Tracks(perUser, order, entries) && Collected(rows, perUser, order)
    requires forall i | 0 <= i < |entries| :: entries[i].figures.dials == 1
    ensures UserRowsOf(rows, entries)
  {
    forall i | 0 <= i < |rows|
      ensures rows[i].totals == TotalsOf(Of(entries, rows[i].user)) && rows[i].totals.dials > 0
    {
      assert IsRow(rows[i], perUser, order);
    }
    forall e | e in entries ensures exists i :: 0 <= i < |rows| && rows[i].user == e.user {
      DialsPositive(entries, e.user);
      assert HasRow(rows, e.user);
    }
  }

  /** The rows of everybody who dialled. */
  method CollectRows(perUser: map<string, Totals>, order: seq<string>, labels: map<string, string>)
    returns (rows: seq<UserRow>)
    requires Distinct(order) && forall i | 0 <= i < |order| :: order[i] in perUser
    ensures Collected(rows, perUser, order)
    ensures forall r | r in rows :: r.name == Label(labels, r.user)
  {
    rows := [];
    for i := 0 to |order|
      invariant Collected(rows, perUser, order[..i])
      invariant forall r | r in rows :: r.name == Label(labels, r.user)
    {
      var u := order[i];
      CollectStep(rows, perUser, order[..i], u, Label(labels, u));
      assert order[..i + 1] == order[..i] + [u];
      if perUser[u].dials > 0 {
        rows := rows + [UserRow(u, Label(labels, u), perUser[u])];
      }
    }
    assert order[..|order|] == order;
  }

  /** The first loop: a row of zeros for every listed user. */
  method SeedUsers(users: seq<User>)
    returns (perUser: map<string, Totals>, labels: map<string, string>, order: seq<string>)
    ensures labels == Labels(users) && Tracks(perUser, order, [])
  {
    perUser, labels, order := map[], map[], [];
    for i := 0 to |users|
      invariant labels == Labels(users[..i]) && Tracks(perUser, order, [])
    {
      assert users[..i + 1][..i] == users[..i];
      if users[i].id in perUser {
        TrackReset(perUser, order, users[i].id);
      } else {
        TrackNew(perUser, order, [], users[i].id);
        order := order + [users[i].id];
      }
      perUser := perUser[users[i].id := ZERO];
      labels := labels[users[i].id := users[i].name];
    }
    assert users[..|users|] == users;
  }

  /** The second loop: every attempt with a user is added to the summary and to that user's row. */
  method AddAttempts(attempts: seq<Attempt>, rows: map<string, Totals>, users: seq<string>)
    returns (summary: Totals, perUser: map<string, Totals>, order: seq<string>)
    requires Tracks(rows, users, [])
    ensures summary == TotalsOf(Entries(attempts)) && Tracks(perUser, order, Entries(attempts))
  {
    summary, perUser, order := ZERO, rows, users;
    ghost var entries: seq<Entry> := [];
    for i := 0 to |attempts|
      invariant entries == Entries(attempts[..i])
      invariant summary == TotalsOf(entries)
      invariant Tracks(perUser, order, entries)
    {
      var attempt := attempts[i];
      assert attempts[..i + 1][..i] == attempts[..i];
      if HasUser(attempt) {
        var entry := EntryOf(attempt);
        summary := Plus(summary, entry.figures);
        if entry.user !in perUser {
          TrackNew(perUser, order, entries, entry.user);
          order := order + [entry.user];
          perUser := perUser[entry.user := ZERO];
        }
        TrackMore(perUser, order, entries, entry);
        TotalsOfAppend(entries, entry);
        perUser := perUser[entry.user := Plus(perUser[entry.user], entry.figures)];
        entries := entries + [entry];
      }
    }
    assert attempts[..|attempts|] == attempts;
  }

  method TotalSeconds(shifts: seq<ShiftRow>) returns (seconds: int)
    ensures seconds == Sum(RowSeconds(), shifts)
  {
    seconds := 0;
    for i := 0 to |shifts|
      invariant seconds == Sum(RowSeconds(), shifts[..i])
    {
      assert shifts[..i + 1][..i] == shifts[..i];
      seconds := seconds + shifts[i].seconds;
    }
    assert shifts[..|shifts|] == shifts;
  }

  method BuildWorkspaceAnalytics(attempts: seq<Attempt>, users: seq<User>, collate: string -> int)
    returns (report: Report)
    ensures report.summary == TotalsOf(Entries(attempts))
    ensures UserRowsOf(report.users, Entries(attempts)) && Sorted(ByDials(), report.users)
    ensures forall r | r in report.users :: r.name == Label(Labels(users), r.user)
    ensures report.shifts == ShiftTable(attempts, Labels(users), collate)
    ensures report.totalShifts == |report.shifts|
    ensures report.totalShiftSeconds == Sum(RowSeconds(), report.shifts)
  {
    var seeded, labels, listed := SeedUsers(users);
    var summary, perUser, order := AddAttempts(attempts, seeded, listed);
    var rows := CollectRows(perUser, order, labels);
    OneDialEach(attempts);
    CollectedRows(rows, perUser, order, Entries(attempts));
    SortKeepsRows(rows, Entries(attempts));
    SortPermutes(ByDials(), rows);
    SameElements(SortBy(ByDials(), rows), rows);
    var shifts := BuildShifts(attempts, labels, collate);
    var seconds := TotalSeconds(shifts);
    report := Report(summary, |shifts|, seconds, SortBy(ByDials(), rows), shifts);
  }
}
