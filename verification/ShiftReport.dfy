/** The shift list and the totals of a workspace report. */
module ShiftReport {
  import opened Prelude
  import opened Attempts
  import opened Sums
  import opened Tally
  import opened Shifts

  function ByStart(): (Entry, Entry) -> bool {
    (x: Entry, y: Entry) => x.start <= y.start
  }

  /** The shifts of one user. */
  function UserShifts(entries: seq<Entry>, user: string): seq<Shift> {
    Merge(SortBy(ByStart(), Of(entries, user)))
  }

  /** Users in the order of their first entry. */
  function Users(entries: seq<Entry>): seq<string> {
    if entries == [] then []
    else
      var rest, last := Users(entries[..|entries| - 1]), entries[|entries| - 1].user;
      if last in rest then rest else rest + [last]
  }

  /** Every attempt with a user either is still open or was ended no more than the grace before it was created. */
  predicate TimelyAttempts(attempts: seq<Attempt>) {
    forall i | 0 <= i < |attempts| :: HasUser(attempts[i]) && attempts[i].ended.Some?
      ==> attempts[i].created <= attempts[i].ended.value + GRACE
  }

  // ---------- one user's shifts ----------

  lemma {:induction false} EntriesTimely(attempts: seq<Attempt>)
    requires TimelyAttempts(attempts)
    ensures Timely(Entries(attempts))
  {
    if attempts != [] {
      var n := |attempts| - 1;
      EntriesTimely(attempts[..n]);
      EndNotBeforeStart(attempts[n]);
    }
  }

  lemma OfTimely(entries: seq<Entry>, user: string)
    requires Timely(entries)
    ensures Timely(Of(entries, user))
  {
    var own := Of(entries, user);
    forall i | 0 <= i < |own| ensures own[i].start <= own[i].end + GRACE && own[i].figures.dials == 1 {
      OfMembers(entries, user, own[i]);
    }
  }

  lemma PermutedTimely(entries: seq<Entry>, other: seq<Entry>)
    requires Timely(entries) && multiset(entries) == multiset(other)
    ensures Timely(other)
  {
    SameElements(entries, other);
    forall i | 0 <= i < |other| ensures other[i].start <= other[i].end + GRACE && other[i].figures.dials == 1 {
      assert other[i] in entries;
    }
  }

  lemma StartSorted(entries: seq<Entry>)
    ensures InOrder(SortBy(ByStart(), entries))
    ensures multiset(SortBy(ByStart(), entries)) == multiset(entries)
  {
    SortSorts(ByStart(), entries);
    SortPermutes(ByStart(), entries);
    var sorted := SortBy(ByStart(), entries);
    forall i, j | 0 <= i < j < |sorted| ensures sorted[i].start <= sorted[j].start {
      assert ByStart()(sorted[i], sorted[j]);
    }
  }

  lemma {:induction false} OfCounts(entries: seq<Entry>, user: string, e: Entry)
    ensures multiset(Of(entries, user))[e] == if e.user == user then multiset(entries)[e] else 0
  {
    if entries != [] {
      var n := |entries| - 1;
      OfCounts(entries[..n], user, e);
      assert entries == entries[..n] + [entries[n]];
    }
  }

  predicate SingleDials(entries: seq<Entry>) {
    forall i | 0 <= i < |entries| :: entries[i].figures.dials == 1
  }

  lemma {:induction false} OneDialEach(attempts: seq<Attempt>)
    ensures SingleDials(Entries(attempts))
  {
    if attempts != [] {
      OneDialEach(attempts[..|attempts| - 1]);
    }
  }

  lemma SortedOwnSingle(entries: seq<Entry>, user: string)
    requires SingleDials(entries)
    ensures SingleDials(SortBy(ByStart(), Of(entries, user)))
    ensures multiset(SortBy(ByStart(), Of(entries, user))) == multiset(Of(entries, user))
  {
    var own, sorted := Of(entries, user), SortBy(ByStart(), Of(entries, user));
    StartSorted(own);
    SameElements(own, sorted);
    forall i | 0 <= i < |sorted| ensures sorted[i].figures.dials == 1 {
      assert sorted[i] in own;
      OfMembers(entries, user, sorted[i]);
    }
  }

  /** A user's shifts meet the state-free specification on that user's entries. */
  lemma UserShiftsAreShifts(entries: seq<Entry>, user: string)
    requires Timely(entries)
    ensures AreShiftsOf(UserShifts(entries, user), SortBy(ByStart(), Of(entries, user)))
    ensures multiset(SortBy(ByStart(), Of(entries, user))) == multiset(Of(entries, user))
  {
    OfTimely(entries, user);
    StartSorted(Of(entries, user));
    PermutedTimely(Of(entries, user), SortBy(ByStart(), Of(entries, user)));
    MergeMakesShifts(SortBy(ByStart(), Of(entries, user)));
  }

  /** A user's shifts do not depend on the order in which the entries arrive. */
  lemma UserShiftsIgnoreOrder(entries: seq<Entry>, other: seq<Entry>, user: string)
    requires Timely(entries) && multiset(entries) == multiset(other)
    ensures UserShifts(entries, user) == UserShifts(other, user)
  {
    PermutedTimely(entries, other);
    UserShiftsAreShifts(entries, user);
    UserShiftsAreShifts(other, user);
    assert multiset(Of(entries, user)) == multiset(Of(other, user)) by {
      forall e ensures multiset(Of(entries, user))[e] == multiset(Of(other, user))[e] {
        OfCounts(entries, user, e);
        OfCounts(other, user, e);
      }
    }
    ShiftsDetermined(UserShifts(entries, user), UserShifts(other, user),
                     SortBy(ByStart(), Of(entries, user)), SortBy(ByStart(), Of(other, user)));
  }

  // ---------- what the shifts add up to ----------

  function ShiftDials(): Shift -> int {
    (s: Shift) => s.dials
  }

  function ShiftConnected(): Shift -> int {
    (s: Shift) => s.connected
  }

  function EntryDials(): Entry -> int {
    (e: Entry) => e.figures.dials
  }

  function EntryConnected(): Entry -> int {
    (e: Entry) => e.figures.connected
  }

  lemma SumReplaceLast(f: Shift -> int, shifts: seq<Shift>, s: Shift)
    requires shifts != []
    ensures Sum(f, shifts[..|shifts| - 1] + [s]) == Sum(f, shifts) - f(shifts[|shifts| - 1]) + f(s)
  {
    SumAppend(f, shifts[..|shifts| - 1], s);
  }

  lemma AddEntrySums(shifts: seq<Shift>, e: Entry)
    requires e.figures.dials == 1
    ensures Sum(ShiftDials(), AddEntry(shifts, e)) == Sum(ShiftDials(), shifts) + 1
    ensures Sum(ShiftConnected(), AddEntry(shifts, e)) == Sum(ShiftConnected(), shifts) + e.figures.connected
  {
    if shifts == [] || e.start > shifts[|shifts| - 1].end + GRACE {
      SumAppend(ShiftDials(), shifts, OpenShift(e));
      SumAppend(ShiftConnected(), shifts, OpenShift(e));
    } else {
      SumReplaceLast(ShiftDials(), shifts, ExtendShift(shifts[|shifts| - 1], e));
      SumReplaceLast(ShiftConnected(), shifts, ExtendShift(shifts[|shifts| - 1], e));
    }
  }

  /** No entry is lost or counted twice by a merge, in whatever order it comes. */
  lemma {:induction false} MergeConserves(entries: seq<Entry>)
    requires SingleDials(entries)
    ensures Sum(ShiftDials(), Merge(entries)) == Sum(EntryDials(), entries) == |entries|
    ensures Sum(ShiftConnected(), Merge(entries)) == Sum(EntryConnected(), entries)
  {
    if entries != [] {
      var n := |entries| - 1;
      MergeConserves(entries[..n]);
      AddEntrySums(Merge(entries[..n]), entries[n]);
    }
  }

  lemma {:induction false} TotalsAsSums(entries: seq<Entry>)
    ensures TotalsOf(entries).dials == Sum(EntryDials(), entries)
    ensures TotalsOf(entries).connected == Sum(EntryConnected(), entries)
  {
    if entries != [] {
      TotalsAsSums(entries[..|entries| - 1]);
    }
  }

  /** A user's shifts hold exactly that user's dials and connects. */
  lemma UserShiftsConserve(entries: seq<Entry>, user: string)
    requires SingleDials(entries)
    ensures Sum(ShiftDials(), UserShifts(entries, user)) == TotalsOf(Of(entries, user)).dials
    ensures Sum(ShiftConnected(), UserShifts(entries, user)) == TotalsOf(Of(entries, user)).connected
  {
    var own := Of(entries, user);
    var sorted := SortBy(ByStart(), own);
    SortedOwnSingle(entries, user);
    MergeConserves(sorted);
    SumOfPermutation(EntryDials(), own, sorted);
    SumOfPermutation(EntryConnected(), own, sorted);
    TotalsAsSums(own);
  }

  // ---------- the rows of the shift table ----------

  datatype ShiftRow = ShiftRow(number: nat, user: string, name: string, shift: Shift, seconds: int)

  function RoundSeconds(ms: int): int {
    (ms + 500) / 1000
  }

  function Label(labels: map<string, string>, user: string): string {
    if user in labels then labels[user] else user
  }

  function RowFor(number: nat, user: string, labels: map<string, string>, s: Shift): ShiftRow {
    ShiftRow(number, user, Label(labels, user), s, RoundSeconds(s.end - s.start))
  }

  /** The shifts of one user, numbered from one. */
  function Numbered(shifts: seq<Shift>, user: string, labels: map<string, string>): seq<ShiftRow> {
    seq(|shifts|, k requires 0 <= k < |shifts| => RowFor(k + 1, user, labels, shifts[k]))
  }

  function UserRows(entries: seq<Entry>, user: string, labels: map<string, string>): seq<ShiftRow> {
    Numbered(UserShifts(entries, user), user, labels)
  }

  function AllRows(entries: seq<Entry>, users: seq<string>, labels: map<string, string>): seq<ShiftRow>
    decreases |users|
  {
    if users == [] then []
    else AllRows(entries, users[..|users| - 1], labels) + UserRows(entries, users[|users| - 1], labels)
  }

  /** Latest start first, then by the user's place in the collation. */
  function RowOrder(collate: string -> int): (ShiftRow, ShiftRow) -> bool {
    (x: ShiftRow, y: ShiftRow) =>
      x.shift.start > y.shift.start || (x.shift.start == y.shift.start && collate(x.user) <= collate(y.user))
  }

  /** The whole shift table. */
  function ShiftTable(attempts: seq<Attempt>, labels: map<string, string>, collate: string -> int): seq<ShiftRow> {
    SortBy(RowOrder(collate), AllRows(Entries(attempts), Users(Entries(attempts)), labels))
  }

  lemma UsersAppend(entries: seq<Entry>, e: Entry)
    ensures Users(entries + [e]) == if e.user in Users(entries) then Users(entries) else Users(entries) + [e.user]
  {
    assert (entries + [e])[..|entries|] == entries;
  }

  predicate HasUserEntry(entries: seq<Entry>, user: string) {
    exists i :: 0 <= i < |entries| && entries[i].user == user
  }

  lemma UserEntryAppend(entries: seq<Entry>, e: Entry, user: string)
    ensures HasUserEntry(entries + [e], user) <==> HasUserEntry(entries, user) || e.user == user
  {
    var all := entries + [e];
    assert all[|entries|] == e;
    if HasUserEntry(entries, user) {
      var i :| 0 <= i < |entries| && entries[i].user == user;
      assert all[i].user == user;
    }
  }

  lemma {:induction false} UsersListed(entries: seq<Entry>)
    ensures Distinct(Users(entries)) && Covers(Users(entries), entries)
    ensures forall u :: u in Users(entries) <==> HasUserEntry(entries, u)
  {
    if entries != [] {
      var front, last := entries[..|entries| - 1], entries[|entries| - 1];
      UsersListed(front);
      assert entries == front + [last];
      UsersAppend(front, last);
      forall u ensures u in Users(entries) <==> HasUserEntry(entries, u) {
        UserEntryAppend(front, last, u);
      }
    }
  }

  ghost predicate Grouped(lists: map<string, seq<Entry>>, order: seq<string>, entries: seq<Entry>) {
    && order == Users(entries)
    && (forall u :: u in lists <==> u in order)
    && (forall u :: u in lists ==> lists[u] == Of(entries, u))
  }

  lemma NewcomerHasNone(entries: seq<Entry>, user: string)
    requires user !in Users(entries)
    ensures Of(entries, user) == []
  {
    UsersListed(entries);
    if Of(entries, user) != [] {
      OfMembers(entries, user, Of(entries, user)[0]);
    }
  }

  lemma GroupMore(lists: map<string, seq<Entry>>, order: seq<string>, entries: seq<Entry>, e: Entry)
    requires Grouped(lists, order, entries)
    ensures e.user in lists ==> Grouped(lists[e.user := lists[e.user] + [e]], order, entries + [e])
    ensures e.user !in lists ==> Grouped(lists[e.user := [e]], order + [e.user], entries + [e])
  {
    UsersAppend(entries, e);
    forall u ensures Of(entries + [e], u) == if e.user == u then Of(entries, u) + [e] else Of(entries, u) {
      OfAppend(entries, e, u);
    }
    if e.user !in lists {
      NewcomerHasNone(entries, e.user);
    }
  }

  /** The lists by user that the first loop collects. */
  method GroupByUser(attempts: seq<Attempt>) returns (lists: map<string, seq<Entry>>, order: seq<string>)
    ensures Grouped(lists, order, Entries(attempts))
  {
    lists, order := map[], [];
    ghost var entries: seq<Entry> := [];
    for i := 0 to |attempts|
      invariant entries == Entries(attempts[..i])
      invariant Grouped(lists, order, entries)
    {
      var attempt := attempts[i];
      assert attempts[..i + 1][..i] == attempts[..i];
      if HasUser(attempt) {
        var entry := EntryOf(attempt);
        GroupMore(lists, order, entries, entry);
        entries := entries + [entry];
        if entry.user in lists {
          lists := lists[entry.user := lists[entry.user] + [entry]];
        } else {
          lists := lists[entry.user := [entry]];
          order := order + [entry.user];
        }
      }
    }
    assert attempts[..|attempts|] == attempts;
  }

  /** The open shift is the last one of the merge; the rows hold the closed ones. */
  predicate MergeState(shifts: seq<Shift>, current: Option<Shift>, number: nat, rows: seq<ShiftRow>,
                       user: string, labels: map<string, string>)
  {
    match current
    case None => shifts == [] && number == 0 && rows == []
    case Some(open) =>
      |shifts| == number + 1 && shifts[number] == open && rows == Numbered(shifts[..number], user, labels)
  }

  lemma NumberedStep(shifts: seq<Shift>, n: nat, user: string, labels: map<string, string>)
    requires n + 1 == |shifts|
    ensures Numbered(shifts, user, labels)
      == Numbered(shifts[..n], user, labels) + [RowFor(n + 1, user, labels, shifts[n])]
  {
  }

  lemma StateOpens(shifts: seq<Shift>, current: Option<Shift>, number: nat, rows: seq<ShiftRow>,
                   user: string, labels: map<string, string>, e: Entry)
    requires MergeState(shifts, current, number, rows, user, labels)
    requires current.None? || e.start > current.value.end + GRACE
    ensures current.None? ==> MergeState(AddEntry(shifts, e), Some(OpenShift(e)), number, rows, user, labels)
    ensures current.Some? ==> MergeState(AddEntry(shifts, e), Some(OpenShift(e)), number + 1,
                                         rows + [RowFor(number + 1, user, labels, current.value)], user, labels)
  {
    if current.Some? {
      NumberedStep(shifts, number, user, labels);
    }
    assert AddEntry(shifts, e)[..|shifts|] == shifts;
  }

  lemma StateExtends(shifts: seq<Shift>, current: Shift, number: nat, rows: seq<ShiftRow>,
                     user: string, labels: map<string, string>, e: Entry)
    requires MergeState(shifts, Some(current), number, rows, user, labels)
    requires e.start <= current.end + GRACE
    ensures MergeState(AddEntry(shifts, e), Some(ExtendShift(current, e)), number, rows, user, labels)
  {
    assert AddEntry(shifts, e)[..number] == shifts[..number];
  }

  lemma MergePrefix(sorted: seq<Entry>, i: nat)
    requires i < |sorted|
    ensures Merge(sorted[..i + 1]) == AddEntry(Merge(sorted[..i]), sorted[i])
  {
    assert sorted[..i + 1][..i] == sorted[..i];
  }

  /** The inner loop: it keeps the open shift apart until the next one starts. */
  method MergeUser(sorted: seq<Entry>, user: string, labels: map<string, string>) returns (rows: seq<ShiftRow>)
    ensures rows == Numbered(Merge(sorted), user, labels)
  {
    rows := [];
    var current: Option<Shift> := None;
    var number := 0;
    ghost var shifts: seq<Shift> := [];
    for i := 0 to |sorted|
      invariant shifts == Merge(sorted[..i])
      invariant MergeState(shifts, current, number, rows, user, labels)
    {
      var entry := sorted[i];
      MergePrefix(sorted, i);
      if current.None? || entry.start > current.value.end + GRACE {
        StateOpens(shifts, current, number, rows, user, labels, entry);
        if current.Some? {
          number := number + 1;
          rows := rows + [RowFor(number, user, labels, current.value)];
        }
        current := Some(Shift(entry.start, entry.end, 1, entry.figures.connected));
      } else {
        StateExtends(shifts, current.value, number, rows, user, labels, entry);
        current := Some(Shift(
          current.value.start,
          if entry.end > current.value.end then entry.end else current.value.end,
          current.value.dials + 1,
          current.value.connected + entry.figures.connected));
      }
      shifts := AddEntry(shifts, entry);
    }
    assert sorted[..|sorted|] == sorted;
    if current.Some? {
      NumberedStep(shifts, number, user, labels);
      number := number + 1;
      rows := rows + [RowFor(number, user, labels, current.value)];
    }
  }

  method BuildShifts(attempts: seq<Attempt>, labels: map<string, string>, collate: string -> int)
    returns (rows: seq<ShiftRow>)
    ensures rows == ShiftTable(attempts, labels, collate)
  {
    var lists, order := GroupByUser(attempts);
    rows := [];
    for i := 0 to |order|
      invariant rows == AllRows(Entries(attempts), order[..i], labels)
    {
      var sorted := SortBy(ByStart(), lists[order[i]]);
      var own := MergeUser(sorted, order[i], labels);
      rows := rows + own;
      assert order[..i + 1][..i] == order[..i];
    }
    assert order[..|order|] == order;
    rows := SortBy(RowOrder(collate), rows);
  }

  // ---------- the table conserves and ignores order ----------

  function RowDials(): ShiftRow -> int {
    (r: ShiftRow) => r.shift.dials
  }

  function RowConnected(): ShiftRow -> int {
    (r: ShiftRow) => r.shift.connected
  }

  lemma {:induction false} NumberedSums(shifts: seq<Shift>, user: string, labels: map<string, string>)
    ensures Sum(RowDials(), Numbered(shifts, user, labels)) == Sum(ShiftDials(), shifts)
    ensures Sum(RowConnected(), Numbered(shifts, user, labels)) == Sum(ShiftConnected(), shifts)
    decreases |shifts|
  {
    if shifts != [] {
      var n := |shifts| - 1;
      var row := RowFor(n + 1, user, labels, shifts[n]);
      NumberedSums(shifts[..n], user, labels);
      NumberedStep(shifts, n, user, labels);
      SumAppend(RowDials(), Numbered(shifts[..n], user, labels), row);
      SumAppend(RowConnected(), Numbered(shifts[..n], user, labels), row);
    }
  }

  lemma UserRowsSums(entries: seq<Entry>, user: string, labels: map<string, string>)
    requires SingleDials(entries)
    ensures Sum(RowDials(), UserRows(entries, user, labels)) == TotalsOf(Of(entries, user)).dials
    ensures Sum(RowConnected(), UserRows(entries, user, labels)) == TotalsOf(Of(entries, user)).connected
  {
    UserShiftsConserve(entries, user);
    NumberedSums(UserShifts(entries, user), user, labels);
  }

  lemma {:induction false} AllRowsSums(entries: seq<Entry>, users: seq<string>, labels: map<string, string>)
    requires SingleDials(entries)
    ensures Sum(RowDials(), AllRows(entries, users, labels)) == SumTotals(users, entries).dials
    ensures Sum(RowConnected(), AllRows(entries, users, labels)) == SumTotals(users, entries).connected
    decreases |users|
  {
    if users == [] {
    } else {
      var front, last := users[..|users| - 1], users[|users| - 1];
      AllRowsSums(entries, front, labels);
      UserRowsSums(entries, last, labels);
      SumConcat(RowDials(), AllRows(entries, front, labels), UserRows(entries, last, labels));
      SumConcat(RowConnected(), AllRows(entries, front, labels), UserRows(entries, last, labels));
    }
  }

  /** The shift table holds every dial and every connect of the report once. */
  lemma TableConserves(attempts: seq<Attempt>, labels: map<string, string>, collate: string -> int)
    ensures Sum(RowDials(), ShiftTable(attempts, labels, collate)) == TotalsOf(Entries(attempts)).dials
    ensures Sum(RowConnected(), ShiftTable(attempts, labels, collate)) == TotalsOf(Entries(attempts)).connected
  {
    var entries := Entries(attempts);
    var rows := AllRows(entries, Users(entries), labels);
    OneDialEach(attempts);
    UsersListed(entries);
    AllRowsSums(entries, Users(entries), labels);
    SumsToWhole(Users(entries), entries);
    SortPermutes(RowOrder(collate), rows);
    SumOfPermutation(RowDials(), rows, SortBy(RowOrder(collate), rows));
    SumOfPermutation(RowConnected(), rows, SortBy(RowOrder(collate), rows));
  }

  function IsEntry(e: Entry): Attempt -> int {
    (a: Attempt) => if HasUser(a) && EntryOf(a) == e then 1 else 0
  }

  lemma {:induction false} EntryCount(attempts: seq<Attempt>, e: Entry)
    ensures multiset(Entries(attempts))[e] == Sum(IsEntry(e), attempts)
  {
    if attempts != [] {
      EntryCount(attempts[..|attempts| - 1], e);
    }
  }

  lemma EntriesPermute(attempts: seq<Attempt>, other: seq<Attempt>)
    requires multiset(attempts) == multiset(other)
    ensures multiset(Entries(attempts)) == multiset(Entries(other))
  {
    forall e ensures multiset(Entries(attempts))[e] == multiset(Entries(other))[e] {
      EntryCount(attempts, e);
      EntryCount(other, e);
      SumOfPermutation(IsEntry(e), attempts, other);
    }
  }

  function RowCount(entries: seq<Entry>, labels: map<string, string>, row: ShiftRow): string -> int {
    (user: string) => multiset(UserRows(entries, user, labels))[row]
  }

  lemma {:induction false} AllRowsCount(entries: seq<Entry>, users: seq<string>, labels: map<string, string>,
                                        row: ShiftRow)
    ensures multiset(AllRows(entries, users, labels))[row] == Sum(RowCount(entries, labels, row), users)
    decreases |users|
  {
    if users != [] {
      AllRowsCount(entries, users[..|users| - 1], labels, row);
    }
  }

  lemma SameUsers(entries: seq<Entry>, other: seq<Entry>, user: string)
    requires forall e | e in entries :: e in other
    ensures HasUserEntry(entries, user) ==> HasUserEntry(other, user)
  {
    if HasUserEntry(entries, user) {
      var i :| 0 <= i < |entries| && entries[i].user == user;
      assert entries[i] in entries;
    }
  }

  lemma UsersPermute(entries: seq<Entry>, other: seq<Entry>)
    requires multiset(entries) == multiset(other)
    ensures multiset(Users(entries)) == multiset(Users(other))
  {
    SameElements(entries, other);
    UsersListed(entries);
    UsersListed(other);
    forall u ensures HasUserEntry(entries, u) <==> HasUserEntry(other, u) {
      SameUsers(entries, other, u);
      SameUsers(other, entries, u);
    }
    DistinctPermute(Users(entries), Users(other));
  }

  lemma AllRowsPermute(entries: seq<Entry>, other: seq<Entry>, labels: map<string, string>)
    requires Timely(entries) && multiset(entries) == multiset(other)
    ensures multiset(AllRows(entries, Users(entries), labels)) == multiset(AllRows(other, Users(other), labels))
  {
    UsersPermute(entries, other);
    forall row
      ensures multiset(AllRows(entries, Users(entries), labels))[row]
        == multiset(AllRows(other, Users(other), labels))[row]
    {
      AllRowsCount(entries, Users(entries), labels, row);
      AllRowsCount(other, Users(other), labels, row);
      SumOfPermutation(RowCount(entries, labels, row), Users(entries), Users(other));
      forall u ensures RowCount(entries, labels, row)(u) == RowCount(other, labels, row)(u) {
        UserShiftsIgnoreOrder(entries, other, u);
      }
      SumSame(RowCount(entries, labels, row), RowCount(other, labels, row), Users(other));
    }
  }

  lemma {:induction false} RowsOfUsers(entries: seq<Entry>, users: seq<string>, labels: map<string, string>,
                                       row: ShiftRow)
    requires row in AllRows(entries, users, labels)
    ensures row in UserRows(entries, row.user, labels)
    decreases |users|
  {
    if row in AllRows(entries, users[..|users| - 1], labels) {
      RowsOfUsers(entries, users[..|users| - 1], labels, row);
    }
  }

  /** Two rows of the table that tie in its order are one row. */
  lemma NoTies(entries: seq<Entry>, users: seq<string>, labels: map<string, string>, x: ShiftRow, y: ShiftRow)
    requires Timely(entries)
    requires x in AllRows(entries, users, labels) && y in AllRows(entries, users, labels)
    requires x.user == y.user && x.shift.start == y.shift.start
    ensures x == y
  {
    RowsOfUsers(entries, users, labels, x);
    RowsOfUsers(entries, users, labels, y);
    UserShiftsAreShifts(entries, x.user);
    SameStartSameRow(UserShifts(entries, x.user), x.user, labels, x, y);
  }

  lemma SameStartSameRow(shifts: seq<Shift>, user: string, labels: map<string, string>, x: ShiftRow, y: ShiftRow)
    requires StartsIncrease(shifts)
    requires x in Numbered(shifts, user, labels) && y in Numbered(shifts, user, labels)
    requires x.shift.start == y.shift.start
    ensures x == y
  {
    var rows := Numbered(shifts, user, labels);
    var i :| 0 <= i < |rows| && rows[i] == x;
    var j :| 0 <= j < |rows| && rows[j] == y;
    StartsMonotone(shifts, if i <= j then i else j, if i <= j then j else i);
    assert i == j;
  }

  lemma RowsDoNotTie(entries: seq<Entry>, users: seq<string>, labels: map<string, string>, collate: string -> int)
    requires Timely(entries) && forall u, v :: collate(u) == collate(v) ==> u == v
    ensures forall x, y | x in AllRows(entries, users, labels) && y in AllRows(entries, users, labels) ::
      RowOrder(collate)(x, y) && RowOrder(collate)(y, x) ==> x == y
  {
    var rows := AllRows(entries, users, labels);
    forall x, y | x in rows && y in rows && RowOrder(collate)(x, y) && RowOrder(collate)(y, x) ensures x == y {
      NoTies(entries, users, labels, x, y);
    }
  }

  lemma TableSorted(rows: seq<ShiftRow>, collate: string -> int)
    ensures Sorted(RowOrder(collate), SortBy(RowOrder(collate), rows))
    ensures multiset(SortBy(RowOrder(collate), rows)) == multiset(rows)
  {
    SortSorts(RowOrder(collate), rows);
    SortPermutes(RowOrder(collate), rows);
  }

  /** If the collation tells users apart, the shift table does not depend on the order of the attempts. */
  lemma TableIgnoresOrder(attempts: seq<Attempt>, other: seq<Attempt>, labels: map<string, string>,
                          collate: string -> int)
    requires multiset(attempts) == multiset(other) && TimelyAttempts(attempts)
    requires forall u, v :: collate(u) == collate(v) ==> u == v
    ensures ShiftTable(attempts, labels, collate) == ShiftTable(other, labels, collate)
  {
    var es, fs := Entries(attempts), Entries(other);
    EntriesTimely(attempts);
    EntriesPermute(attempts, other);
    AllRowsPermute(es, fs, labels);
    var rows, rows' := AllRows(es, Users(es), labels), AllRows(fs, Users(fs), labels);
    TableSorted(rows, collate);
    TableSorted(rows', collate);
    SameElements(SortBy(RowOrder(collate), rows), rows);
    RowsDoNotTie(es, Users(es), labels, collate);
    SortedUnique(RowOrder(collate), SortBy(RowOrder(collate), rows), SortBy(RowOrder(collate), rows'));
  }
}
