/** Keyset pages over the audit log, followed by cursor while other rows come in. */
module Keyset {
  import opened Prelude
  import opened Sums

  datatype Row = Row(workspace: int, createdAt: int, id: int, action: string)
  datatype Cursor = Cursor(createdAt: int, id: int)

  const DEFAULT_PAGE: nat := 50
  const MAX_PAGE: nat := 100

  /** The requested page size; `parsed` is absent when the text holds no number. */
  function PageSize(parsed: Option<int>): (size: nat)
    ensures 1 <= size <= 100
    ensures parsed.None? || parsed.value < 1 ==> size == 50
    ensures parsed.Some? && 1 <= parsed.value ==>
      size <= parsed.value && (parsed.value <= 100 ==> size == parsed.value) && (parsed.value > 100 ==> size == 100)
  {
    if parsed.None? || parsed.value < 1 then DEFAULT_PAGE
    else if parsed.value < MAX_PAGE then parsed.value else MAX_PAGE
  }

  function CursorOf(r: Row): Cursor {
    Cursor(r.createdAt, r.id)
  }

  /** Rows after the cursor in a listing, newest first. */
  predicate Below(r: Row, c: Cursor) {
    r.createdAt < c.createdAt || (r.createdAt == c.createdAt && r.id < c.id)
  }

  function InWorkspace(workspace: int): Row -> bool {
    (r: Row) => r.workspace == workspace
  }

  function After(c: Cursor): Row -> bool {
    (r: Row) => Below(r, c)
  }

  /** The conditions of a page's query. */
  function Conditions(workspace: int, cursor: Option<Cursor>): seq<Row -> bool> {
    if cursor.Some? then [InWorkspace(workspace), After(cursor.value)] else [InWorkspace(workspace)]
  }

  predicate Meets(conditions: seq<Row -> bool>, r: Row) {
    forall i | 0 <= i < |conditions| :: conditions[i](r)
  }

  function Select(table: seq<Row>, conditions: seq<Row -> bool>): seq<Row> {
    if table == [] then []
    else
      var rest, last := Select(table[..|table| - 1], conditions), table[|table| - 1];
      if Meets(conditions, last) then rest + [last] else rest
  }

  function Newest(): (Row, Row) -> bool {
    (x: Row, y: Row) => x.createdAt > y.createdAt || (x.createdAt == y.createdAt && x.id >= y.id)
  }

  /** What the database returns without a limit. */
  function Query(table: seq<Row>, workspace: int, cursor: Option<Cursor>): seq<Row> {
    SortBy(Newest(), Select(table, Conditions(workspace, cursor)))
  }

  /** Ids are a key of the table. */
  predicate Keyed(table: seq<Row>) {
    forall i, j | 0 <= i < j < |table| :: table[i].id != table[j].id
  }

  // ---------- what a query returns ----------

  predicate Descending(rows: seq<Row>) {
    forall i, j | 0 <= i < j < |rows| :: Below(rows[j], CursorOf(rows[i]))
  }

  lemma {:induction false} SelectMembers(table: seq<Row>, conditions: seq<Row -> bool>, r: Row)
    ensures r in Select(table, conditions) <==> r in table && Meets(conditions, r)
  {
    if table != [] {
      var n := |table| - 1;
      SelectMembers(table[..n], conditions, r);
      assert table == table[..n] + [table[n]];
    }
  }

  lemma {:induction false} SelectKeyed(table: seq<Row>, conditions: seq<Row -> bool>)
    requires Keyed(table)
    ensures Keyed(Select(table, conditions))
  {
    if table != [] {
      var n := |table| - 1;
      var front := Select(table[..n], conditions);
      SelectKeyed(table[..n], conditions);
      forall i | 0 <= i < |front| ensures front[i].id != table[n].id {
        SelectMembers(table[..n], conditions, front[i]);
        assert front[i] in table[..n];
      }
    }
  }

  lemma KeyedPermutes(rows: seq<Row>, other: seq<Row>)
    requires Keyed(rows) && multiset(rows) == multiset(other)
    ensures Keyed(other)
  {
    SameElements(rows, other);
    forall i, j | 0 <= i < j < |other| ensures other[i].id != other[j].id {
      assert other[i] in rows && other[j] in rows;
      if other[i] == other[j] {
        CountTwice(other, i, j);
        CountOfDistinct(rows, other[i]);
      }
    }
  }

  lemma KeyedSortedDescends(rows: seq<Row>)
    requires Keyed(rows) && Sorted(Newest(), rows)
    ensures Descending(rows)
  {
    forall i, j | 0 <= i < j < |rows| ensures Below(rows[j], CursorOf(rows[i])) {
      assert Newest()(rows[i], rows[j]);
    }
  }

  /** A query returns the matching rows, newest first, each once. */
  lemma QueryLists(table: seq<Row>, workspace: int, cursor: Option<Cursor>)
    requires Keyed(table)
    ensures Descending(Query(table, workspace, cursor))
    ensures forall r :: r in Query(table, workspace, cursor)
                   <==> r in table && r.workspace == workspace && (cursor.Some? ==> Below(r, cursor.value))
  {
    var conditions := Conditions(workspace, cursor);
    var picked := Select(table, conditions);
    SelectKeyed(table, conditions);
    SortSorts(Newest(), picked);
    SortPermutes(Newest(), picked);
    KeyedPermutes(picked, Query(table, workspace, cursor));
    KeyedSortedDescends(Query(table, workspace, cursor));
    SameElements(Query(table, workspace, cursor), picked);
    forall r
      ensures r in picked <==> r in table && r.workspace == workspace && (cursor.Some? ==> Below(r, cursor.value))
    {
      SelectMembers(table, conditions, r);
      MeetsConditions(workspace, cursor, r);
    }
  }

  /** Newest first, and by falling id within one moment; below a cursor is what comes later in that order. */
  lemma OrderInFigures(table: seq<Row>, workspace: int, cursor: Option<Cursor>)
    requires Keyed(table)
    ensures var rows := Query(table, workspace, cursor);
      && (forall i, j | 0 <= i < j < |rows| ::
            rows[i].createdAt > rows[j].createdAt
            || (rows[i].createdAt == rows[j].createdAt && rows[i].id > rows[j].id))
      && (forall r | r in rows && cursor.Some? ::
            r.createdAt < cursor.value.createdAt
            || (r.createdAt == cursor.value.createdAt && r.id < cursor.value.id))
  {
    QueryLists(table, workspace, cursor);
    var rows := Query(table, workspace, cursor);
    assert forall i, j | 0 <= i < j < |rows| :: Below(rows[j], CursorOf(rows[i]));
  }

  lemma MeetsConditions(workspace: int, cursor: Option<Cursor>, r: Row)
    ensures Meets(Conditions(workspace, cursor), r)
       <==> r.workspace == workspace && (cursor.Some? ==> Below(r, cursor.value))
  {
    var conditions := Conditions(workspace, cursor);
    assert conditions[0](r) == (r.workspace == workspace);
    if cursor.Some? {
      assert conditions[1](r) == Below(r, cursor.value);
    }
  }

  lemma DescendingDistinct(rows: seq<Row>)
    requires Descending(rows)
    ensures forall i, j | 0 <= i < j < |rows| :: rows[i] != rows[j]
  {
    forall i, j | 0 <= i < j < |rows| ensures rows[i] != rows[j] {
      assert Below(rows[j], CursorOf(rows[i]));
    }
  }

  lemma DescendingSorted(rows: seq<Row>)
    requires Descending(rows)
    ensures Sorted(Newest(), rows)
  {
    forall i, j | 0 <= i < j < |rows| ensures Newest()(rows[i], rows[j]) {
      assert Below(rows[j], CursorOf(rows[i]));
    }
  }

  /** A listing is determined by its members. */
  lemma ListingUnique(s: seq<Row>, t: seq<Row>)
    requires Descending(s) && Descending(t) && forall r :: r in s <==> r in t
    ensures s == t
  {
    DescendingDistinct(s);
    DescendingDistinct(t);
    DescendingSorted(s);
    DescendingSorted(t);
    DistinctPermute(s, t);
    forall x, y | x in s && y in s && Newest()(x, y) && Newest()(y, x) ensures x == y {
      var i :| 0 <= i < |s| && s[i] == x;
      var j :| 0 <= j < |s| && s[j] == y;
      assert i == j;
    }
    SortedUnique(Newest(), s, t);
  }

  /** What lies below the cursor of a listed row is the rest of the listing. */
  lemma BelowIsRest(table: seq<Row>, later: seq<Row>, workspace: int, cursor: Option<Cursor>, k: nat)
    requires Keyed(table) && Keyed(later) && k < |Query(table, workspace, cursor)|
    requires var c := CursorOf(Query(table, workspace, cursor)[k]);
             forall r :: Below(r, c) && r.workspace == workspace ==> (r in later <==> r in table)
    ensures Query(later, workspace, Some(CursorOf(Query(table, workspace, cursor)[k])))
         == Query(table, workspace, cursor)[k + 1..]
  {
    var rows := Query(table, workspace, cursor);
    var c := CursorOf(rows[k]);
    var rest, next := rows[k + 1..], Query(later, workspace, Some(c));
    QueryLists(table, workspace, cursor);
    QueryLists(later, workspace, Some(c));
    forall r ensures r in next <==> r in rest {
      if r in next {
        BelowTransitive(r, c, cursor, rows[k]);
        assert r in rows;
        var i :| 0 <= i < |rows| && rows[i] == r;
        NotAbove(rows, i, k);
        assert rest[i - k - 1] == r;
      }
      if r in rest {
        var i :| 0 <= i < |rest| && rest[i] == r;
        assert r == rows[k + 1 + i];
        assert Below(rows[k + 1 + i], CursorOf(rows[k]));
        assert r in rows;
      }
    }
    ListingUnique(next, rest);
  }

  lemma NotAbove(rows: seq<Row>, i: nat, k: nat)
    requires Descending(rows) && i < |rows| && k < |rows| && Below(rows[i], CursorOf(rows[k]))
    ensures i > k
  {
  }

  lemma BelowTransitive(r: Row, c: Cursor, cursor: Option<Cursor>, at: Row)
    requires Below(r, c) && c == CursorOf(at) && (cursor.Some? ==> Below(at, cursor.value))
    ensures cursor.Some? ==> Below(r, cursor.value)
  {
  }

  // ---------- pages ----------

  method ListWorkspaceAuditEvents(table: seq<Row>, workspace: int, limit: nat, cursor: Option<Cursor>)
    returns (events: seq<Row>, next: Option<Cursor>)
    ensures Fetched(Page(table, limit, cursor, events, next), workspace)
  {
    var conditions := [InWorkspace(workspace)];
    if cursor.Some? {
      conditions := conditions + [After(cursor.value)];
    }
    assert conditions == Conditions(workspace, cursor);
    var rows := SortBy(Newest(), Select(table, conditions));
    rows := if limit + 1 < |rows| then rows[..limit + 1] else rows;
    var hasMore := |rows| > limit;
    events := if hasMore then rows[..limit] else rows;
    next := if hasMore && events != [] then Some(CursorOf(events[|events| - 1])) else None;
  }

  /** One fetch: the table it read, what was asked, what came back. */
  datatype Page = Page(table: seq<Row>, limit: nat, cursor: Option<Cursor>, events: seq<Row>, next: Option<Cursor>)

  predicate Fetched(p: Page, workspace: int) {
    var rows := Query(p.table, workspace, p.cursor);
    && p.events == (if p.limit < |rows| then rows[..p.limit] else rows)
    && p.next == (if 0 < p.limit < |rows| then Some(CursorOf(rows[p.limit - 1])) else None)
  }

  /** Between two fetches rows may come and go, but not below the cursor. */
  ghost predicate Quiet(p: Page, q: Page, workspace: int) {
    p.next.Some? ==>
      forall r: Row :: r.workspace == workspace && Below(r, p.next.value) ==> (r in q.table <==> r in p.table)
  }

  /** Pages fetched by following the cursor from the start. */
  ghost predicate Follow(pages: seq<Page>, workspace: int) {
    && (forall i :: 0 <= i < |pages| ==> Keyed(pages[i].table) && Fetched(pages[i], workspace) && pages[i].limit >= 1)
    && (pages != [] ==> pages[0].cursor == None)
    && (forall i :: 0 < i < |pages| ==> Continues(pages[i - 1], pages[i], workspace))
  }

  ghost predicate Continues(p: Page, q: Page, workspace: int) {
    p.next.Some? && q.cursor == p.next && Quiet(p, q, workspace)
  }

  function Events(pages: seq<Page>): seq<Row> {
    if pages == [] then [] else Events(pages[..|pages| - 1]) + pages[|pages| - 1].events
  }

  /** Rows not yet returned when a page has come. */
  function Remaining(p: Page, workspace: int): seq<Row> {
    var rows := Query(p.table, workspace, p.cursor);
    if p.limit < |rows| then rows[p.limit..] else []
  }

  lemma NextPageTakesUp(p: Page, q: Page, workspace: int)
    requires Keyed(p.table) && Keyed(q.table) && p.limit >= 1
    requires Fetched(p, workspace) && Continues(p, q, workspace)
    ensures Query(q.table, workspace, q.cursor) == Remaining(p, workspace)
  {
    BelowIsRest(p.table, q.table, workspace, p.cursor, p.limit - 1);
  }

  lemma FollowFront(pages: seq<Page>, workspace: int)
    requires Follow(pages, workspace) && |pages| > 1
    ensures Follow(pages[..|pages| - 1], workspace)
    ensures Continues(pages[|pages| - 2], pages[|pages| - 1], workspace)
  {
    var front := pages[..|pages| - 1];
    forall i | 0 < i < |front| ensures Continues(front[i - 1], front[i], workspace) {
      assert Continues(pages[i - 1], pages[i], workspace);
    }
  }

  /** A fetched page and what it leaves are its query; a page leaves something exactly if it has a cursor. */
  lemma PageSplits(p: Page, workspace: int)
    requires Fetched(p, workspace) && p.limit >= 1
    ensures p.events + Remaining(p, workspace) == Query(p.table, workspace, p.cursor)
    ensures p.next.None? <==> Remaining(p, workspace) == []
    ensures p.events == [] <==> Query(p.table, workspace, p.cursor) == []
  {
  }

  lemma ConcatAssociates(a: seq<Row>, b: seq<Row>, c: seq<Row>)
    ensures (a + b) + c == a + (b + c)
  {
  }

  /** At every point the pages so far and what remains are the listing as the first fetch saw it. */
  lemma {:induction false} PagesAndRest(pages: seq<Page>, workspace: int)
    requires Follow(pages, workspace) && pages != []
    ensures Events(pages) + Remaining(pages[|pages| - 1], workspace) == Query(pages[0].table, workspace, None)
    ensures |Events(pages)| >= |pages| || (|pages| == 1 && Query(pages[0].table, workspace, None) == [])
  {
    var n := |pages| - 1;
    PageSplits(pages[n], workspace);
    ConcatAssociates(Events(pages[..n]), pages[n].events, Remaining(pages[n], workspace));
    if n > 0 {
      var front, previous := pages[..n], pages[n - 1];
      FollowFront(pages, workspace);
      PagesAndRest(front, workspace);
      PageSplits(previous, workspace);
      NextPageTakesUp(previous, pages[n], workspace);
    }
  }

  /**
   * Complete: once a page comes without a cursor, the pages are the whole listing as the first fetch
   * saw it, in order, nothing skipped and nothing twice, whatever the page sizes and whatever was
   * added above the cursor meanwhile.
   */
  lemma PagesComplete(pages: seq<Page>, workspace: int)
    requires Follow(pages, workspace) && pages != [] && pages[|pages| - 1].next.None?
    ensures Events(pages) == Query(pages[0].table, workspace, None)
  {
    PagesAndRest(pages, workspace);
    PageSplits(pages[|pages| - 1], workspace);
  }

  /** It ends: there are never more pages than rows to list, but for one page when there is nothing. */
  lemma PagesEnd(pages: seq<Page>, workspace: int)
    requires Follow(pages, workspace) && pages != []
    ensures |pages| == 1 || |pages| <= |Query(pages[0].table, workspace, None)|
  {
    PagesAndRest(pages, workspace);
  }
}
