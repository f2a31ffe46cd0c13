/**
 The UPDATE and DELETE events a queue write puts on a workspace's channel, and the client that
 folds them. `Mirrors` is the promise: a client holding the rows of its workspace before the
 writes holds exactly the rows after them.
 */
module QueueEvents {
  import opened Prelude
  import opened QueueRows

  datatype Event =
    | Updated(channel: int, row: Row, before: Option<Row>)
    | Deleted(channel: int, row: Row)

  function Channel(w: int, t: Table): Table {
    map id | id in t && t[id].workspace == w :: t[id]
  }

  function Receive(w: int, view: Table, e: Event): Table {
    if e.channel != w then view
    else match e
      case Updated(_, row, _) => view[row.id := row]
      case Deleted(_, row) => view - {row.id}
  }

  function Fold(w: int, view: Table, events: seq<Event>): Table {
    if events == [] then view
    else Receive(w, Fold(w, view, events[..|events| - 1]), events[|events| - 1])
  }

  ghost predicate Mirrors(t: Table, events: seq<Event>, t': Table) {
    forall w :: Fold(w, Channel(w, t), events) == Channel(w, t')
  }

  lemma {:induction false} FoldAppend(w: int, view: Table, a: seq<Event>, b: seq<Event>)
    ensures Fold(w, view, a + b) == Fold(w, Fold(w, view, a), b)
    decreases |b|
  {
    if b == [] {
      assert a + b == a;
    } else {
      assert (a + b)[..|a + b| - 1] == a + b[..|b| - 1];
      FoldAppend(w, view, a, b[..|b| - 1]);
    }
  }

  lemma MirrorsCompose(t0: Table, a: seq<Event>, t1: Table, b: seq<Event>, t2: Table)
    requires Mirrors(t0, a, t1) && Mirrors(t1, b, t2)
    ensures Mirrors(t0, a + b, t2)
  {
    forall w ensures Fold(w, Channel(w, t0), a + b) == Channel(w, t2) {
      FoldAppend(w, Channel(w, t0), a, b);
    }
  }

  /** What a log gained since two of its states, one after the other. */
  lemma MirrorsOn(first: seq<Event>, between: seq<Event>, now: seq<Event>, t: Table, t1: Table, t2: Table)
    requires first <= between <= now
    requires Mirrors(t, between[|first|..], t1) && Mirrors(t1, now[|between|..], t2)
    ensures Mirrors(t, now[|first|..], t2)
  {
    assert now[|first|..] == between[|first|..] + now[|between|..];
    MirrorsCompose(t, between[|first|..], t1, now[|between|..], t2);
  }

  ghost function Flatten(batches: seq<seq<Event>>): seq<Event> {
    if batches == [] then [] else Flatten(batches[..|batches| - 1]) + batches[|batches| - 1]
  }

  /** A serial run of any length: the client's copy follows the table through every write. */
  lemma {:induction false} RunMirrors(tables: seq<Table>, batches: seq<seq<Event>>)
    requires |tables| == |batches| + 1
    requires forall k | 0 <= k < |batches| :: Mirrors(tables[k], batches[k], tables[k + 1])
    ensures Mirrors(tables[0], Flatten(batches), tables[|batches|])
    decreases |batches|
  {
    if batches == [] {
      SilentWriteMirrorsExactly(tables[0], tables[0]);
    } else {
      var n := |batches| - 1;
      RunMirrors(tables[..n + 1], batches[..n]);
      MirrorsCompose(tables[0], Flatten(batches[..n]), tables[n], batches[n], tables[n + 1]);
    }
  }

  ghost function Reported(events: seq<Event>): set<int> {
    set k | 0 <= k < |events| :: events[k].row.id
  }

  lemma ReportedLast(events: seq<Event>)
    requires events != []
    ensures Reported(events) == Reported(events[..|events| - 1]) + {events[|events| - 1].row.id}
  {
    var n := |events| - 1;
    forall id | id in Reported(events) ensures id in Reported(events[..n]) + {events[n].row.id} {
      var k :| 0 <= k < |events| && events[k].row.id == id;
      if k < n { assert events[..n][k].row.id == id; }
    }
    forall id | id in Reported(events[..n]) ensures id in Reported(events) {
      var k :| 0 <= k < n && events[..n][k].row.id == id;
      assert events[k].row.id == id;
    }
  }

  /** One UPDATE event a row, in some order, each with the row's new and old columns. */
  ghost predicate Reports(channel: int, events: seq<Event>, ids: set<int>, t: Table, t': Table) {
    && Reported(events) == ids
    && ids <= t.Keys && ids <= t'.Keys
    && (forall i, j | 0 <= i < j < |events| :: events[i].row.id != events[j].row.id)
    && (forall k | 0 <= k < |events| ::
          events[k] == Updated(channel, t'[events[k].row.id], Some(t[events[k].row.id])))
  }

  ghost predicate ReportsDeletes(channel: int, events: seq<Event>, ids: set<int>, t: Table) {
    && Reported(events) == ids
    && ids <= t.Keys
    && (forall i, j | 0 <= i < j < |events| :: events[i].row.id != events[j].row.id)
    && (forall k | 0 <= k < |events| :: events[k] == Deleted(channel, t[events[k].row.id]))
  }

  ghost function Patch(t: Table, t': Table, ids: set<int>): Table
    requires t'.Keys == t.Keys
  {
    map id | id in t :: if id in ids then t'[id] else t[id]
  }

  ghost predicate SameWorkspaces(t: Table, t': Table) {
    t'.Keys == t.Keys && forall id | id in t :: t'[id].workspace == t[id].workspace
  }

  lemma {:induction false} FoldUpdates(w: int, t: Table, t': Table, events: seq<Event>)
    requires Keyed(t) && Keyed(t') && SameWorkspaces(t, t')
    requires forall k | 0 <= k < |events| ::
      && events[k].Updated? && events[k].row.id in t' && events[k].row == t'[events[k].row.id]
      && events[k].channel == events[k].row.workspace
    ensures Fold(w, Channel(w, t), events) == Channel(w, Patch(t, t', Reported(events)))
  {
    if events == [] {
      assert Patch(t, t', Reported(events)) == t;
    } else {
      var init, last := events[..|events| - 1], events[|events| - 1];
      FoldUpdates(w, t, t', init);
      ReportedLast(events);
    }
  }

  /** A reported batch mirrors when the channel it went to is the rows' own workspace. */
  lemma ReportsMirror(channel: int, events: seq<Event>, ids: set<int>, t: Table, t': Table)
    requires Keyed(t) && Keyed(t') && SameWorkspaces(t, t')
    requires Reports(channel, events, ids, t, t')
    requires forall id | id in ids :: t[id].workspace == channel
    requires forall id | id in t && id !in ids :: t'[id] == t[id]
    ensures Mirrors(t, events, t')
  {
    forall k | 0 <= k < |events|
      ensures events[k].row.id in t' && events[k].row == t'[events[k].row.id]
      ensures events[k].channel == events[k].row.workspace
    {
      assert events[k].row.id in Reported(events);
    }
    forall w ensures Fold(w, Channel(w, t), events) == Channel(w, t') {
      FoldUpdates(w, t, t', events);
      var patched := Patch(t, t', Reported(events));
      assert patched.Keys == t'.Keys;
      assert forall id | id in t' :: patched[id] == t'[id];
      assert patched == t';
    }
  }

  lemma {:induction false} FoldDeletes(w: int, t: Table, events: seq<Event>)
    requires Keyed(t)
    requires forall k | 0 <= k < |events| ::
      events[k].Deleted? && events[k].row.id in t && events[k].row == t[events[k].row.id]
      && events[k].channel == events[k].row.workspace
    ensures Fold(w, Channel(w, t), events) == Channel(w, t - Reported(events))
  {
    if events == [] {
      assert t - Reported(events) == t;
    } else {
      var init, last := events[..|events| - 1], events[|events| - 1];
      FoldDeletes(w, t, init);
      ReportedLast(events);
    }
  }

  lemma ReportsDeletesMirror(channel: int, events: seq<Event>, ids: set<int>, t: Table)
    requires Keyed(t)
    requires ReportsDeletes(channel, events, ids, t)
    requires forall id | id in ids :: t[id].workspace == channel
    ensures Mirrors(t, events, t - ids)
  {
    forall k | 0 <= k < |events|
      ensures events[k].row.id in t && events[k].row == t[events[k].row.id]
      ensures events[k].channel == events[k].row.workspace
    {
      assert events[k].row.id in Reported(events);
    }
    forall w ensures Fold(w, Channel(w, t), events) == Channel(w, t - ids) {
      FoldDeletes(w, t, events);
    }
  }

  /** A write that puts nothing on any channel keeps the mirror exactly when it changes nothing. */
  lemma SilentWriteMirrorsExactly(t: Table, t': Table)
    requires SameWorkspaces(t, t')
    ensures Mirrors(t, [], t') <==> t' == t
  {
    if Mirrors(t, [], t') {
      forall id | id in t ensures t'[id] == t[id] {
        var w := t[id].workspace;
        assert Fold(w, Channel(w, t), []) == Channel(w, t');
        assert Channel(w, t)[id] == t[id];
        assert Channel(w, t')[id] == t'[id];
      }
    }
  }

  /**
   The stale-claim sweep runs inside the database and emits nothing, so it keeps a client's copy
   exactly when no row of the campaign was stale or exhausted.
   */
  lemma SweepMirrorsExactly(t: Table, campaign: int, now: int)
    ensures Mirrors(t, [], Sweep(t, campaign, now))
        <==> forall id | id in t :: !Stale(campaign, now, t[id]) && !Exhausted(campaign, t[id])
  {
    var t' := Sweep(t, campaign, now);
    SilentWriteMirrorsExactly(t, t');
    forall id | id in t
      ensures t'[id] == t[id] <==> !Stale(campaign, now, t[id]) && !Exhausted(campaign, t[id])
    {
      assert SweepRow(campaign, now, t[id]) == t[id] <==> !Stale(campaign, now, t[id]) && !Exhausted(campaign, t[id]);
    }
    if forall id | id in t :: t'[id] == t[id] { assert t'.Keys == t.Keys; assert t' == t; }
  }
}
