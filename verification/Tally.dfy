/** Per-user totals of entries and their conservation. */
module Tally {
  import opened Attempts

  function TotalsOf(entries: seq<Entry>): Totals {
    if entries == [] then ZERO
    else Plus(TotalsOf(entries[..|entries| - 1]), entries[|entries| - 1].figures)
  }

  /** The entries of one user, in their order. */
  function Of(entries: seq<Entry>, user: string): seq<Entry> {
    if entries == [] then []
    else
      var rest, last := Of(entries[..|entries| - 1], user), entries[|entries| - 1];
      if last.user == user then rest + [last] else rest
  }

  predicate Distinct(users: seq<string>) {
    forall i, j | 0 <= i < j < |users| :: users[i] != users[j]
  }

  predicate Covers(users: seq<string>, entries: seq<Entry>) {
    forall i | 0 <= i < |entries| :: entries[i].user in users
  }

  function SumTotals(users: seq<string>, entries: seq<Entry>): Totals
    decreases |entries|, |users|
  {
    if users == [] then ZERO
    else Plus(SumTotals(users[..|users| - 1], entries), TotalsOf(Of(entries, users[|users| - 1])))
  }

  lemma TotalsOfAppend(entries: seq<Entry>, e: Entry)
    ensures TotalsOf(entries + [e]) == Plus(TotalsOf(entries), e.figures)
  {
    assert (entries + [e])[..|entries|] == entries;
  }

  lemma OfAppend(entries: seq<Entry>, e: Entry, user: string)
    ensures Of(entries + [e], user) == if e.user == user then Of(entries, user) + [e] else Of(entries, user)
  {
    assert (entries + [e])[..|entries|] == entries;
  }

  lemma {:induction false} OfMembers(entries: seq<Entry>, user: string, e: Entry)
    ensures e in Of(entries, user) <==> e in entries && e.user == user
  {
    if entries != [] {
      var n := |entries| - 1;
      OfMembers(entries[..n], user, e);
      assert entries == entries[..n] + [entries[n]];
    }
  }

  lemma {:induction false} OfSameUser(entries: seq<Entry>, user: string)
    requires forall i | 0 <= i < |entries| :: entries[i].user == user
    ensures Of(entries, user) == entries
  {
    if entries != [] {
      var n := |entries| - 1;
      OfSameUser(entries[..n], user);
      assert entries == entries[..n] + [entries[n]];
    }
  }

  /** One user's totals change by the new entry exactly when it is theirs. */
  lemma UserTotalsAppend(entries: seq<Entry>, e: Entry, user: string)
    ensures TotalsOf(Of(entries + [e], user))
         == if e.user == user then Plus(TotalsOf(Of(entries, user)), e.figures) else TotalsOf(Of(entries, user))
  {
    OfAppend(entries, e, user);
    if e.user == user {
      TotalsOfAppend(Of(entries, user), e);
    }
  }

  lemma PlusLast(x: Totals, y: Totals, z: Totals)
    ensures Plus(x, Plus(y, z)) == Plus(Plus(x, y), z) == Plus(Plus(x, z), y)
  {
  }

  lemma {:induction false} SumTotalsAppend(users: seq<string>, entries: seq<Entry>, more: seq<Entry>, e: Entry)
    requires Distinct(users) && more == entries + [e]
    ensures SumTotals(users, more)
         == if e.user in users then Plus(SumTotals(users, entries), e.figures) else SumTotals(users, entries)
    decreases |users|
  {
    if users != [] {
      var n, last := |users| - 1, users[|users| - 1];
      var front := users[..n];
      assert users == front + [last] && last !in front;
      SumTotalsAppend(front, entries, more, e);
      UserTotalsAppend(entries, e, last);
      PlusLast(SumTotals(front, entries), TotalsOf(Of(entries, last)), e.figures);
      if e.user == last {
        assert SumTotals(front, more) == SumTotals(front, entries);
      } else if e.user in front {
        assert e.user in users;
      }
    }
  }

  lemma {:induction false} SumOfNothing(users: seq<string>, entries: seq<Entry>)
    requires |entries| == 0
    ensures SumTotals(users, entries) == ZERO
    decreases |users|
  {
    if users == [] {
    } else {
      var front, last := users[..|users| - 1], users[|users| - 1];
      SumOfNothing(front, entries);
      assert TotalsOf(Of(entries, last)) == ZERO;
    }
  }

  /** Conservation: over any list naming each user once, the per-user totals add up to the whole. */
  lemma {:induction false} SumsToWhole(users: seq<string>, entries: seq<Entry>)
    requires Distinct(users) && Covers(users, entries)
    ensures SumTotals(users, entries) == TotalsOf(entries)
    decreases |entries|
  {
    if entries == [] {
      SumOfNothing(users, entries);
    } else {
      var n := |entries| - 1;
      var front, e := entries[..n], entries[n];
      assert front + [e] == entries;
      assert Covers(users, front) && e.user in users;
      SumsToWhole(users, front);
      SumTotalsAppend(users, front, entries, e);
      TotalsOfAppend(front, e);
    }
  }
}
