/** Call attempts and the figures read off each one. Times are milliseconds. */
module Attempts {
  import opened Prelude
  import opened Text

  datatype Call = Call(durationSeconds: nat, completed: bool, endTime: Option<int>)

  datatype Attempt = Attempt(
    user: Option<string>,
    created: int,
    answered: Option<int>,
    ended: Option<int>,
    disposition: string,
    calls: seq<Call>)

  const NON_CONNECT: set<string> :=
    {"no-answer", "failed", "busy", "canceled", "cancelled", "voicemail", "voicemail-no-message", "undelivered"}

  predicate HasUser(a: Attempt) {
    a.user.Some? && a.user.value != ""
  }

  predicate IsConnected(a: Attempt) {
    || a.answered.Some?
    || (a.disposition != "" && Lower(a.disposition) !in NON_CONNECT)
    || exists i :: 0 <= i < |a.calls| && a.calls[i].durationSeconds >= 3 && a.calls[i].completed
  }

  /** Rounded to the nearest second, never negative. */
  function SecondsBetween(start: int, end: Option<int>): nat {
    if end.None? || end.value <= start then 0 else (end.value - start + 500) / 1000
  }

  function CallSeconds(calls: seq<Call>): nat {
    if calls == [] then 0 else CallSeconds(calls[..|calls| - 1]) + calls[|calls| - 1].durationSeconds
  }

  function LatestEnd(calls: seq<Call>): Option<int> {
    if calls == [] then None
    else
      var rest, last := LatestEnd(calls[..|calls| - 1]), calls[|calls| - 1].endTime;
      if last.None? || (rest.Some? && rest.value >= last.value) then rest else last
  }

  datatype Metrics = Metrics(dialing: nat, connectedSeconds: nat, interface: nat, connected: bool)

  function AttemptMetrics(a: Attempt): Metrics {
    var connectedSeconds := CallSeconds(a.calls);
    var ended := if a.ended.Some? then a.ended else LatestEnd(a.calls);
    var dialing := SecondsBetween(a.created, if a.answered.Some? then a.answered else ended);
    var interface := SecondsBetween(a.created, if ended.Some? then ended else a.answered);
    Metrics(dialing, connectedSeconds, if interface > 0 then interface else dialing + connectedSeconds, IsConnected(a))
  }

  /** When the attempt stops occupying its user. */
  function EndOf(a: Attempt): int {
    if a.ended.Some? then a.ended.value else a.created + AttemptMetrics(a).interface * 1000
  }

  /** With no end of its own an attempt ends with the last of its calls that has one. */
  lemma {:induction false} LatestEndIsLatest(calls: seq<Call>)
    ensures LatestEnd(calls).None? <==> forall i | 0 <= i < |calls| :: calls[i].endTime.None?
    ensures LatestEnd(calls).Some? ==>
      && (exists i :: 0 <= i < |calls| && calls[i].endTime == LatestEnd(calls))
      && forall i | 0 <= i < |calls| :: calls[i].endTime.Some? ==> calls[i].endTime.value <= LatestEnd(calls).value
  {
    if calls != [] {
      var n := |calls| - 1;
      var front := calls[..n];
      LatestEndIsLatest(front);
      if LatestEnd(front).Some? {
        var i :| 0 <= i < |front| && front[i].endTime == LatestEnd(front);
        assert calls[i].endTime == LatestEnd(front);
      }
      forall i | 0 <= i < |calls| && calls[i].endTime.Some? ensures calls[i].endTime.value <= LatestEnd(calls).value {
        assert i < n ==> calls[i] == front[i];
      }
      assert forall i | 0 <= i < n :: front[i] == calls[i];
    }
  }

  /** Ringing is part of the time at the interface unless the answer comes after the end. */
  lemma DialingWithinInterface(a: Attempt)
    requires a.answered.Some? && a.ended.Some? ==> a.answered.value <= a.ended.value
    requires a.answered.Some? && a.ended.None? && LatestEnd(a.calls).Some? ==>
      a.answered.value <= LatestEnd(a.calls).value
    ensures AttemptMetrics(a).dialing <= AttemptMetrics(a).interface
  {
  }

  // ---------- what the reports read off an attempt ----------

  datatype Totals = Totals(dials: nat, connected: nat, dialing: nat, connectedSeconds: nat, interface: nat)

  const ZERO := Totals(0, 0, 0, 0, 0)

  function Plus(x: Totals, y: Totals): Totals {
    Totals(x.dials + y.dials, x.connected + y.connected, x.dialing + y.dialing,
           x.connectedSeconds + y.connectedSeconds, x.interface + y.interface)
  }

  datatype Entry = Entry(user: string, start: int, end: int, figures: Totals)

  function EntryOf(a: Attempt): Entry
    requires HasUser(a)
  {
    var m := AttemptMetrics(a);
    Entry(a.user.value, a.created, EndOf(a),
          Totals(1, if m.connected then 1 else 0, m.dialing, m.connectedSeconds, m.interface))
  }

  /** Attempts without a user take no part. */
  function Entries(attempts: seq<Attempt>): seq<Entry> {
    if attempts == [] then []
    else
      var rest, last := Entries(attempts[..|attempts| - 1]), attempts[|attempts| - 1];
      if HasUser(last) then rest + [EntryOf(last)] else rest
  }

  /** Unless it was ended before it was created, an attempt ends no earlier than it starts. */
  lemma EndNotBeforeStart(a: Attempt)
    ensures EndOf(a) >= a.created <==> a.ended.None? || a.ended.value >= a.created
  {
  }
}
