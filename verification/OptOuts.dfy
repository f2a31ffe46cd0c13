/**
 What an opt-out guarantees among all interleaved turns: a stopped contact is called only by a turn that
 had passed its opt-out guard before the STOP and dials after it.
 */
module OptOuts {
  import opened Prelude
  import opened QueueRows
  import opened AutoDial
  import opened DialProtocol

  /** The row's contact has opted out. */
  predicate Stopped(s: State, id: int) {
    id in s.rows && OptedOut(s.contacts, s.rows[id].contactId)
  }

  /** A live turn is past the guard with this row, and has not dialled. */
  predicate Committed(s: State, id: int) {
    exists u :: u in s.turns && s.turns[u] == Vetted(id)
  }

  // ---------- a stopped contact stays stopped ----------

  lemma RowKeepsContact(s: State, step: Step, id: int)
    requires Inv(s) && Enabled(s, step) && id in s.rows
    ensures id in Do(s, step).rows && Do(s, step).rows[id].contactId == s.rows[id].contactId
  {
    var bystander := if ActsFor(step, 0) then 1 else 0;
    OthersRowKept(s, step, bystander, id);
  }

  lemma StopKept(s: State, step: Step, id: int)
    requires Inv(s) && Enabled(s, step) && Stopped(s, id)
    ensures Stopped(Do(s, step), id)
  {
    RowKeepsContact(s, step, id);
  }

  /** Only a STOP of its contact stops a row. */
  lemma OnlyStopStops(s: State, step: Step, id: int)
    requires Inv(s) && Enabled(s, step) && id in s.rows && !Stopped(s, id) && Stopped(Do(s, step), id)
    ensures step.Stop? && step.contactId == s.rows[id].contactId
  {
    RowKeepsContact(s, step, id);
  }

  /** A STOP takes every row of the contact in the workspace out of the queue, whoever holds it, and no other. */
  lemma StopEndsRows(s: State, contactId: int, workspace: int, now: int, id: int)
    requires id in s.rows
    ensures var s' := Do(s, Stop(contactId, workspace, now));
      && id in s'.rows
      && (if s.rows[id].contactId == contactId && s.rows[id].workspace == workspace then
            s'.rows[id] == s.rows[id].(state := Some(Dequeued), assignee := None, providerStatus := None,
                                       dequeuedAt := Some(now), dequeuedBy := None,
                                       dequeuedReason := Some("Contact opted out via SMS"))
          else s'.rows[id] == s.rows[id])
      && (contactId in s.contacts ==> contactId in s'.contacts && s'.contacts[contactId].optOut)
  {
  }

  // ---------- nobody new calls a stopped contact ----------

  lemma StoppedNotCommitted(s: State, step: Step, id: int)
    requires Inv(s) && Enabled(s, step) && Stopped(s, id) && !Committed(s, id)
    ensures !Committed(Do(s, step), id) && Do(s, step).calls[id] == s.calls[id]
  {
    forall u | u in Do(s, step).turns ensures Do(s, step).turns[u] != Vetted(id) {
    }
  }

  /** While no turn is past its guard with a stopped row, no run places a call for it. */
  lemma {:induction false} StoppedNeverCalled(s: State, steps: seq<Step>, id: int)
    requires Inv(s) && Allowed(s, steps) && Stopped(s, id) && !Committed(s, id)
    ensures Run(s, steps).calls[id] == s.calls[id]
    decreases |steps|
  {
    if steps != [] {
      StepKeepsInv(s, steps[0]);
      StopKept(s, steps[0], id);
      StoppedNotCommitted(s, steps[0], id);
      StoppedNeverCalled(Do(s, steps[0]), steps[1..], id);
    }
  }

  ghost predicate CalledLater(s: State, id: int) {
    exists steps :: Allowed(s, steps) && Run(s, steps).calls[id] > s.calls[id]
  }

  /** Some run still places a call for a stopped row exactly when a turn is past its guard with it. */
  lemma StoppedCalledExactly(s: State, id: int)
    requires Inv(s) && Stopped(s, id)
    ensures CalledLater(s, id) <==> Committed(s, id)
  {
    if u :| u in s.turns && s.turns[u] == Vetted(id) {
      OneStep(s, Dial(u, Placed));
      assert Run(s, [Dial(u, Placed)]).calls[id] == s.calls[id] + 1;
    }
    if CalledLater(s, id) && !Committed(s, id) {
      var steps :| Allowed(s, steps) && Run(s, steps).calls[id] > s.calls[id];
      StoppedNeverCalled(s, steps, id);
    }
  }

  // ---------- the STOP came between the guard and the dial ----------

  lemma {:induction false} SplitRun(s: State, steps: seq<Step>, n: nat)
    requires Allowed(s, steps) && n <= |steps|
    ensures Allowed(s, steps[..n]) && Allowed(Run(s, steps[..n]), steps[n..])
    ensures Run(Run(s, steps[..n]), steps[n..]) == Run(s, steps)
    decreases n
  {
    if n == 0 {
      assert steps[0..] == steps && steps[..0] == [];
    } else {
      SplitRun(Do(s, steps[0]), steps[1..], n - 1);
      assert steps[..n][1..] == steps[1..][..n - 1] && steps[..n][0] == steps[0];
      assert steps[1..][n - 1..] == steps[n..];
    }
  }

  /** A run step by step from its end: the last step is taken where the others lead. */
  lemma LastStep(s: State, steps: seq<Step>)
    requires Allowed(s, steps) && steps != []
    ensures var n := |steps| - 1;
      && Allowed(s, steps[..n]) && Enabled(Run(s, steps[..n]), steps[n])
      && Run(s, steps) == Do(Run(s, steps[..n]), steps[n])
  {
    var n := |steps| - 1;
    SplitRun(s, steps, n);
    var last := steps[n..];
    assert last[0] == steps[n] && last[1..] == [];
  }

  /** The agent's guard let the row through at this step: its contact was not stopped then. */
  ghost predicate VetsAt(s: State, steps: seq<Step>, j: nat, user: int, id: int) {
    && j < |steps| && steps[j].Vet? && steps[j].user == user
    && Allowed(s, steps[..j])
    && var before := Run(s, steps[..j]);
       user in before.turns && before.turns[user] == Fresh(id) && !Stopped(before, id)
  }

  lemma OnlyVetVets(s: State, step: Step, user: int, id: int)
    requires Inv(s) && Enabled(s, step) && user in Do(s, step).turns && Do(s, step).turns[user] == Vetted(id)
    requires !(user in s.turns && s.turns[user] == Vetted(id))
    ensures step.Vet? && step.user == user && user in s.turns && s.turns[user] == Fresh(id) && !Stopped(s, id)
  {
  }

  lemma {:induction false} VetFound(s: State, steps: seq<Step>, user: int, id: int) returns (j: nat)
    requires Initial(s) && Allowed(s, steps)
    requires user in Run(s, steps).turns && Run(s, steps).turns[user] == Vetted(id)
    ensures VetsAt(s, steps, j, user, id)
    decreases |steps|
  {
    var n := |steps| - 1;
    LastStep(s, steps);
    var before := Run(s, steps[..n]);
    InitialInv(s);
    RunKeepsInv(s, steps[..n]);
    if user in before.turns && before.turns[user] == Vetted(id) {
      j := VetFound(s, steps[..n], user, id);
      assert steps[..n][..j] == steps[..j];
    } else {
      OnlyVetVets(before, steps[n], user, id);
      j := n;
    }
  }

  lemma {:induction false} StopFound(s: State, steps: seq<Step>, id: int) returns (i: nat)
    requires Inv(s) && Allowed(s, steps) && id in s.rows && !Stopped(s, id) && Stopped(Run(s, steps), id)
    ensures i < |steps| && steps[i].Stop? && steps[i].contactId == s.rows[id].contactId
    decreases |steps|
  {
    var s1 := Do(s, steps[0]);
    StepKeepsInv(s, steps[0]);
    RowKeepsContact(s, steps[0], id);
    if Stopped(s1, id) {
      OnlyStopStops(s, steps[0], id);
      i := 0;
    } else {
      var k := StopFound(s1, steps[1..], id);
      i := k + 1;
    }
  }

  /**
   A turn about to dial a stopped contact passed its guard when the contact was not stopped, and the STOP came
   after that: that is the only way a stopped contact is called.
   */
  lemma StopCameAfterGuard(s: State, steps: seq<Step>, user: int, id: int) returns (guard: nat, stop: nat)
    requires Initial(s) && Allowed(s, steps) && Stopped(Run(s, steps), id)
    requires user in Run(s, steps).turns && Run(s, steps).turns[user] == Vetted(id)
    ensures VetsAt(s, steps, guard, user, id)
    ensures guard < stop < |steps| && steps[stop].Stop?
    ensures id in s.rows && steps[stop].contactId == s.rows[id].contactId
  {
    guard := VetFound(s, steps, user, id);
    SplitRun(s, steps, guard);
    InitialInv(s);
    RunKeepsInv(s, steps[..guard]);
    var before := Run(s, steps[..guard]);
    RunKeepsContact(s, steps[..guard], id);
    var k := StopBehind(before, steps, guard, id);
    stop := guard + k;
  }

  /** The STOP is not the guard's own step. */
  lemma StopBehind(before: State, steps: seq<Step>, guard: nat, id: int) returns (k: nat)
    requires Inv(before) && guard < |steps| && steps[guard].Vet? && Allowed(before, steps[guard..])
    requires id in before.rows && !Stopped(before, id) && Stopped(Run(before, steps[guard..]), id)
    ensures 0 < k && guard + k < |steps| && steps[guard + k].Stop?
    ensures steps[guard + k].contactId == before.rows[id].contactId
  {
    k := StopFound(before, steps[guard..], id);
    assert steps[guard..][k] == steps[guard + k];
  }

  lemma StepKeepsKeys(s: State, step: Step)
    requires Inv(s) && Enabled(s, step)
    ensures Do(s, step).rows.Keys == s.rows.Keys
  {
  }

  lemma {:induction false} RunKeepsContact(s: State, steps: seq<Step>, id: int)
    requires Inv(s) && Allowed(s, steps)
    ensures id in Run(s, steps).rows <==> id in s.rows
    ensures id in s.rows ==> Run(s, steps).rows[id].contactId == s.rows[id].contactId
    decreases |steps|
  {
    if steps != [] {
      StepKeepsInv(s, steps[0]);
      if id in s.rows {
        RowKeepsContact(s, steps[0], id);
      }
      StepKeepsKeys(s, steps[0]);
      RunKeepsContact(Do(s, steps[0]), steps[1..], id);
    }
  }
}
