/**
 All dialer turns together: a step system over the queue table in which any number of agents claim,
 release, dial and write back in any order, while stale-claim sweeps, manual releases, dying turns and
 inbound STOPs touch the same rows. Every step is one database statement or one carrier request.
 */
module DialProtocol {
  import opened Prelude
  import opened QueueRows
  import opened AutoDial

  /** Where an agent's live turn stands with the row it claimed. */
  datatype Phase =
    | Fresh(id: int)                          // claimed, opt-out not yet read
    | Vetted(id: int)                         // past the opt-out guard, not dialled
    | Landed(id: int, outcome: DialOutcome)   // the carrier answered, write still to come

  /** `calls` counts the possibly-live calls placed for each row. */
  datatype State = State(rows: Table, contacts: Contacts, turns: map<int, Phase>, calls: multiset<int>)

  datatype Step =
    | ClaimRowFor(user: int, campaign: int, now: int, id: int)
    | Vet(user: int, now: int)
    | Release(user: int)
    | Dial(user: int, outcome: DialOutcome)
    | WriteBack(user: int, now: int)
    | Die(user: int)
    | SweepCampaign(campaign: int, now: int)
    | ReleaseClaimsOf(user: int, campaign: int)
    | Stop(contactId: int, workspace: int, now: int)
    | Reclaim(id: int)                        // a sweep or release taking one claim, whoever stands on it

  predicate WorkedOn(s: State, id: int) {
    exists u :: u in s.turns && s.turns[u].id == id
  }

  predicate ReleasedFor(user: int, campaign: int, r: Row) {
    r.campaignId == campaign && r.dequeuedAt.None? && r.assignee == Some(user)
  }

  /**
   Sweeps and manual releases are taken to hit only claims whose turn is dead; exhausted rows may be
   failed at any time. Reclaim is the unrestricted release and is not part of an ordinary run.
   */
  predicate Enabled(s: State, step: Step) {
    match step
    case ClaimRowFor(user, campaign, now, id) =>
      user !in s.turns && id in s.rows && Claimable(s.contacts, campaign, s.rows[id])
    case Vet(user, _) => user in s.turns && s.turns[user].Fresh? && s.turns[user].id in s.rows
    case Release(user) => user in s.turns && s.turns[user].Vetted? && s.turns[user].id in s.rows
    case Dial(user, _) => user in s.turns && s.turns[user].Vetted?
    case WriteBack(user, _) => user in s.turns && s.turns[user].Landed? && s.turns[user].id in s.rows
    case Die(user) => user in s.turns && !s.turns[user].Landed?
    case SweepCampaign(campaign, now) =>
      forall id | id in s.rows && Stale(campaign, now, s.rows[id]) :: !WorkedOn(s, id)
    case ReleaseClaimsOf(user, campaign) =>
      forall id | id in s.rows && ReleasedFor(user, campaign, s.rows[id]) :: !WorkedOn(s, id)
    case Stop(_, _, _) => true
    case Reclaim(_) => false
  }

  ghost function ReleaseRow(s: State, id: int): Table {
    UpdateWhere(s.rows, ById(id, None), ToQueued)
  }

  ghost function Do(s: State, step: Step): State
    requires Enabled(s, step) || (step.Reclaim? && step.id in s.rows)
  {
    match step
    case ClaimRowFor(user, campaign, now, id) =>
      s.(rows := Claim(s.rows, id, user, now), turns := s.turns[user := Fresh(id)])
    case Vet(user, now) =>
      var id := s.turns[user].id;
      if OptedOut(s.contacts, s.rows[id].contactId) then
        s.(rows := UpdateWhere(s.rows, ById(id, None), ToDequeued(now, Some(user), Some("Contact opted out"))),
           turns := s.turns - {user})
      else s.(turns := s.turns[user := Vetted(id)])
    case Release(user) =>
      s.(rows := ReleaseRow(s, s.turns[user].id), turns := s.turns - {user})
    case Dial(user, outcome) =>
      var id := s.turns[user].id;
      s.(turns := s.turns[user := Landed(id, outcome)],
         calls := if outcome.Rejected? then s.calls else s.calls + multiset{id})
    case WriteBack(user, now) =>
      var id, outcome := s.turns[user].id, s.turns[user].outcome;
      var rows := match outcome
        case Rejected => ReleaseRow(s, id)
        case Ambiguous => DequeueContact(s.rows, s.contacts, s.rows[id].contactId, false, s.rows[id].workspace,
          Some(user), Some(PARKED_REASON), now)
        case Placed => DequeueContact(s.rows, s.contacts, s.rows[id].contactId, true, s.rows[id].workspace, Some(user),
          Some(CALLED_REASON), now);
      s.(rows := rows, turns := s.turns - {user})
    case Die(user) => s.(turns := s.turns - {user})
    case SweepCampaign(campaign, now) => s.(rows := Sweep(s.rows, campaign, now))
    case ReleaseClaimsOf(user, campaign) =>
      s.(rows := map id | id in s.rows ::
        if ReleasedFor(user, campaign, s.rows[id]) then Apply(ToQueued, s.rows[id]) else s.rows[id])
    case Stop(contactId, workspace, now) =>
      s.(rows := UpdateWhere(s.rows, ByContact(contactId, None, Some(workspace)),
                             ToDequeued(now, None, Some("Contact opted out via SMS"))),
         contacts := if contactId in s.contacts
           then s.contacts[contactId := s.contacts[contactId].(optOut := true)] else s.contacts)
    case Reclaim(id) => s.(rows := s.rows[id := ReclaimRow(s.rows[id])])
  }

  ghost predicate Allowed(s: State, steps: seq<Step>)
    decreases |steps|
  {
    steps == [] || (Enabled(s, steps[0]) && Allowed(Do(s, steps[0]), steps[1..]))
  }

  ghost function Run(s: State, steps: seq<Step>): State
    requires Allowed(s, steps)
    decreases |steps|
  {
    if steps == [] then s else Run(Do(s, steps[0]), steps[1..])
  }

  // ---------- the invariant ----------

  ghost predicate TurnsStandOnTheirRows(s: State) {
    forall u | u in s.turns ::
      s.turns[u].id in s.rows && (s.turns[u].id in HeldBy(s.rows, u) || s.rows[s.turns[u].id].dequeuedAt.Some?)
  }

  ghost predicate OneTurnPerRow(s: State) {
    forall u, v | u in s.turns && v in s.turns && u != v :: s.turns[u].id != s.turns[v].id
  }

  predicate MayBeLive(p: Phase) {
    p.Landed? && !p.outcome.Rejected?
  }

  /** Every call belongs to a row that is finished or whose turn is about to finish it. */
  ghost predicate CallsAccountedFor(s: State) {
    && (forall id :: s.calls[id] <= 1)
    && (forall u | u in s.turns :: s.calls[s.turns[u].id] == if MayBeLive(s.turns[u]) then 1 else 0)
    && (forall id | id in s.calls :: id in s.rows && (WorkedOn(s, id) || s.rows[id].dequeuedAt.Some?))
  }

  ghost predicate Inv(s: State) {
    && Keyed(s.rows) && AllShaped(s.rows)
    && TurnsStandOnTheirRows(s) && OneTurnPerRow(s) && CallsAccountedFor(s)
  }

  ghost predicate Initial(s: State) {
    Keyed(s.rows) && AllShaped(s.rows) && s.turns == map[] && s.calls == multiset{}
  }

  ghost predicate Safe(s: State) {
    forall id :: s.calls[id] <= 1
  }

  lemma InitialInv(s: State)
    requires Initial(s)
    ensures Inv(s)
  {
  }

  // ---------- steps keep it ----------

  /** What a step leaves of the rows other turns stand on. */
  ghost predicate OthersKept(s: State, t': Table, self: int) {
    && t'.Keys == s.rows.Keys
    && forall u | u in s.turns && u != self ::
        s.turns[u].id in t' && (s.turns[u].id in HeldBy(t', u) || t'[s.turns[u].id].dequeuedAt.Some?)
  }

  /** No row with a possibly-live call comes back unfinished once its turn has left it. */
  ghost predicate CalledRowsStayFinished(s: State, t': Table) {
    forall id | id in s.calls && id in s.rows && s.rows[id].dequeuedAt.Some? :: id in t' && t'[id].dequeuedAt.Some?
  }

  lemma ClaimKeepsInv(s: State, step: Step)
    requires Inv(s) && step.ClaimRowFor? && Enabled(s, step)
    ensures Inv(Do(s, step))
  {
    var s' := Do(s, step);
    var id := step.id;
    assert !WorkedOn(s, id);
    assert id !in s.calls;
    forall other | other in s'.calls ensures WorkedOn(s', other) || s'.rows[other].dequeuedAt.Some? {
      if WorkedOn(s, other) {
        var u :| u in s.turns && s.turns[u].id == other;
        assert u in s'.turns && s'.turns[u].id == other;
      }
    }
  }

  lemma LeaveKeepsInv(s: State, s': State, user: int)
    requires Inv(s) && user in s.turns
    requires s'.turns == s.turns - {user} && s'.calls == s.calls
    requires Keyed(s'.rows) && AllShaped(s'.rows)
    requires OthersKept(s, s'.rows, user) && CalledRowsStayFinished(s, s'.rows)
    requires MayBeLive(s.turns[user]) ==> s'.rows[s.turns[user].id].dequeuedAt.Some?
    ensures Inv(s')
  {
    forall id | id in s'.calls ensures id in s'.rows && (WorkedOn(s', id) || s'.rows[id].dequeuedAt.Some?) {
      if WorkedOn(s, id) {
        var u :| u in s.turns && s.turns[u].id == id;
        if u != user { assert u in s'.turns && s'.turns[u].id == id; }
      }
    }
  }

  lemma ReleaseKeepsOthers(s: State, user: int)
    requires Inv(s) && user in s.turns && !MayBeLive(s.turns[user])
    ensures var t' := ReleaseRow(s, s.turns[user].id);
      Keyed(t') && AllShaped(t') && OthersKept(s, t', user) && CalledRowsStayFinished(s, t')
  {
    var id := s.turns[user].id;
    ByIdTouches(s.rows, id, ToQueued);
    assert id !in s.calls;
  }

  lemma ByIdTouches(t: Table, id: int, u: Update)
    requires Keyed(t)
    ensures var t' := UpdateWhere(t, ById(id, None), u);
      && t'.Keys == t.Keys
      && (forall other | other in t && other != id :: t'[other] == t[other])
      && (id in t ==> t'[id] == Apply(u, t[id]))
  {
  }

  /** A guarded dequeue by a turn leaves every row other turns stand on, and finishes its own. */
  lemma GuardedDequeueRow(s: State, user: int, household: bool, reason: string, now: int, id: int)
    requires Inv(s) && user in s.turns && id in s.rows
    ensures var own := s.turns[user].id;
      var t' := DequeueContact(s.rows, s.contacts, s.rows[own].contactId, household, s.rows[own].workspace,
                               Some(user), Some(reason), now);
      && id in t' && t'[id].id == s.rows[id].id && Shaped(t'[id])
      && (s.rows[id].dequeuedAt.Some? ==> t'[id].dequeuedAt.Some?)
      && (id == own ==> t'[id].dequeuedAt.Some?)
      && (forall u | u != user && id in HeldBy(s.rows, u) :: id in HeldBy(t', u))
  {
    var own := s.turns[user].id;
    DequeueContactChanges(s.rows, s.contacts, s.rows[own].contactId, household, s.rows[own].workspace,
                          Some(user), Some(reason), now);
  }

  lemma WriteBackKeepsOthers(s: State, user: int, household: bool, reason: string, now: int)
    requires Inv(s) && user in s.turns && MayBeLive(s.turns[user])
    ensures var id := s.turns[user].id;
      var t' := DequeueContact(s.rows, s.contacts, s.rows[id].contactId, household, s.rows[id].workspace,
                               Some(user), Some(reason), now);
      && Keyed(t') && AllShaped(t') && OthersKept(s, t', user) && CalledRowsStayFinished(s, t')
      && t'[id].dequeuedAt.Some?
  {
    var own := s.turns[user].id;
    var t' := DequeueContact(s.rows, s.contacts, s.rows[own].contactId, household, s.rows[own].workspace,
                             Some(user), Some(reason), now);
    assert t'.Keys == s.rows.Keys;
    forall id | id in s.rows
      ensures t'[id].id == id && Shaped(t'[id])
      ensures s.rows[id].dequeuedAt.Some? || id == own ==> t'[id].dequeuedAt.Some?
      ensures forall u | u != user && id in HeldBy(s.rows, u) :: id in HeldBy(t', u)
    {
      GuardedDequeueRow(s, user, household, reason, now, id);
    }
  }

  /** A turn that goes on with its row, and places no call with that. */
  lemma GoingOnKeepsInv(s: State, s': State, user: int, phase: Phase)
    requires Inv(s) && user in s.turns && phase.id == s.turns[user].id
    requires !MayBeLive(s.turns[user]) && !MayBeLive(phase)
    requires s'.rows == s.rows && s'.calls == s.calls && s'.turns == s.turns[user := phase]
    ensures Inv(s')
  {
    assert forall u | u in s.turns :: u in s'.turns && s'.turns[u].id == s.turns[u].id;
    forall id | id in s'.calls ensures id in s'.rows && (WorkedOn(s', id) || s'.rows[id].dequeuedAt.Some?) {
      if WorkedOn(s, id) {
        var u :| u in s.turns && s.turns[u].id == id;
        assert s'.turns[u].id == id;
      }
    }
  }

  lemma OptOutKeepsInv(s: State, step: Step)
    requires Inv(s) && step.Vet? && Enabled(s, step)
    requires OptedOut(s.contacts, s.rows[s.turns[step.user].id].contactId)
    ensures Inv(Do(s, step))
  {
    ByIdTouches(s.rows, s.turns[step.user].id, ToDequeued(step.now, Some(step.user), Some("Contact opted out")));
    LeaveKeepsInv(s, Do(s, step), step.user);
  }

  lemma VetKeepsInv(s: State, step: Step)
    requires Inv(s) && step.Vet? && Enabled(s, step)
    ensures Inv(Do(s, step))
  {
    var id := s.turns[step.user].id;
    if OptedOut(s.contacts, s.rows[id].contactId) {
      OptOutKeepsInv(s, step);
    } else {
      GoingOnKeepsInv(s, Do(s, step), step.user, Vetted(id));
    }
  }

  lemma WriteBackKeepsInv(s: State, step: Step)
    requires Inv(s) && step.WriteBack? && Enabled(s, step)
    ensures Inv(Do(s, step))
  {
    var user := step.user;
    if s.turns[user].outcome.Rejected? {
      ReleaseKeepsOthers(s, user);
    } else if s.turns[user].outcome.Ambiguous? {
      WriteBackKeepsOthers(s, user, false, PARKED_REASON, step.now);
    } else {
      WriteBackKeepsOthers(s, user, true, CALLED_REASON, step.now);
    }
    LeaveKeepsInv(s, Do(s, step), user);
  }

  lemma DialKeepsInv(s: State, step: Step)
    requires Inv(s) && step.Dial? && Enabled(s, step)
    ensures Inv(Do(s, step))
  {
    var s' := Do(s, step);
    assert forall u | u in s.turns :: u in s'.turns && s'.turns[u].id == s.turns[u].id;
    forall id | id in s'.calls ensures id in s'.rows && (WorkedOn(s', id) || s'.rows[id].dequeuedAt.Some?) {
      if id == s.turns[step.user].id {
        assert s'.turns[step.user].id == id;
      } else if WorkedOn(s, id) {
        var u :| u in s.turns && s.turns[u].id == id;
        assert s'.turns[u].id == id;
      }
    }
  }

  /** Sweeps, manual releases and STOPs touch no turn's bookkeeping. */
  lemma OutsideKeepsInv(s: State, s': State)
    requires Inv(s) && s'.turns == s.turns && s'.calls == s.calls
    requires Keyed(s'.rows) && AllShaped(s'.rows) && s'.rows.Keys == s.rows.Keys
    requires forall u | u in s.turns ::
      s.turns[u].id in HeldBy(s.rows, u) ==>
        s.turns[u].id in HeldBy(s'.rows, u) || s'.rows[s.turns[u].id].dequeuedAt.Some?
    requires forall id | id in s.rows && s.rows[id].dequeuedAt.Some? :: s'.rows[id].dequeuedAt.Some?
    ensures Inv(s')
  {
    forall id | id in s'.calls ensures id in s'.rows && (WorkedOn(s', id) || s'.rows[id].dequeuedAt.Some?) {
      if WorkedOn(s, id) {
        var u :| u in s.turns && s.turns[u].id == id;
        assert s'.turns[u].id == id;
      }
    }
  }

  lemma OutsideStepKeepsInv(s: State, step: Step)
    requires Inv(s) && Enabled(s, step)
    requires step.SweepCampaign? || step.ReleaseClaimsOf? || step.Stop?
    ensures Inv(Do(s, step))
  {
    var s' := Do(s, step);
    forall id | id in s.rows
      ensures Shaped(s'.rows[id])
      ensures s.rows[id].dequeuedAt.Some? ==> s'.rows[id].dequeuedAt.Some?
      ensures s'.rows[id].id == s.rows[id].id
      ensures WorkedOn(s, id) ==> s'.rows[id] == s.rows[id] || s'.rows[id].dequeuedAt.Some?
    {
    }
    forall u | u in s.turns && s.turns[u].id in HeldBy(s.rows, u)
      ensures s.turns[u].id in HeldBy(s'.rows, u) || s'.rows[s.turns[u].id].dequeuedAt.Some?
    {
      assert WorkedOn(s, s.turns[u].id);
    }
    OutsideKeepsInv(s, s');
  }

  lemma StepKeepsInv(s: State, step: Step)
    requires Inv(s) && Enabled(s, step)
    ensures Inv(Do(s, step))
  {
    match step
    case ClaimRowFor(_, _, _, _) => ClaimKeepsInv(s, step);
    case Dial(_, _) => DialKeepsInv(s, step);
    case SweepCampaign(_, _) => OutsideStepKeepsInv(s, step);
    case ReleaseClaimsOf(_, _) => OutsideStepKeepsInv(s, step);
    case Stop(_, _, _) => OutsideStepKeepsInv(s, step);
    case Vet(_, _) => VetKeepsInv(s, step);
    case WriteBack(_, _) => WriteBackKeepsInv(s, step);
    case Release(user) =>
      ReleaseKeepsOthers(s, user);
      LeaveKeepsInv(s, Do(s, step), user);
    case Die(user) => LeaveKeepsInv(s, Do(s, step), user);
  }

  lemma {:induction false} RunKeepsInv(s: State, steps: seq<Step>)
    requires Inv(s) && Allowed(s, steps)
    ensures Inv(Run(s, steps))
    decreases |steps|
  {
    if steps != [] {
      StepKeepsInv(s, steps[0]);
      RunKeepsInv(Do(s, steps[0]), steps[1..]);
    }
  }

  /**
   In every interleaving each queue row gets at most one possibly-live call, and once no turn stands
   on a called row it is finished: an accepted or ambiguous dial always ends dequeued.
   */
  lemma AtMostOneLiveCall(s: State, steps: seq<Step>, id: int)
    requires Initial(s) && Allowed(s, steps)
    ensures var s' := Run(s, steps);
      && s'.calls[id] <= 1
      && (s'.calls[id] == 1 && !WorkedOn(s', id) ==> id in s'.rows && s'.rows[id].dequeuedAt.Some?)
  {
    InitialInv(s);
    RunKeepsInv(s, steps);
  }

  /**
   A row comes back to the queue only from its own turn's release or definite rejection, or from a
   sweep or manual release of a claim nobody stands on; either way no call was placed for it.
   */
  lemma ReturnsToQueueWithoutCall(s: State, step: Step, id: int)
    requires Inv(s) && Enabled(s, step) && id in s.rows
    requires !Unclaimed(s.rows[id]) && Unclaimed(Do(s, step).rows[id])
    ensures id !in Do(s, step).calls
    ensures
      || (step.Release? && s.turns[step.user] == Vetted(id))
      || (step.WriteBack? && s.turns[step.user] == Landed(id, Rejected))
      || ((step.SweepCampaign? || step.ReleaseClaimsOf?) && !WorkedOn(s, id))
  {
    var s' := Do(s, step);
    if step.WriteBack? {
      WriteBackChanges(s, step, id);
    } else if step.Vet? {
      ByIdTouches(s.rows, s.turns[step.user].id, ToDequeued(step.now, Some(step.user), Some("Contact opted out")));
    } else if step.Release? {
      ByIdTouches(s.rows, s.turns[step.user].id, ToQueued);
    }
  }

  /** A manual release frees exactly the user's live claims of the campaign. */
  lemma ReleaseFreesClaims(s: State, user: int, campaign: int, id: int)
    requires Enabled(s, ReleaseClaimsOf(user, campaign)) && id in s.rows
    ensures var r, r' := s.rows[id], Do(s, ReleaseClaimsOf(user, campaign)).rows[id];
      if r.campaignId == campaign && r.dequeuedAt == None && r.assignee == Some(user) then
        r'.state == Some(Queued) && r'.assignee == None && r'.attemptCount == r.attemptCount
      else r' == r
  {
  }

  // ---------- what one turn may rely on ----------

  ghost function RowOf(s: State, user: int): Option<int> {
    if user in s.turns then Some(s.turns[user].id) else None
  }

  predicate ActsFor(step: Step, user: int) {
    match step
    case ClaimRowFor(u, _, _, _) => u == user
    case Vet(u, _) => u == user
    case Release(u) => u == user
    case Dial(u, _) => u == user
    case WriteBack(u, _) => u == user
    case Die(u) => u == user
    case _ => false
  }

  lemma WriteBackChanges(s: State, step: Step, id: int)
    requires Inv(s) && step.WriteBack? && Enabled(s, step) && id in s.rows
    ensures var s', u := Do(s, step), step.user;
      && id in s'.rows
      && (if s.turns[u].outcome.Rejected? then
            s'.rows[id] == if id == s.turns[u].id then Apply(ToQueued, s.rows[id]) else s.rows[id]
          else
            s'.rows[id] == s.rows[id] || (Guard(Some(u), s.rows[id]) && s'.rows[id].state == Some(Dequeued)
              && s'.rows[id].contactId == s.rows[id].contactId && s'.rows[id].campaignId == s.rows[id].campaignId
              && s'.rows[id].workspace == s.rows[id].workspace))
  {
    var u := step.user;
    var own, outcome := s.turns[u].id, s.turns[u].outcome;
    if outcome.Rejected? {
      ByIdTouches(s.rows, own, ToQueued);
    } else {
      DequeueContactChanges(s.rows, s.contacts, s.rows[own].contactId, outcome.Placed?, s.rows[own].workspace, Some(u),
                            Some(if outcome.Placed? then CALLED_REASON else PARKED_REASON), step.now);
    }
  }

  /** Row by row: a step is the only way to gain a claim, and only for its own agent; identity never changes. */
  lemma OthersRowKept(s: State, step: Step, user: int, id: int)
    requires Inv(s) && Enabled(s, step) && !ActsFor(step, user) && id in s.rows
    ensures var s' := Do(s, step);
      && id in s'.rows
      && (id in HeldBy(s'.rows, user) ==> id in HeldBy(s.rows, user))
      && s'.rows[id].contactId == s.rows[id].contactId && s'.rows[id].campaignId == s.rows[id].campaignId
      && s'.rows[id].workspace == s.rows[id].workspace
  {
    if step.WriteBack? {
      WriteBackChanges(s, step, id);
    } else if step.Vet? {
      ByIdTouches(s.rows, s.turns[step.user].id, ToDequeued(step.now, Some(step.user), Some("Contact opted out")));
    } else if step.Release? {
      ByIdTouches(s.rows, s.turns[step.user].id, ToQueued);
    }
  }

  /** Every step that is not the agent's own stays within the interference its turn was proved under. */
  lemma OthersMeetRely(s: State, step: Step, user: int)
    requires Inv(s) && Enabled(s, step) && !ActsFor(step, user)
    ensures Rely(s.rows, Do(s, step).rows, user, RowOf(s, user))
  {
    var s' := Do(s, step);
    StepKeepsInv(s, step);
    forall id | id in s.rows
      ensures id in s'.rows
      ensures id in HeldBy(s'.rows, user) ==> id in HeldBy(s.rows, user)
      ensures s'.rows[id].contactId == s.rows[id].contactId && s'.rows[id].campaignId == s.rows[id].campaignId
      ensures s'.rows[id].workspace == s.rows[id].workspace
    {
      OthersRowKept(s, step, user, id);
    }
    assert s'.rows.Keys == s.rows.Keys;
    if user in s.turns {
      assert user in s'.turns && s'.turns[user].id == s.turns[user].id;
    }
  }

  // ---------- the restriction on sweeps is exact ----------

  lemma NewUser(s: set<int>) returns (u: int)
    ensures u !in s
    decreases |s|
  {
    var top := UpperBound(s);
    u := top + 1;
  }

  lemma {:induction false} UpperBound(s: set<int>) returns (top: int)
    ensures forall x | x in s :: x <= top
    decreases |s|
  {
    top := 0;
    if s != {} {
      var x := SomeMember(s);
      var rest := UpperBound(s - {x});
      top := if x > rest then x else rest;
      assert forall y | y in s && y != x :: y in s - {x};
    }
  }

  ghost predicate SafeForever(s: State) {
    forall steps :: Allowed(s, steps) ==> Safe(Run(s, steps))
  }

  /** Two fresh steps by an idle agent: claim the row, pass the guard; then dial it. */
  lemma OutsiderReaches(s: State, id: int, v: int) returns (steps: seq<Step>)
    requires Keyed(s.rows) && id in s.rows && v !in s.turns
    requires Unclaimed(s.rows[id]) && s.rows[id].dequeuedAt.None?
    requires HasPhone(s.contacts, s.rows[id].contactId) && !OptedOut(s.contacts, s.rows[id].contactId)
    ensures Allowed(s, steps)
    ensures var s' := Run(s, steps);
      && s'.turns == s.turns[v := Landed(id, Placed)] && s'.calls == s.calls + multiset{id}
      && s'.rows == Claim(s.rows, id, v, 0) && s'.contacts == s.contacts
  {
    var c := ClaimRowFor(v, s.rows[id].campaignId, 0, id);
    var s1 := Do(s, c);
    var s2 := Do(s1, Vet(v, 0));
    var s3 := Do(s2, Dial(v, Placed));
    assert s3.turns == s.turns[v := Landed(id, Placed)];
    var d := [Dial(v, Placed)];
    var vd := [Vet(v, 0)] + d;
    steps := [c] + vd;
    assert d[1..] == [] && vd[1..] == d && steps[1..] == vd;
    assert Allowed(s3, []) && Run(s3, []) == s3;
    assert Allowed(s2, d) && Run(s2, d) == s3;
    assert Allowed(s1, vd) && Run(s1, vd) == s3;
    assert Enabled(s, c);
    assert Allowed(s, steps) && Run(s, steps) == s3;
  }

  lemma {:induction false} RunsConcatenate(s: State, a: seq<Step>, b: seq<Step>)
    requires Allowed(s, a) && Allowed(Run(s, a), b)
    ensures Allowed(s, a + b) && Run(s, a + b) == Run(Run(s, a), b)
    decreases |a|
  {
    if a == [] {
      assert a + b == b;
    } else {
      assert (a + b)[1..] == a[1..] + b;
      RunsConcatenate(Do(s, a[0]), a[1..], b);
    }
  }

  lemma OneStep(s: State, step: Step)
    requires Enabled(s, step)
    ensures Allowed(s, [step]) && Run(s, [step]) == Do(s, step)
  {
    assert [step][1..] == [];
    assert Run(Do(s, step), [][..]) == Do(s, step);
  }

  ghost predicate CanCall(s: State, id: int) {
    id in s.rows && HasPhone(s.contacts, s.rows[id].contactId) && !OptedOut(s.contacts, s.rows[id].contactId)
  }

  lemma RejectedTurnStillReleases(s: State, id: int, u: int) returns (steps: seq<Step>)
    requires Keyed(s.rows) && CanCall(s, id) && u in s.turns && s.turns[u] == Landed(id, Rejected)
    ensures Allowed(s, steps)
    ensures Run(s, steps).calls[id] == s.calls[id] + 1
  {
    OneStep(s, WriteBack(u, 0));
    var s2 := Do(s, WriteBack(u, 0));
    ByIdTouches(s.rows, id, ToQueued);
    var w := NewUser(s2.turns.Keys);
    var more := OutsiderReaches(s2, id, w);
    RunsConcatenate(s, [WriteBack(u, 0)], more);
    steps := [WriteBack(u, 0)] + more;
  }

  lemma PendingTurnStillDials(s: State, id: int, u: int) returns (steps: seq<Step>)
    requires CanCall(s, id) && u in s.turns && s.turns[u].id == id && !s.turns[u].Landed?
    ensures Allowed(s, steps)
    ensures Run(s, steps).calls[id] == s.calls[id] + 1
  {
    steps := [Dial(u, Placed)];
    if s.turns[u].Fresh? {
      var s2 := Do(s, Vet(u, 0));
      OneStep(s, Vet(u, 0));
      OneStep(s2, Dial(u, Placed));
      RunsConcatenate(s, [Vet(u, 0)], [Dial(u, Placed)]);
      steps := [Vet(u, 0)] + [Dial(u, Placed)];
    } else {
      OneStep(s, Dial(u, Placed));
    }
  }

  /** Any turn standing on a reclaimed row, at whatever stage, can end with a second call on it. */
  lemma StolenRowIsCalledTwice(s: State, id: int, u: int)
    requires Inv(s) && u in s.turns && s.turns[u].id == id && CanCall(s, id)
    requires s.rows[id].state == Some(Assigned) && s.rows[id].dequeuedAt.None?
    ensures !SafeForever(Do(s, Reclaim(id)))
  {
    var s0 := Do(s, Reclaim(id));
    var v := NewUser(s0.turns.Keys);
    var first := OutsiderReaches(s0, id, v);
    var s1 := Run(s0, first);
    var more: seq<Step> := [];
    if s.turns[u] == Landed(id, Rejected) {
      more := RejectedTurnStillReleases(s1, id, u);
    } else if !s.turns[u].Landed? {
      more := PendingTurnStillDials(s1, id, u);
    }
    RunsConcatenate(s0, first, more);
    assert Allowed(s0, first + more) && Run(s0, first + more).calls[id] >= 2;
  }

  /**
   Taking back a claim of a contact that can still be called is harmless exactly when no live turn
   stands on the row: otherwise some continuation places two possibly-live calls for it. A sweep only
   looks at the age of the claim, so a turn slower than the stale interval is outside the guarantee.
   */
  lemma ReclaimHarmlessExactly(s: State, id: int)
    requires Inv(s) && CanCall(s, id)
    requires s.rows[id].state == Some(Assigned) && s.rows[id].dequeuedAt.None?
    ensures SafeForever(Do(s, Reclaim(id))) <==> !WorkedOn(s, id)
  {
    if WorkedOn(s, id) {
      var u :| u in s.turns && s.turns[u].id == id;
      StolenRowIsCalledTwice(s, id, u);
    } else {
      var s' := Do(s, Reclaim(id));
      assert id !in s.calls;
      OutsideKeepsInv(s, s');
      forall steps | Allowed(s', steps) ensures Safe(Run(s', steps)) {
        RunKeepsInv(s', steps);
      }
    }
  }
}
