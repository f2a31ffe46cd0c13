/**
 The queue's database handle: every operation of the dial path that changes campaign_queue rows
 in place and reports the change. Each method is tied to the statement functions of QueueRows and
 says which events it put on the channel.
 */
module QueueDb {
  import opened Prelude
  import opened QueueRows
  import opened QueueEvents

  const MAX_OPT_OUT_CLAIM_SKIPS := 10
  const OPTED_OUT_REASON := "Contact opted out"

  datatype CampaignStatus = Running | Waiting | Complete | OtherStatus

  datatype Target = QueueId(id: int) | OfContact(contactId: int, campaignId: Option<int>)
  datatype DequeueOutcome = WorkspaceRequired | Done(dequeuedPrimary: bool)
  datatype NoOpReason = AlreadyDequeued | AssignedElsewhere | NotFound | Unknown

  // ---------- claimNextQueueContact as a function of the table ----------

  /** An opted-out claim: the row is claimed, then dequeued by id. */
  ghost function SkipClaim(t: Table, id: int, user: int, now: int): Table
    requires id in t
  {
    t[id := Apply(ToDequeued(now, Some(user), Some(OPTED_OUT_REASON)), ClaimRow(t[id], user, now))]
  }

  /** Claim, skip opted-out contacts by dequeuing them, at most `budget` times. */
  ghost function ClaimLoop(t: Table, contacts: Contacts, campaign: int, user: int, now: int,
                           budget: nat): (r: (Table, Option<int>))
    requires Keyed(t)
    ensures Keyed(r.0) && SameWorkspaces(t, r.0)
    ensures r.1.Some? ==> r.1.value in t
    decreases budget, |t|
  {
    if budget == 0 then (t, None)
    else
      var next := NextClaim(t, contacts, campaign);
      if next.None? then (t, None)
      else if OptedOut(contacts, t[next.value].contactId) then
        ClaimLoop(SkipClaim(t, next.value, user, now), contacts, campaign, user, now, budget - 1)
      else (Claim(t, next.value, user, now), next)
  }

  /** What a claim may do to a row it does not hand out. */
  ghost predicate SkippedOrUntouched(contacts: Contacts, campaign: int, user: int, now: int, r: Row, r': Row) {
    r' == r
    || (Claimable(contacts, campaign, r) && OptedOut(contacts, r.contactId)
        && r' == Apply(ToDequeued(now, Some(user), Some(OPTED_OUT_REASON)), ClaimRow(r, user, now)))
  }

  /** The loop leads from `t` to `t'` and hands out `r`. */
  ghost predicate Leads(t: Table, contacts: Contacts, campaign: int, user: int, now: int, budget: nat, t': Table,
                        r: Option<int>)
    requires Keyed(t)
  {
    ClaimLoop(t, contacts, campaign, user, now, budget) == (t', r)
  }

  /** A round that meets an opted-out contact leaves the rest of the loop to the table without it. */
  lemma LoopSkips(t: Table, contacts: Contacts, campaign: int, user: int, now: int, budget: nat, t': Table,
                  r: Option<int>, first: int)
    requires Keyed(t) && budget > 0 && NextClaim(t, contacts, campaign) == Some(first)
    requires OptedOut(contacts, t[first].contactId)
    ensures Keyed(SkipClaim(t, first, user, now)) && SkipClaim(t, first, user, now).Keys == t.Keys
    ensures Leads(t, contacts, campaign, user, now, budget, t', r)
       <==> Leads(SkipClaim(t, first, user, now), contacts, campaign, user, now, budget - 1, t', r)
  {
  }

  lemma LoopStops(t: Table, contacts: Contacts, campaign: int, user: int, now: int, budget: nat, t': Table,
                  r: Option<int>)
    requires Keyed(t) && NextClaim(t, contacts, campaign).None?
    ensures Leads(t, contacts, campaign, user, now, budget, t', r) <==> t' == t && r == None
    ensures forall id | id in t :: !Claimable(contacts, campaign, t[id])
  {
  }

  lemma LoopTakes(t: Table, contacts: Contacts, campaign: int, user: int, now: int, budget: nat, t': Table,
                  r: Option<int>, first: int)
    requires Keyed(t) && budget > 0 && NextClaim(t, contacts, campaign) == Some(first)
    requires !OptedOut(contacts, t[first].contactId)
    ensures Leads(t, contacts, campaign, user, now, budget, t', r)
       <==> t' == Claim(t, first, user, now) && r == Some(first)
  {
  }

  /** One round, and what is left of the loop. */
  lemma LoopGoesOn(t: Table, t1: Table, contacts: Contacts, campaign: int, user: int, now: int, budget: nat,
                   claimed: Option<int>, optedOut: bool, t': Table, r: Option<int>)
    requires Keyed(t) && Keyed(t1) && budget > 0 && claimed == NextClaim(t, contacts, campaign)
    requires claimed.None? ==> t1 == t
    requires claimed.Some? ==> (optedOut <==> OptedOut(contacts, t[claimed.value].contactId))
    requires claimed.Some? ==> t1 == if optedOut then SkipClaim(t, claimed.value, user, now)
                                     else Claim(t, claimed.value, user, now)
    requires Leads(t, contacts, campaign, user, now, budget, t', r)
    ensures claimed.Some? && optedOut ==> Leads(t1, contacts, campaign, user, now, budget - 1, t', r)
    ensures claimed.None? || !optedOut ==> t' == t1 && r == claimed
  {
    if claimed.None? {
      LoopStops(t, contacts, campaign, user, now, budget, t', r);
    } else if optedOut {
      LoopSkips(t, contacts, campaign, user, now, budget, t', r, claimed.value);
    } else {
      LoopTakes(t, contacts, campaign, user, now, budget, t', r, claimed.value);
    }
  }

  /**
   What a loop that led from `t` to `t'` and handed out `r` did to a row: the row handed out was claimable,
   its contact has not opted out, and it now carries the caller's claim; every other row is untouched or was
   an opted-out claim that is now dequeued, and if it was or is left to claim it comes later.
   */
  ghost predicate HandedOut(t: Table, t': Table, contacts: Contacts, campaign: int, user: int, now: int,
                            r: Option<int>, id: int)
    requires id in t && id in t' && (r.Some? ==> r.value in t)
  {
    if r == Some(id) then
      && Claimable(contacts, campaign, t[id]) && !OptedOut(contacts, t[id].contactId)
      && t'[id] == ClaimRow(t[id], user, now)
    else
      && SkippedOrUntouched(contacts, campaign, user, now, t[id], t'[id])
      && (r.Some? && Claimable(contacts, campaign, t[id]) && !OptedOut(contacts, t[id].contactId) ==>
            Before(t[r.value], t[id]))
      && (r.Some? && Claimable(contacts, campaign, t'[id]) ==> Before(t[r.value], t'[id]))
  }

  lemma TakenHandedOut(t: Table, contacts: Contacts, campaign: int, user: int, now: int, first: int, id: int)
    requires Keyed(t) && id in t && IsNextClaim(t, contacts, campaign, first)
    requires !OptedOut(contacts, t[first].contactId)
    ensures HandedOut(t, Claim(t, first, user, now), contacts, campaign, user, now, Some(first), id)
  {
  }

  /** Skipping one contact more ahead of the loop changes nothing about the promise. */
  lemma SkipHandedOut(t: Table, t': Table, contacts: Contacts, campaign: int, user: int, now: int, first: int,
                      r: Option<int>, id: int)
    requires Keyed(t) && id in t && id in t' && (r.Some? ==> r.value in t && r.value in t')
    requires IsNextClaim(t, contacts, campaign, first) && OptedOut(contacts, t[first].contactId)
    requires HandedOut(SkipClaim(t, first, user, now), t', contacts, campaign, user, now, r, id)
    requires r.Some? ==> HandedOut(SkipClaim(t, first, user, now), t', contacts, campaign, user, now, r, r.value)
    ensures HandedOut(t, t', contacts, campaign, user, now, r, id)
  {
    var t1 := SkipClaim(t, first, user, now);
    assert !Claimable(contacts, campaign, t1[first]);
  }

  lemma {:induction false} LoopHandsOut(t: Table, t': Table, contacts: Contacts, campaign: int, user: int, now: int,
                                        budget: nat, r: Option<int>)
    requires Keyed(t) && t'.Keys == t.Keys && (r.Some? ==> r.value in t)
    requires Leads(t, contacts, campaign, user, now, budget, t', r)
    ensures forall id | id in t :: HandedOut(t, t', contacts, campaign, user, now, r, id)
    decreases budget
  {
    var next := NextClaim(t, contacts, campaign);
    if next.None? {
      LoopStops(t, contacts, campaign, user, now, budget, t', r);
    } else if budget > 0 {
      var first := next.value;
      if OptedOut(contacts, t[first].contactId) {
        LoopSkips(t, contacts, campaign, user, now, budget, t', r, first);
        LoopHandsOut(SkipClaim(t, first, user, now), t', contacts, campaign, user, now, budget - 1, r);
        forall id | id in t ensures HandedOut(t, t', contacts, campaign, user, now, r, id) {
          SkipHandedOut(t, t', contacts, campaign, user, now, first, r, id);
        }
      } else {
        LoopTakes(t, contacts, campaign, user, now, budget, t', r, first);
        forall id | id in t ensures HandedOut(t, t', contacts, campaign, user, now, r, id) {
          TakenHandedOut(t, contacts, campaign, user, now, first, id);
        }
      }
    }
  }

  /** The claim's promise, row by row. */
  lemma ClaimHandsOutFirst(t: Table, contacts: Contacts, campaign: int, user: int, now: int, budget: nat, id: int)
    requires Keyed(t) && id in t
    ensures var (t', r) := ClaimLoop(t, contacts, campaign, user, now, budget);
      HandedOut(t, t', contacts, campaign, user, now, r, id)
  {
    var (t', r) := ClaimLoop(t, contacts, campaign, user, now, budget);
    assert Leads(t, contacts, campaign, user, now, budget, t', r);
    LoopHandsOut(t, t', contacts, campaign, user, now, budget, r);
  }

  /** A claim adds the row it hands out to the caller's holdings and nothing else, and keeps rows shaped. */
  lemma ClaimHoldings(t: Table, contacts: Contacts, campaign: int, user: int, now: int, budget: nat)
    requires Keyed(t)
    ensures var (t', r) := ClaimLoop(t, contacts, campaign, user, now, budget);
      && HeldBy(t', user) == HeldBy(t, user) + (if r.Some? then {r.value} else {})
      && (r.Some? ==> r.value in t && r.value !in HeldBy(t, user))
      && (AllShaped(t) ==> AllShaped(t'))
  {
    var (t', r) := ClaimLoop(t, contacts, campaign, user, now, budget);
    forall id | id in t
      ensures id in HeldBy(t', user) <==> id in HeldBy(t, user) || Some(id) == r
      ensures Some(id) == r ==> id !in HeldBy(t, user)
      ensures Shaped(t[id]) ==> Shaped(t'[id])
    {
      ClaimHandsOutFirst(t, contacts, campaign, user, now, budget, id);
    }
  }

  /** Rows a claim skipped: claimable before, of opted-out contacts, dequeued after. */
  ghost predicate Skipped(t: Table, t': Table, contacts: Contacts, campaign: int, ids: set<int>) {
    forall id | id in ids ::
      && id in t && id in t' && Claimable(contacts, campaign, t[id]) && OptedOut(contacts, t[id].contactId)
      && t'[id].state == Some(Dequeued)
  }

  lemma SkipMore(t: Table, t': Table, contacts: Contacts, campaign: int, user: int, now: int, first: int,
                 later: set<int>)
    requires first in t && Claimable(contacts, campaign, t[first]) && OptedOut(contacts, t[first].contactId)
    requires Skipped(SkipClaim(t, first, user, now), t', contacts, campaign, later)
    requires first in t' && t'[first].state == Some(Dequeued)
    ensures Skipped(t, t', contacts, campaign, later + {first}) && |later + {first}| == |later| + 1
  {
    var t1 := SkipClaim(t, first, user, now);
    assert !Claimable(contacts, campaign, t1[first]);
    forall id | id in later ensures id != first && t1[id] == t[id] {
    }
  }

  /** A row that was dequeued stays as it is in the rest of the loop. */
  lemma DequeuedStays(t: Table, contacts: Contacts, campaign: int, user: int, now: int, budget: nat, id: int)
    requires Keyed(t) && id in t && t[id].dequeuedAt.Some?
    ensures var t' := ClaimLoop(t, contacts, campaign, user, now, budget).0; id in t' && t'[id] == t[id]
  {
    ClaimHandsOutFirst(t, contacts, campaign, user, now, budget, id);
  }

  /** A loop that comes back empty skipped the contact it met first, who stays dequeued. */
  lemma EmptyLoopSkips(t: Table, t': Table, contacts: Contacts, campaign: int, user: int, now: int, budget: nat,
                       first: int)
    requires Keyed(t) && budget > 0 && NextClaim(t, contacts, campaign) == Some(first)
    requires Leads(t, contacts, campaign, user, now, budget, t', None)
    ensures Claimable(contacts, campaign, t[first]) && OptedOut(contacts, t[first].contactId)
    ensures Keyed(SkipClaim(t, first, user, now))
    ensures Leads(SkipClaim(t, first, user, now), contacts, campaign, user, now, budget - 1, t', None)
    ensures first in t' && t'[first].state == Some(Dequeued)
  {
    if OptedOut(contacts, t[first].contactId) {
      LoopSkips(t, contacts, campaign, user, now, budget, t', None, first);
      SkippedStays(t, t', contacts, campaign, user, now, budget - 1, first);
    } else {
      LoopTakes(t, contacts, campaign, user, now, budget, t', None, first);
    }
  }

  lemma SkippedStays(t: Table, t': Table, contacts: Contacts, campaign: int, user: int, now: int, budget: nat,
                     first: int)
    requires Keyed(t) && first in t && Keyed(SkipClaim(t, first, user, now))
    requires Leads(SkipClaim(t, first, user, now), contacts, campaign, user, now, budget, t', None)
    ensures first in t' && t'[first].state == Some(Dequeued)
  {
    DequeuedStays(SkipClaim(t, first, user, now), contacts, campaign, user, now, budget, first);
  }

  /** Nothing claimable is left, or `budget` rows were skipped. */
  ghost predicate Emptied(t': Table, contacts: Contacts, campaign: int, skipped: set<int>, budget: nat) {
    (forall id | id in t' :: !Claimable(contacts, campaign, t'[id])) || |skipped| == budget
  }

  lemma EmptiedMore(t': Table, contacts: Contacts, campaign: int, later: set<int>, skipped: set<int>, budget: nat)
    requires budget > 0 && Emptied(t', contacts, campaign, later, budget - 1) && |skipped| == |later| + 1
    ensures Emptied(t', contacts, campaign, skipped, budget)
  {
  }

  lemma {:induction false} LoopEmptied(t: Table, t': Table, contacts: Contacts, campaign: int, user: int, now: int,
                                       budget: nat) returns (skipped: set<int>)
    requires Keyed(t) && Leads(t, contacts, campaign, user, now, budget, t', None)
    ensures Skipped(t, t', contacts, campaign, skipped) && Emptied(t', contacts, campaign, skipped, budget)
    decreases budget
  {
    var next := NextClaim(t, contacts, campaign);
    skipped := {};
    if next.None? {
      LoopStops(t, contacts, campaign, user, now, budget, t', None);
    } else if budget > 0 {
      var first := next.value;
      EmptyLoopSkips(t, t', contacts, campaign, user, now, budget, first);
      var later := LoopEmptied(SkipClaim(t, first, user, now), t', contacts, campaign, user, now, budget - 1);
      SkipMore(t, t', contacts, campaign, user, now, first, later);
      skipped := later + {first};
      EmptiedMore(t', contacts, campaign, later, skipped, budget);
    }
  }

  /** It comes back empty only when nothing claimable is left, or after `budget` distinct opted-out rows. */
  lemma ClaimEmpty(t: Table, contacts: Contacts, campaign: int, user: int, now: int, budget: nat)
    returns (skipped: set<int>)
    requires Keyed(t)
    requires ClaimLoop(t, contacts, campaign, user, now, budget).1.None?
    ensures var t' := ClaimLoop(t, contacts, campaign, user, now, budget).0;
      && Skipped(t, t', contacts, campaign, skipped)
      && ((forall id | id in t' :: !Claimable(contacts, campaign, t'[id])) || |skipped| == budget)
  {
    var t' := ClaimLoop(t, contacts, campaign, user, now, budget).0;
    assert Leads(t, contacts, campaign, user, now, budget, t', None);
    skipped := LoopEmptied(t, t', contacts, campaign, user, now, budget);
    assert Emptied(t', contacts, campaign, skipped, budget);
  }

  lemma ByIdTouchesOne(t: Table, id: int, workspace: Option<int>, u: Update)
    requires Keyed(t) && id in t && (workspace.Some? ==> t[id].workspace == workspace.value)
    ensures UpdateWhere(t, ById(id, workspace), u) == t[id := Apply(u, t[id])]
    ensures Matching(t, ById(id, workspace)) == {id}
  {
    var t1, t2 := UpdateWhere(t, ById(id, workspace), u), t[id := Apply(u, t[id])];
    assert t1.Keys == t2.Keys;
    assert forall other | other in t :: t1[other] == t2[other];
    assert t1 == t2;
    var m := Matching(t, ById(id, workspace));
    assert forall other | other in m :: t[other].id == other;
    assert id in m;
  }

  /** An UPDATE keeps the table keyed and shaped, and rows in their workspaces. */
  lemma UpdateKeeps(t: Table, where: Row -> bool, u: Update)
    requires Keyed(t) && AllShaped(t)
    ensures var t' := UpdateWhere(t, where, u);
      && Keyed(t') && AllShaped(t') && SameWorkspaces(t, t')
      && (forall id | id in t && id !in Matching(t, where) :: t'[id] == t[id])
  {
    var t' := UpdateWhere(t, where, u);
    forall id | id in t ensures Shaped(t'[id]) && t'[id].id == t[id].id && t'[id].workspace == t[id].workspace {
      WritersKeepShape(t[id], u, 0, 0, 0);
    }
  }

  lemma NothingUpdated(t: Table, where: Row -> bool, u: Update)
    requires Matching(t, where) == {}
    ensures UpdateWhere(t, where, u) == t && Mirrors(t, [], t)
  {
    var t' := UpdateWhere(t, where, u);
    forall id | id in t ensures t'[id] == t[id] {
      assert id !in Matching(t, where);
    }
    assert t'.Keys == t.Keys;
    assert t' == t;
    SilentWriteMirrorsExactly(t, t);
  }

  function Photograph(t: Table, contactIds: set<int>, workspace: int, user: Option<int>): set<int> {
    set id | id in t && t[id].contactId in contactIds && t[id].workspace == workspace && Snapshot(user, t[id])
  }

  lemma PhotographIsChange(t: Table, contacts: Contacts, contactIds: set<int>, contactId: int, household: bool,
                           workspace: int, user: Option<int>, id: int)
    requires id in t && Shaped(t[id]) && contactIds == ReachedContacts(contacts, contactId, household, workspace)
    ensures id in Photograph(t, contactIds, workspace, user)
       <==> InScope(contacts, contactId, household, workspace, t[id]) && Guard(user, t[id])
  {
    SnapshotMatchesGuardExactly(t[id]);
  }

  /** The contacts rpcDequeueContact collects: the contact, and with fan-out its household. */
  function ReachedContacts(contacts: Contacts, contactId: int, household: bool, workspace: int): set<int> {
    {contactId} + if household then (set c | c in contacts && SameHousehold(contacts, workspace, contactId, c)) else {}
  }

  /** On a shaped table the photograph is exactly the rows the function changes. */
  lemma RpcPhotograph(t: Table, contacts: Contacts, contactIds: set<int>, contactId: int, household: bool,
                      workspace: int, user: Option<int>, reason: Option<string>, now: int)
    requires Keyed(t) && AllShaped(t)
    requires contactIds == ReachedContacts(contacts, contactId, household, workspace)
    ensures var t' := DequeueContact(t, contacts, contactId, household, workspace, user, reason, now);
      var photographed := Photograph(t, contactIds, workspace, user);
      && Keyed(t') && AllShaped(t') && SameWorkspaces(t, t')
      && (forall id | id in photographed :: t'[id].dequeuedAt.Some? && t[id].workspace == workspace)
      && (forall id | id in t && id !in photographed :: t'[id] == t[id])
  {
    DequeueContactChanges(t, contacts, contactId, household, workspace, user, reason, now);
    var t' := DequeueContact(t, contacts, contactId, household, workspace, user, reason, now);
    forall id | id in t
      ensures t'[id].id == t[id].id && t'[id].workspace == t[id].workspace && Shaped(t'[id])
      ensures id in Photograph(t, contactIds, workspace, user) ==> t'[id].dequeuedAt.Some?
      ensures id !in Photograph(t, contactIds, workspace, user) ==> t'[id] == t[id]
    {
      PhotographIsChange(t, contacts, contactIds, contactId, household, workspace, user, id);
    }
  }

  // ---------- explainDequeueNoOp ----------

  predicate ContactRow(contactId: int, workspace: int, r: Row) {
    r.contactId == contactId && r.workspace == workspace
  }

  function ExplainDequeueNoOp(t: Table, contactId: int, workspace: int, user: Option<int>): NoOpReason {
    if forall id | id in t :: !ContactRow(contactId, workspace, t[id]) then NotFound
    else if exists id :: id in t && ContactRow(contactId, workspace, t[id])
              && t[id].dequeuedAt.None? && t[id].assignee.Some? && t[id].assignee != user then AssignedElsewhere
    else if forall id | id in t && ContactRow(contactId, workspace, t[id]) :: t[id].dequeuedAt.Some?
    then AlreadyDequeued
    else Unknown
  }

  /** A live row that is neither claimable nor carried by a claim token. */
  predicate Stray(user: Option<int>, r: Row) {
    && r.dequeuedAt.None? && !Unclaimed(r)
    && (r.assignee.None? || (r.assignee == user && r.state != Some(Assigned)))
  }

  /**
   After a guarded dequeue that changed none of the contact's rows, the explanation is a shrug
   exactly when the contact has a live row and every live row of it is a stray; in particular it
   never shrugs on a table whose live rows are queued, null or assigned to someone.
   */
  lemma ExplanationUnknownExactly(t: Table, contactId: int, workspace: int, user: Option<int>)
    requires Matching(t, PrimaryRows(contactId, workspace, user)) == {}
    ensures ExplainDequeueNoOp(t, contactId, workspace, user) == Unknown <==>
      && (exists id :: id in t && ContactRow(contactId, workspace, t[id]) && t[id].dequeuedAt.None?)
      && (forall id | id in t && ContactRow(contactId, workspace, t[id]) && t[id].dequeuedAt.None? ::
        Stray(user, t[id]))
    ensures (forall id | id in t && t[id].dequeuedAt.None? ::
      Unclaimed(t[id]) || (t[id].state == Some(Assigned) && t[id].assignee.Some?))
      ==> ExplainDequeueNoOp(t, contactId, workspace, user) != Unknown
  {
    forall id | id in t && ContactRow(contactId, workspace, t[id]) ensures !Guard(user, t[id]) {
      assert id !in Matching(t, PrimaryRows(contactId, workspace, user));
    }
  }

  /** Which of the four answers it gives, each by what the contact's rows look like. */
  lemma ExplanationExactly(t: Table, contactId: int, workspace: int, user: Option<int>)
    ensures var own := set id | id in t && t[id].contactId == contactId && t[id].workspace == workspace;
      var answer := ExplainDequeueNoOp(t, contactId, workspace, user);
      && (answer == NotFound <==> own == {})
      && (answer == AlreadyDequeued <==> own != {} && forall id | id in own :: t[id].dequeuedAt != None)
      && (answer == AssignedElsewhere <==>
            exists id :: id in own && t[id].dequeuedAt == None && t[id].assignee != None && t[id].assignee != user)
  {
    var own := set id | id in t && t[id].contactId == contactId && t[id].workspace == workspace;
    assert forall id | id in t :: id in own <==> ContactRow(contactId, workspace, t[id]);
    if own != {} {
      var some := SomeMember(own);
    }
  }

  predicate LiveClaim(user: int, campaign: int, workspace: Option<int>, r: Row) {
    && r.campaignId == campaign && r.dequeuedAt.None? && r.assignee == Some(user)
    && (workspace.Some? ==> r.workspace == workspace.value)
  }

  /** The writes of the data layer that a client hears of, each in its workspace. */
  datatype Op =
    | ClaimOp(campaign: int, user: int, now: int)
    | RequeueOp(id: int, within: Option<int>)
    | DeleteOp(ids: set<int>, workspace: int)
    | DequeueIdOp(id: int, user: int, reason: string, within: Option<int>, now: int)
    | DequeueContactOp(contactId: int, ofCampaign: Option<int>, actor: Option<int>, reason: string, workspace: int,
                       household: Option<bool>, now: int)
    | ReleaseOp(user: int, campaign: int, workspace: int)

  // ---------- what the writes leave in a row ----------

  /** A row given back to the queue: nobody holds it and nothing is left of a dequeue; attempts and claim time stay. */
  ghost function Freed(r: Row): Row {
    Row(r.id, r.contactId, r.campaignId, r.workspace, r.queueOrder, Some(Queued), None, None, None, None, None,
        r.claimedAt, r.attempts, r.attemptCount)
  }

  /** A row taken out of the queue, with who did it, when and why. */
  ghost function Finished(r: Row, at: int, actor: Option<int>, reason: string): Row {
    Row(r.id, r.contactId, r.campaignId, r.workspace, r.queueOrder, Some(Dequeued), None, None, Some(at), actor,
        Some(reason), r.claimedAt, r.attempts, r.attemptCount)
  }

  // ---------- the database ----------

  class QueueDb {
    var rows: Table
    var contacts: Contacts
    var statuses: map<int, CampaignStatus>
    var events: seq<Event>

    ghost predicate Valid()
      reads this
    {
      Keyed(rows) && AllShaped(rows)
    }

    constructor (rows: Table, contacts: Contacts, statuses: map<int, CampaignStatus>)
      requires Keyed(rows) && AllShaped(rows)
      ensures Valid() && this.rows == rows && this.contacts == contacts && this.statuses == statuses && events == []
    {
      this.rows, this.contacts, this.statuses, this.events := rows, contacts, statuses, [];
    }

    /** emitQueueRowUpdates: one event for each row, in whatever order they come. */
    method EmitUpdates(channel: int, ids: set<int>, before: Table)
      requires Keyed(rows) && Keyed(before) && ids <= rows.Keys && ids <= before.Keys
      modifies this`events
      ensures old(events) <= events
      ensures Reports(channel, events[|old(events)|..], ids, before, rows)
    {
      var todo := ids;
      ghost var sent: seq<Event> := [];
      while todo != {}
        invariant todo <= ids
        invariant events == old(events) + sent
        invariant Reports(channel, sent, ids - todo, before, rows)
        decreases todo
      {
        ghost var some := SomeMember(todo);
        var id :| id in todo;
        var event := Updated(channel, rows[id], Some(before[id]));
        ghost var longer := sent + [event];
        forall k | 0 <= k < |sent| ensures sent[k].row.id != id {
          assert sent[k].row.id in Reported(sent);
        }
        ReportedLast(longer);
        assert longer[..|longer| - 1] == sent;
        events := events + [event];
        sent := longer;
        assert ids - todo + {id} == ids - (todo - {id});
        todo := todo - {id};
      }
      assert ids - todo == ids;
      assert events[|old(events)|..] == sent;
    }

    /** emitQueueRowDeletes. */
    method EmitDeletes(channel: int, deleted: Table)
      requires Keyed(deleted)
      modifies this`events
      ensures old(events) <= events
      ensures ReportsDeletes(channel, events[|old(events)|..], deleted.Keys, deleted)
    {
      var todo := deleted.Keys;
      ghost var sent: seq<Event> := [];
      while todo != {}
        invariant todo <= deleted.Keys
        invariant events == old(events) + sent
        invariant ReportsDeletes(channel, sent, deleted.Keys - todo, deleted)
        decreases todo
      {
        ghost var some := SomeMember(todo);
        var id :| id in todo;
        var event := Deleted(channel, deleted[id]);
        ghost var longer := sent + [event];
        forall k | 0 <= k < |sent| ensures sent[k].row.id != id {
          assert sent[k].row.id in Reported(sent);
        }
        ReportedLast(longer);
        assert longer[..|longer| - 1] == sent;
        events := events + [event];
        sent := longer;
        assert deleted.Keys - todo + {id} == deleted.Keys - (todo - {id});
        todo := todo - {id};
      }
      assert deleted.Keys - todo == deleted.Keys;
      assert events[|old(events)|..] == sent;
    }

    /**
     updateCampaignQueueAndEmit. Without a workspace all events go to the channel of one of the
     updated rows, so the mirror needs the updated rows to share a workspace.
     */
    method UpdateAndEmit(where: Row -> bool, u: Update, workspace: Option<int>) returns (updated: set<int>)
      requires Valid()
      modifies this`rows, this`events
      ensures Valid()
      ensures rows == UpdateWhere(old(rows), where, u)
      ensures updated == Matching(old(rows), where)
      ensures old(events) <= events
      ensures workspace.Some? ==> Reports(workspace.value, events[|old(events)|..], updated, old(rows), rows)
      ensures (workspace.Some? && forall id | id in updated :: rows[id].workspace == workspace.value)
           || (workspace.None? && forall a, b | a in updated && b in updated :: rows[a].workspace == rows[b].workspace)
        ==> Mirrors(old(rows), events[|old(events)|..], rows)
    {
      var before := rows;
      updated := Matching(rows, where);
      rows := UpdateWhere(rows, where, u);
      UpdateKeeps(before, where, u);
      if updated == {} {
        NothingUpdated(before, where, u);
        assert events[|old(events)|..] == [];
      } else {
        ghost var some := SomeMember(updated);
        var first :| first in updated;
        var channel := if workspace.Some? then workspace.value else rows[first].workspace;
        EmitUpdates(channel, updated, before);
        if forall id | id in updated :: rows[id].workspace == channel {
          ReportsMirror(channel, events[|old(events)|..], updated, before, rows);
        }
      }
    }

    /** deleteCampaignQueueAndEmit: no workspace, no events. */
    method DeleteAndEmit(where: Row -> bool, workspace: Option<int>) returns (deleted: Table)
      requires Valid()
      modifies this`rows, this`events
      ensures Valid()
      ensures deleted == map id | id in old(rows) && where(old(rows)[id]) :: old(rows)[id]
      ensures rows == old(rows) - deleted.Keys
      ensures old(events) <= events
      ensures workspace.None? ==> events == old(events)
      ensures workspace.Some? && (forall id | id in deleted :: deleted[id].workspace == workspace.value)
        ==> Mirrors(old(rows), events[|old(events)|..], rows)
    {
      var before := rows;
      deleted := map id | id in rows && where(rows[id]) :: rows[id];
      rows := rows - deleted.Keys;
      if workspace.Some? {
        EmitDeletes(workspace.value, deleted);
        if forall id | id in deleted :: deleted[id].workspace == workspace.value {
          ReportsDeletesMirror(workspace.value, events[|old(events)|..], deleted.Keys, before);
        }
      }
    }

    /** deleteCampaignQueueByIds. */
    method DeleteByIds(ids: set<int>, workspace: int) returns (deleted: Table)
      requires Valid()
      modifies this`rows, this`events
      ensures Valid()
      ensures deleted.Keys == set id | id in ids && id in old(rows) && old(rows)[id].workspace == workspace
      ensures rows == old(rows) - deleted.Keys
      ensures old(events) <= events && Mirrors(old(rows), events[|old(events)|..], rows)
    {
      deleted := DeleteAndEmit((r: Row) => r.id in ids && r.workspace == workspace, Some(workspace));
      assert deleted.Keys == set id | id in ids && id in old(rows) && old(rows)[id].workspace == workspace by {
        assert forall id | id in old(rows) :: old(rows)[id].id == id;
      }
    }

    /** requeueCampaignQueueById: unconditional on the row's state. */
    method RequeueById(id: int, workspace: Option<int>) returns (updated: set<int>)
      requires Valid()
      modifies this`rows, this`events
      ensures Valid()
      ensures rows == UpdateWhere(old(rows), ById(id, workspace), ToQueued)
      ensures updated == Matching(old(rows), ById(id, workspace)) && (forall other | other in updated :: other == id)
      ensures id in updated <==> id in old(rows) && workspace in {None, Some(old(rows)[id].workspace)}
      ensures rows.Keys == old(rows).Keys
      ensures forall other | other in rows ::
        rows[other] == if other in updated then Freed(old(rows)[other]) else old(rows)[other]
      ensures old(events) <= events && Mirrors(old(rows), events[|old(events)|..], rows)
    {
      updated := UpdateAndEmit(ById(id, workspace), ToQueued, workspace);
    }

    /** dequeueCampaignQueueById: unconditional on the row's state. */
    method DequeueById(id: int, user: int, reason: string, workspace: Option<int>, now: int) returns (updated: set<int>)
      requires Valid()
      modifies this`rows, this`events
      ensures Valid()
      ensures rows == UpdateWhere(old(rows), ById(id, workspace), ToDequeued(now, Some(user), Some(reason)))
      ensures updated == Matching(old(rows), ById(id, workspace)) && (forall other | other in updated :: other == id)
      ensures id in updated <==> id in old(rows) && workspace in {None, Some(old(rows)[id].workspace)}
      ensures rows.Keys == old(rows).Keys
      ensures forall other | other in rows ::
        rows[other] == if other in updated then Finished(old(rows)[other], now, Some(user), reason)
                       else old(rows)[other]
      ensures old(events) <= events && Mirrors(old(rows), events[|old(events)|..], rows)
    {
      updated := UpdateAndEmit(ById(id, workspace), ToDequeued(now, Some(user), Some(reason)), workspace);
    }

    /** The claim RPC alone: the first claimable row nobody else has locked. It emits nothing. */
    method ClaimRpc(campaign: int, user: int, now: int, locked: set<int>) returns (r: Option<int>)
      requires Valid()
      modifies this`rows
      ensures Valid()
      ensures r == NextClaim(old(rows) - locked, contacts, campaign)
      ensures rows == if r.None? then old(rows) else Claim(old(rows), r.value, user, now)
      ensures r.Some? ==> r.value in old(rows) && r.value !in locked && rows == old(rows)[r.value :=
        old(rows)[r.value].(state := Some(Assigned), assignee := Some(user), providerStatus := None,
                            claimedAt := Some(now), attempts := old(rows)[r.value].attempts + 1,
                            attemptCount := old(rows)[r.value].attemptCount + 1)]
    {
      var free := rows - locked;
      ClaimExists(free, contacts, campaign);
      if id :| id in free && IsNextClaim(free, contacts, campaign, id) {
        rows := Claim(rows, id, user, now);
        r := Some(id);
      } else {
        r := None;
      }
    }

    /** The event that follows a claim. */
    method EmitClaimed(row: Row)
      modifies this`events
      ensures events == old(events) + [Updated(row.workspace, row, None)]
    {
      events := events + [Updated(row.workspace, row, None)];
    }

    /** One round of the claim loop: the RPC, its event, and the opt-out guard. */
    method ClaimAttempt(campaign: int, user: int, now: int) returns (claimed: Option<int>, optedOut: bool)
      requires Valid()
      modifies this`rows, this`events
      ensures Valid()
      ensures claimed == NextClaim(old(rows), contacts, campaign)
      ensures claimed.None? ==> rows == old(rows) && !optedOut
      ensures claimed.Some? ==> (optedOut <==> OptedOut(contacts, old(rows)[claimed.value].contactId))
      ensures claimed.Some? ==>
        var c := old(rows)[claimed.value].contactId; optedOut <==> c in contacts && contacts[c].optOut
      ensures claimed.Some? && optedOut ==>
        && claimed.value in rows
        && rows[claimed.value]
           == Finished(ClaimRow(old(rows)[claimed.value], user, now), now, Some(user), "Contact opted out")
      ensures claimed.Some? ==>
        rows == if optedOut then SkipClaim(old(rows), claimed.value, user, now)
                else Claim(old(rows), claimed.value, user, now)
      ensures old(events) <= events && Mirrors(old(rows), events[|old(events)|..], rows)
    {
      ghost var before := rows;
      optedOut := false;
      assert rows - {} == rows;
      claimed := ClaimRpc(campaign, user, now, {});
      if claimed.None? {
        SilentWriteMirrorsExactly(rows, rows);
        assert events[|old(events)|..] == [];
        return;
      }
      var id := claimed.value;
      ghost var event := Updated(rows[id].workspace, rows[id], None);
      EmitClaimed(rows[id]);
      OneEventMirrors(before, rows, event);
      assert events[|old(events)|..] == [event];
      optedOut := OptedOut(contacts, rows[id].contactId);
      if optedOut {
        ghost var mid := rows;
        ByIdTouchesOne(mid, id, Some(mid[id].workspace), ToDequeued(now, Some(user), Some(OPTED_OUT_REASON)));
        var updated := DequeueById(id, user, OPTED_OUT_REASON, Some(rows[id].workspace), now);
        MirrorsCompose(before, [event], mid, events[|old(events)| + 1..], rows);
        assert events[|old(events)|..] == [event] + events[|old(events)| + 1..];
        assert rows == SkipClaim(before, id, user, now);
      }
    }

    /** The claim loop of claimNextQueueContact, for any bound on the rounds. */
    method ClaimWithin(campaign: int, user: int, now: int, rounds: nat) returns (r: Option<int>, rpcs: nat)
      requires Valid()
      modifies this`rows, this`events
      ensures Valid()
      ensures (rows, r) == ClaimLoop(old(rows), contacts, campaign, user, now, rounds)
      ensures rpcs <= rounds
      ensures old(events) <= events && Mirrors(old(rows), events[|old(events)|..], rows)
    {
      rpcs := 0;
      r := None;
      SilentWriteMirrorsExactly(rows, rows);
      assert events[|old(events)|..] == [];
      ghost var (end, out) := ClaimLoop(rows, contacts, campaign, user, now, rounds);
      ghost var left := rounds;
      for attempt := 0 to rounds
        invariant Valid()
        invariant rpcs == attempt && left == rounds - attempt
        invariant Leads(rows, contacts, campaign, user, now, left, end, out)
        invariant old(events) <= events && Mirrors(old(rows), events[|old(events)|..], rows)
      {
        ghost var before, seen := rows, events;
        var claimed, optedOut := ClaimAttempt(campaign, user, now);
        rpcs := rpcs + 1;
        MirrorsOn(old(events), seen, events, old(rows), before, rows);
        LoopGoesOn(before, rows, contacts, campaign, user, now, left, claimed, optedOut, end, out);
        if claimed.None? || !optedOut {
          return claimed, rpcs;
        }
        left := left - 1;
      }
      r := None;
    }

    /** claimNextQueueContact. */
    method ClaimNextQueueContact(campaign: int, user: int, now: int) returns (r: Option<int>, rpcs: nat)
      requires Valid()
      modifies this`rows, this`events
      ensures Valid()
      ensures (rows, r) == ClaimLoop(old(rows), contacts, campaign, user, now, MAX_OPT_OUT_CLAIM_SKIPS)
      ensures rpcs <= 10
      ensures r.None? ==> exists skipped ::
        Skipped(old(rows), rows, contacts, campaign, skipped) && Emptied(rows, contacts, campaign, skipped, 10)
      ensures old(events) <= events && Mirrors(old(rows), events[|old(events)|..], rows)
    {
      r, rpcs := ClaimWithin(campaign, user, now, MAX_OPT_OUT_CLAIM_SKIPS);
      if r.None? {
        ghost var skipped := LoopEmptied(old(rows), rows, contacts, campaign, user, now, MAX_OPT_OUT_CLAIM_SKIPS);
      }
    }

    /** Every contact sharing the source contact's household in the workspace, and the contact. */
    method HouseholdSet(contactId: int, workspace: int) returns (ids: set<int>)
      ensures ids == ReachedContacts(contacts, contactId, true, workspace)
      ensures forall c :: c in ids <==>
        || c == contactId
        || (c in contacts && contactId in contacts
            && contacts[c].workspace == contacts[contactId].workspace == workspace
            && contacts[c].household == contacts[contactId].household != None)
    {
      ids := {contactId};
      if contactId in contacts && contacts[contactId].workspace == workspace && contacts[contactId].household.Some? {
        var todo := set c | c in contacts
          && contacts[c].household == contacts[contactId].household && contacts[c].workspace == workspace;
        ghost var all := todo;
        while todo != {}
          invariant todo <= all
          invariant ids == {contactId} + (all - todo)
          decreases todo
        {
          ghost var some := SomeMember(todo);
          var c :| c in todo;
          ids := ids + {c};
          todo := todo - {c};
        }
      }
    }

    /** dequeue_contact itself: the table changes, the primary row count comes back, nothing is emitted. */
    method DequeueContactSql(contactId: int, workspace: int, household: bool, user: Option<int>,
                             reason: Option<string>, now: int)
      returns (primary: nat)
      modifies this`rows
      ensures rows == DequeueContact(old(rows), contacts, contactId, household, workspace, user, reason, now)
      ensures primary == |Matching(old(rows), PrimaryRows(contactId, workspace, user))|
    {
      primary := |Matching(rows, PrimaryRows(contactId, workspace, user))|;
      rows := UpdateWhere(rows, PrimaryRows(contactId, workspace, user), ToDequeued(now, user, reason));
      if household {
        rows := UpdateWhere(rows, FanOutRows(contacts, contactId, workspace, user), ToDequeued(now, user, reason));
      }
    }

    /**
     rpcDequeueContact: photograph the rows by the TypeScript predicate, run the function, report
     the photographed rows it dequeued. On a shaped table the photograph misses nothing.
     */
    method DequeueContactRpc(contactId: int, workspace: int, household: bool, user: Option<int>,
                             reason: Option<string>, now: int)
      returns (primary: nat)
      requires Valid()
      modifies this`rows, this`events
      ensures Valid()
      ensures rows == DequeueContact(old(rows), contacts, contactId, household, workspace, user, reason, now)
      ensures primary == |Matching(old(rows), PrimaryRows(contactId, workspace, user))|
      ensures old(events) <= events && Mirrors(old(rows), events[|old(events)|..], rows)
    {
      var contactIds := {contactId};
      if household {
        contactIds := HouseholdSet(contactId, workspace);
      }
      ghost var before := rows;
      var photographed := Photograph(rows, contactIds, workspace, user);
      var oldRows := map id | id in photographed :: rows[id];
      RpcPhotograph(before, contacts, contactIds, contactId, household, workspace, user, reason, now);
      primary := DequeueContactSql(contactId, workspace, household, user, reason, now);
      EmitDequeued(oldRows, workspace, before);
    }

    /** The tail of rpcDequeueContact: re-read the photographed rows and report those now dequeued. */
    method EmitDequeued(oldRows: Table, workspace: int, ghost before: Table)
      requires Keyed(rows) && Keyed(before) && SameWorkspaces(before, rows)
      requires oldRows.Keys <= rows.Keys && forall id | id in oldRows :: oldRows[id] == before[id]
      requires forall id | id in oldRows :: rows[id].dequeuedAt.Some? && before[id].workspace == workspace
      requires forall id | id in before && id !in oldRows :: rows[id] == before[id]
      modifies this`events
      ensures old(events) <= events && Mirrors(before, events[|old(events)|..], rows)
    {
      var changed := set id | id in oldRows.Keys && rows[id].dequeuedAt.Some?;
      assert forall id | id in oldRows :: id in changed;
      EmitUpdates(workspace, changed, oldRows);
      ghost var sent := events[|old(events)|..];
      assert Reports(workspace, sent, changed, before, rows) by {
        forall k | 0 <= k < |sent| ensures sent[k].row.id in oldRows {
          assert sent[k].row.id in Reported(sent);
        }
      }
      ReportsMirror(workspace, sent, changed, before, rows);
    }

    /** dequeueQueueEntry: which of the three mechanisms runs, and whether the target row was dequeued. */
    method DequeueQueueEntry(target: Target, user: Option<int>, reason: string, workspace: Option<int>,
                             household: Option<bool>, now: int)
      returns (r: DequeueOutcome)
      requires Valid()
      requires target.QueueId? ==> user.Some? && household.None?
      modifies this`rows, this`events
      ensures Valid()
      ensures r.WorkspaceRequired? <==> target.OfContact? && household.Some? && workspace.None?
      ensures r.WorkspaceRequired? ==> rows == old(rows) && events == old(events)
      ensures target.QueueId? ==>
        && rows == UpdateWhere(old(rows), ById(target.id, workspace), ToDequeued(now, user, Some(reason)))
        && (r.dequeuedPrimary
          <==> target.id in old(rows) && (workspace.Some? ==> old(rows)[target.id].workspace == workspace.value))
      ensures target.OfContact? && household.None? ==>
        && rows == UpdateWhere(old(rows), ByContact(target.contactId, target.campaignId, workspace),
                               ToDequeued(now, user, Some(reason)))
        && (r.dequeuedPrimary <==> Matching(old(rows), ByContact(target.contactId, target.campaignId, workspace)) != {})
        && rows.Keys == old(rows).Keys
        && forall id | id in rows ::
             rows[id] == if old(rows)[id].contactId == target.contactId
                            && target.campaignId in {None, Some(old(rows)[id].campaignId)}
                            && workspace in {None, Some(old(rows)[id].workspace)}
                         then Finished(old(rows)[id], now, user, reason) else old(rows)[id]
      ensures target.OfContact? && household.Some? && workspace.Some? ==>
        && rows == DequeueContact(old(rows), contacts, target.contactId, household.value, workspace.value, user,
                                  Some(reason), now)
        && (r.dequeuedPrimary <==> Matching(old(rows), PrimaryRows(target.contactId, workspace.value, user)) != {})
      ensures old(events) <= events
      ensures workspace.Some? || target.QueueId? || r.WorkspaceRequired? ==>
        Mirrors(old(rows), events[|old(events)|..], rows)
    {
      match target
      case QueueId(id) =>
        var updated := DequeueById(id, user.value, reason, workspace, now);
        if updated != {} { ghost var some := SomeMember(updated); }
        if id in old(rows) && (workspace.Some? ==> old(rows)[id].workspace == workspace.value) {
          ByIdTouchesOne(old(rows), id, workspace, ToQueued);
        }
        r := Done(updated != {});
      case OfContact(contactId, campaignId) =>
        if household.Some? {
          if workspace.None? {
            SilentWriteMirrorsExactly(rows, rows);
            assert events[|old(events)|..] == [];
            return WorkspaceRequired;
          }
          var primary := DequeueContactRpc(contactId, workspace.value, household.value, user, Some(reason), now);
          r := Done(primary > 0);
        } else {
          var updated := UpdateAndEmit(ByContact(contactId, campaignId, workspace),
                                       ToDequeued(now, user, Some(reason)), workspace);
          r := Done(updated != {});
        }
    }

    /**
     releaseAssignedQueueForUser: read the user's live claims, then requeue those ids. Without a
     workspace clients follow if the released rows share one.
     */
    method ReleaseAssignedQueueForUser(user: int, campaign: int, workspace: Option<int>) returns (released: set<int>)
      requires Valid()
      modifies this`rows, this`events
      ensures Valid()
      ensures released == set id | id in old(rows) && old(rows)[id].campaignId == campaign
                                   && old(rows)[id].dequeuedAt == None && old(rows)[id].assignee == Some(user)
                                   && workspace in {None, Some(old(rows)[id].workspace)}
      ensures rows.Keys == old(rows).Keys
      ensures forall id | id in rows :: rows[id] == if id in released then Freed(old(rows)[id]) else old(rows)[id]
      ensures old(events) <= events
      ensures workspace.Some? ||
        (forall a, b | a in released && b in released :: rows[a].workspace == rows[b].workspace)
        ==> Mirrors(old(rows), events[|old(events)|..], rows)
    {
      released := set id | id in rows && LiveClaim(user, campaign, workspace, rows[id]);
      ghost var mine := released;
      if released == {} {
        SilentWriteMirrorsExactly(rows, rows);
        assert events[|old(events)|..] == [];
        return;
      }
      var ids := released;
      released := UpdateAndEmit(
        (r: Row) => r.id in ids && (workspace.Some? ==> r.workspace == workspace.value), ToQueued, workspace);
      assert forall id | id in released :: id in mine;
      assert forall id | id in mine :: id in released;
      assert released == mine;
    }

    /** reset_stale_campaign_queue_claims: silent; it answers how many claims went back to the queue. */
    method SweepStaleClaims(campaign: int, now: int) returns (reclaimed: nat)
      requires Valid()
      modifies this`rows
      ensures Valid()
      ensures rows == Sweep(old(rows), campaign, now)
      ensures forall id | id in rows :: SweptInFigures(campaign, now, old(rows)[id], rows[id])
      ensures reclaimed == |set id | id in old(rows) && old(rows)[id].campaignId == campaign
                                     && old(rows)[id].dequeuedAt == None && old(rows)[id].state == Some(Assigned)
                                     && old(rows)[id].attemptCount < 5 && old(rows)[id].claimedAt.Some?
                                     && now - old(rows)[id].claimedAt.value > 600_000|
    {
      SweepInFigures(rows, campaign, now);
      reclaimed := |Reclaimed(rows, campaign, now)|;
      forall id | id in rows ensures Shaped(SweepRow(campaign, now, rows[id])) {
        WritersKeepShape(rows[id], ToQueued, 0, campaign, now);
      }
      rows := Sweep(rows, campaign, now);
    }

    /** try_complete_campaign_if_drained. */
    method TryCompleteIfDrained(campaign: int, now: int) returns (completed: bool)
      modifies this`statuses
      ensures completed <==> !HasPendingWork(rows, campaign, now)
      ensures completed <==> forall id | id in rows && rows[id].campaignId == campaign && rows[id].dequeuedAt == None ::
        rows[id].state != Some(Queued)
        && (rows[id].state == Some(Assigned) && rows[id].attemptCount < 5 && rows[id].claimedAt.Some? ==>
              now - rows[id].claimedAt.value > 600_000)
      ensures statuses == if completed && campaign in old(statuses)
                             && (old(statuses)[campaign].Running? || old(statuses)[campaign].Waiting?)
                          then old(statuses)[campaign := Complete] else old(statuses)
    {
      PendingInFigures(rows, campaign, now);
      if HasPendingWork(rows, campaign, now) {
        return false;
      }
      if campaign in statuses && (statuses[campaign].Running? || statuses[campaign].Waiting?) {
        statuses := statuses[campaign := Complete];
      }
      completed := true;
    }

    method RunOp(op: Op)
      requires Valid()
      modifies this`rows, this`events
      ensures Valid()
      ensures old(events) <= events && Mirrors(old(rows), events[|old(events)|..], rows)
    {
      match op
      case ClaimOp(campaign, user, now) =>
        var _, _ := ClaimNextQueueContact(campaign, user, now);
      case RequeueOp(id, workspace) =>
        var _ := RequeueById(id, workspace);
      case DeleteOp(ids, workspace) =>
        var _ := DeleteByIds(ids, workspace);
      case DequeueIdOp(id, user, reason, workspace, now) =>
        var _ := DequeueQueueEntry(QueueId(id), Some(user), reason, workspace, None, now);
      case DequeueContactOp(contactId, campaign, user, reason, workspace, household, now) =>
        var _ := DequeueQueueEntry(OfContact(contactId, campaign), user, reason, Some(workspace), household, now);
      case ReleaseOp(user, campaign, workspace) =>
        var _ := ReleaseAssignedQueueForUser(user, campaign, Some(workspace));
    }

    /**
     The event mirror: after any sequence of claims, requeues, deletes, releases and dequeues by all
     three mechanisms, a client that folds the emitted events holds exactly the table's rows.
     */
    method RunOps(ops: seq<Op>)
      requires Valid()
      modifies this`rows, this`events
      ensures Valid()
      ensures old(events) <= events && Mirrors(old(rows), events[|old(events)|..], rows)
    {
      ghost var tables, batches := [rows], [];
      ghost var first := |events|;
      for i := 0 to |ops|
        invariant Valid() && |tables| == |batches| + 1
        invariant tables[0] == old(rows) && tables[|batches|] == rows
        invariant forall k | 0 <= k < |batches| :: Mirrors(tables[k], batches[k], tables[k + 1])
        invariant old(events) <= events && events[first..] == Flatten(batches)
      {
        ghost var seen := |events|;
        RunOp(ops[i]);
        ghost var batch := events[seen..];
        assert events[first..] == Flatten(batches) + batch;
        assert (batches + [batch])[..|batches|] == batches;
        tables, batches := tables + [rows], batches + [batch];
      }
      RunMirrors(tables, batches);
    }
  }

  /** One UPDATE event on the row's own channel mirrors a change of that row alone. */
  lemma OneEventMirrors(t: Table, t': Table, event: Event)
    requires Keyed(t) && Keyed(t') && SameWorkspaces(t, t')
    requires event.Updated? && event.row.id in t' && event.row == t'[event.row.id]
    requires event.channel == event.row.workspace
    requires forall id | id in t && id != event.row.id :: t'[id] == t[id]
    ensures Mirrors(t, [event], t')
  {
    forall w ensures Fold(w, Channel(w, t), [event]) == Channel(w, t') {
      FoldUpdates(w, t, t', [event]);
      ReportedLast([event]);
      assert Reported([event]) == {event.row.id};
      var patched := Patch(t, t', {event.row.id});
      assert patched.Keys == t'.Keys;
      assert forall id | id in t' :: patched[id] == t'[id];
      assert patched == t';
    }
  }
}
