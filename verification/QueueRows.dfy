/**
 The campaign_queue table as a value: its rows, the column sets the lifecycle transitions
 write, and the statements the dial path runs against it (claim, sweep, pending-work test,
 guarded dequeue). The class in QueueDb and the step system in DialProtocol both use these
 functions, so what is proved here holds for either.
 */
module QueueRows {
  import opened Prelude

  const MAX_ATTEMPTS := 5
  const STALE_AFTER_MS := 600_000

  datatype QueueState = Queued | Assigned | Dequeued | Failed

  datatype Row = Row(
    id: int,
    contactId: int,
    campaignId: int,
    workspace: int,
    queueOrder: Option<int>,
    state: Option<QueueState>,
    assignee: Option<int>,
    providerStatus: Option<string>,
    dequeuedAt: Option<int>,
    dequeuedBy: Option<int>,
    dequeuedReason: Option<string>,
    claimedAt: Option<int>,
    attempts: nat,
    attemptCount: nat)

  datatype Contact = Contact(workspace: int, phone: Option<string>, optOut: bool, household: Option<int>)

  type Table = map<int, Row>
  type Contacts = map<int, Contact>

  ghost predicate Keyed(t: Table) {
    forall id | id in t :: t[id].id == id
  }

  // ---------- transitions ----------

  datatype Update =
    | ToQueued
    | ToAssigned(user: int)
    | ToProviderStatus(status: string)
    | ToDequeued(at: int, actor: Option<int>, reason: Option<string>)

  /** The columns each named transition writes; everything else keeps its value. */
  function Apply(u: Update, r: Row): Row {
    match u
    case ToQueued =>
      r.(state := Some(Queued), assignee := None, providerStatus := None,
         dequeuedAt := None, dequeuedBy := None, dequeuedReason := None)
    case ToAssigned(user) =>
      r.(state := Some(Assigned), assignee := Some(user), providerStatus := None,
         dequeuedAt := None, dequeuedBy := None, dequeuedReason := None)
    case ToProviderStatus(status) =>
      r.(state := Some(Assigned), providerStatus := Some(status))
    case ToDequeued(at, actor, reason) =>
      r.(state := Some(Dequeued), assignee := None, providerStatus := None,
         dequeuedAt := Some(at), dequeuedBy := actor, dequeuedReason := reason)
  }

  function Matching(t: Table, where: Row -> bool): set<int> {
    set id | id in t && where(t[id])
  }

  /** UPDATE ... SET u WHERE where. */
  function UpdateWhere(t: Table, where: Row -> bool, u: Update): Table {
    map id | id in t :: if where(t[id]) then Apply(u, t[id]) else t[id]
  }

  function ById(id: int, workspace: Option<int>): Row -> bool {
    (r: Row) => r.id == id && (workspace.Some? ==> r.workspace == workspace.value)
  }

  function ByContact(contactId: int, campaignId: Option<int>, workspace: Option<int>): Row -> bool {
    (r: Row) => r.contactId == contactId
      && (campaignId.Some? ==> r.campaignId == campaignId.value)
      && (workspace.Some? ==> r.workspace == workspace.value)
  }

  // ---------- claim_next_queue_contact ----------

  predicate HasPhone(contacts: Contacts, contactId: int) {
    contactId in contacts && contacts[contactId].phone.Some? && contacts[contactId].phone.value != ""
  }

  predicate OptedOut(contacts: Contacts, contactId: int) {
    contactId in contacts && contacts[contactId].optOut
  }

  predicate Unclaimed(r: Row) {
    r.state.None? || r.state == Some(Queued)
  }

  predicate Claimable(contacts: Contacts, campaign: int, r: Row) {
    && r.campaignId == campaign
    && Unclaimed(r)
    && r.dequeuedAt.None?
    && HasPhone(contacts, r.contactId)
  }

  /** ORDER BY queue_order ASC, id ASC; NULL orders sort last. */
  predicate Before(a: Row, b: Row) {
    match (a.queueOrder, b.queueOrder)
    case (Some(x), Some(y)) => x < y || (x == y && a.id < b.id)
    case (Some(_), None) => true
    case (None, Some(_)) => false
    case (None, None) => a.id < b.id
  }

  predicate IsNextClaim(t: Table, contacts: Contacts, campaign: int, id: int) {
    && id in t
    && Claimable(contacts, campaign, t[id])
    && forall other | other in t && other != id && Claimable(contacts, campaign, t[other]) :: Before(t[id], t[other])
  }

  function ClaimRow(r: Row, user: int, now: int): Row {
    r.(state := Some(Assigned), assignee := Some(user), providerStatus := None,
       attempts := r.attempts + 1, attemptCount := r.attemptCount + 1, claimedAt := Some(now))
  }

  function Claim(t: Table, id: int, user: int, now: int): Table
    requires id in t
  {
    t[id := ClaimRow(t[id], user, now)]
  }

  /** The rows a user's claim token stands on. */
  function HeldBy(t: Table, user: int): set<int> {
    set id | id in t && t[id].state == Some(Assigned) && t[id].assignee == Some(user)
  }

  lemma {:induction false} LeastClaimable(t: Table, contacts: Contacts, campaign: int, ids: set<int>)
    returns (least: int)
    requires Keyed(t)
    requires ids <= t.Keys
    requires ids != {}
    ensures least in ids && forall other | other in ids && other != least :: Before(t[least], t[other])
    decreases |ids|
  {
    var x := SomeMember(ids);
    var rest := ids - {x};
    assert forall other | other in ids && other != x :: other in rest;
    if rest == {} {
      return x;
    }
    var y := LeastClaimable(t, contacts, campaign, rest);
    least := if Before(t[x], t[y]) then x else y;
  }

  /** A claim comes back empty exactly when nothing is claimable, and otherwise the choice is forced. */
  lemma ClaimExists(t: Table, contacts: Contacts, campaign: int)
    requires Keyed(t)
    ensures (exists id :: IsNextClaim(t, contacts, campaign, id))
        <==> (exists id :: id in t && Claimable(contacts, campaign, t[id]))
    ensures forall a, b | IsNextClaim(t, contacts, campaign, a) && IsNextClaim(t, contacts, campaign, b) :: a == b
  {
    var ids := set id | id in t && Claimable(contacts, campaign, t[id]);
    if ids != {} {
      var least := LeastClaimable(t, contacts, campaign, ids);
      assert IsNextClaim(t, contacts, campaign, least);
    } else {
      forall id | id in t
        ensures !Claimable(contacts, campaign, t[id])
      {
        assert id !in ids;
      }
    }
  }

  /** The queue id claim_next_queue_contact would hand out. */
  ghost function NextClaim(t: Table, contacts: Contacts, campaign: int): (r: Option<int>)
    requires Keyed(t)
    ensures r.Some? ==> IsNextClaim(t, contacts, campaign, r.value)
    ensures r.None? ==> forall id | id in t :: !Claimable(contacts, campaign, t[id])
  {
    ClaimExists(t, contacts, campaign);
    if id :| IsNextClaim(t, contacts, campaign, id) then Some(id) else None
  }

  /**
   The row a claim hands out, column by column: of the campaign, waiting, unfinished, of a contact with a phone;
   of all such rows the first by queue order, rows without an order last, and by id within one order. Nothing
   is handed out exactly when there is no such row.
   */
  lemma ClaimPicksFirst(t: Table, contacts: Contacts, campaign: int)
    requires Keyed(t)
    ensures var waits := (r: Row) =>
        && r.campaignId == campaign && r.state in {None, Some(Queued)} && r.dequeuedAt == None
        && r.contactId in contacts && contacts[r.contactId].phone.Some? && contacts[r.contactId].phone.value != "";
      var first := NextClaim(t, contacts, campaign);
      && (first.None? <==> forall id | id in t :: !waits(t[id]))
      && (first.Some? ==> first.value in t && waits(t[first.value]))
      && (first.Some? ==> forall id | id in t && waits(t[id]) ::
            var a, b := t[first.value].queueOrder, t[id].queueOrder;
            if a == b then first.value <= id else a.Some? && (b.None? || a.value < b.value))
  {
  }

  /** A release undoes a claim but for the attempts it cost and its time. */
  lemma ReleaseUndoesClaim(r: Row, user: int, now: int)
    requires r.state == Some(Queued) && r.assignee == None && r.providerStatus == None
    requires r.dequeuedAt == None && r.dequeuedBy == None && r.dequeuedReason == None
    ensures var claimed := ClaimRow(r, user, now); var released := Apply(ToQueued, claimed);
      && claimed.state == Some(Assigned) && claimed.assignee == Some(user) && claimed.claimedAt == Some(now)
      && released.attempts == r.attempts + 1 && released.attemptCount == r.attemptCount + 1
      && released.claimedAt == Some(now)
      && released.(attempts := r.attempts, attemptCount := r.attemptCount, claimedAt := r.claimedAt) == r
  {
  }

  // ---------- reset_stale_campaign_queue_claims and the drain test ----------

  predicate Exhausted(campaign: int, r: Row) {
    && r.campaignId == campaign
    && r.dequeuedAt.None?
    && r.attemptCount >= MAX_ATTEMPTS
    && (r.state == Some(Queued) || r.state == Some(Assigned) || r.state == Some(Failed))
  }

  function FailRow(r: Row, now: int): Row {
    r.(state := Some(Failed), dequeuedAt := Some(now), assignee := None,
       providerStatus := Some("failed"), claimedAt := None,
       dequeuedReason := if r.dequeuedReason.Some? then r.dequeuedReason else Some("Max queue attempts exceeded"))
  }

  predicate Stale(campaign: int, now: int, r: Row) {
    && r.campaignId == campaign
    && r.dequeuedAt.None?
    && r.state == Some(Assigned)
    && r.claimedAt.Some? && r.claimedAt.value < now - STALE_AFTER_MS
    && r.attemptCount < MAX_ATTEMPTS
  }

  function ReclaimRow(r: Row): Row {
    r.(state := Some(Queued), assignee := None, claimedAt := None, providerStatus := None)
  }

  function SweepRow(campaign: int, now: int, r: Row): Row {
    if Exhausted(campaign, r) then FailRow(r, now)
    else if Stale(campaign, now, r) then ReclaimRow(r)
    else r
  }

  function Sweep(t: Table, campaign: int, now: int): Table {
    map id | id in t :: SweepRow(campaign, now, t[id])
  }

  /** The claims a sweep hands back. */
  function Reclaimed(t: Table, campaign: int, now: int): set<int> {
    set id | id in t && Stale(campaign, now, t[id])
  }

  /** What a sweep owes one row, in figures: five attempts are too many, and a claim over ten minutes old is stale. */
  ghost predicate SweptInFigures(campaign: int, now: int, r: Row, r': Row) {
    var live := r.campaignId == campaign && r.dequeuedAt == None;
    if live && r.attemptCount >= 5 && r.state in {Some(Queued), Some(Assigned), Some(Failed)} then
      r' == r.(state := Some(Failed), assignee := None, claimedAt := None, dequeuedAt := Some(now),
               providerStatus := Some("failed"), dequeuedReason := r'.dequeuedReason)
      && r'.dequeuedReason == (if r.dequeuedReason == None then Some("Max queue attempts exceeded")
                               else r.dequeuedReason)
    else if live && r.state == Some(Assigned) && r.claimedAt.Some? && now - r.claimedAt.value > 600_000 then
      r' == r.(state := Some(Queued), assignee := None, claimedAt := None, providerStatus := None)
    else r' == r
  }

  lemma SweepInFigures(t: Table, campaign: int, now: int)
    ensures Sweep(t, campaign, now).Keys == t.Keys
    ensures forall id | id in t :: SweptInFigures(campaign, now, t[id], Sweep(t, campaign, now)[id])
    ensures Reclaimed(t, campaign, now) == set id | id in t && t[id].campaignId == campaign && t[id].dequeuedAt == None
      && t[id].state == Some(Assigned) && t[id].attemptCount < 5
      && t[id].claimedAt.Some? && now - t[id].claimedAt.value > 600_000
  {
    var overdue := set id | id in t && t[id].campaignId == campaign && t[id].dequeuedAt == None
      && t[id].state == Some(Assigned) && t[id].attemptCount < 5
      && t[id].claimedAt.Some? && now - t[id].claimedAt.value > 600_000;
    assert forall id :: id in Reclaimed(t, campaign, now) <==> id in overdue;
  }

  /**
   A live claim with attempts left goes back to the queue exactly when it is more than ten minutes old, and
   then waits without holder or claim time; a younger one is left alone.
   */
  lemma ClaimSweptExactly(t: Table, campaign: int, now: int, id: int)
    requires id in t && t[id].campaignId == campaign && t[id].dequeuedAt == None
    requires t[id].state == Some(Assigned) && t[id].claimedAt.Some? && t[id].attemptCount < 5
    ensures var r := Sweep(t, campaign, now)[id];
      && (now - t[id].claimedAt.value > 600_000 <==> r != t[id])
      && (r != t[id] <==> r.state == Some(Queued) && r.assignee == None && r.claimedAt == None)
  {
    SweepInFigures(t, campaign, now);
  }

  /** Sweeping again at once changes nothing. */
  lemma SweepSettles(t: Table, campaign: int, now: int)
    ensures Sweep(Sweep(t, campaign, now), campaign, now) == Sweep(t, campaign, now)
  {
    var once := Sweep(t, campaign, now);
    forall id | id in t ensures SweepRow(campaign, now, once[id]) == once[id] {
      assert once[id] == SweepRow(campaign, now, t[id]);
    }
  }

  predicate Pending(campaign: int, now: int, r: Row) {
    && r.campaignId == campaign
    && r.dequeuedAt.None?
    && (r.state == Some(Queued)
        || (r.state == Some(Assigned) && r.claimedAt.Some? && r.claimedAt.value >= now - STALE_AFTER_MS
            && r.attemptCount < MAX_ATTEMPTS))
  }

  predicate HasPendingWork(t: Table, campaign: int, now: int) {
    exists id :: id in t && Pending(campaign, now, t[id])
  }

  /** Work is pending while a live row of the campaign waits, or is held by a claim of ten minutes at most. */
  lemma PendingInFigures(t: Table, campaign: int, now: int)
    ensures HasPendingWork(t, campaign, now) <==>
      exists id :: id in t && t[id].campaignId == campaign && t[id].dequeuedAt == None
        && (t[id].state == Some(Queued)
            || (t[id].state == Some(Assigned) && t[id].attemptCount < 5
                && t[id].claimedAt.Some? && now - t[id].claimedAt.value <= 600_000))
  {
    if id :| id in t && Pending(campaign, now, t[id]) {
      assert t[id].campaignId == campaign;
    }
  }

  // ---------- dequeue_contact ----------

  /** The race guard: unclaimed rows, or the caller's own claim. */
  predicate Guard(actor: Option<int>, r: Row) {
    Unclaimed(r) || (r.state == Some(Assigned) && actor.Some? && r.assignee == actor)
  }

  /** contact c1 join contact c2 on a shared non-null household, both in the workspace. */
  predicate SameHousehold(contacts: Contacts, workspace: int, c1: int, c2: int) {
    && c1 in contacts && c2 in contacts
    && contacts[c1].workspace == workspace && contacts[c2].workspace == workspace
    && contacts[c1].household.Some? && contacts[c1].household == contacts[c2].household
  }

  /** Whose rows the call may touch. */
  predicate InScope(contacts: Contacts, contactId: int, household: bool, workspace: int, r: Row) {
    r.workspace == workspace
    && (r.contactId == contactId || (household && SameHousehold(contacts, workspace, contactId, r.contactId)))
  }

  function PrimaryRows(contactId: int, workspace: int, actor: Option<int>): Row -> bool {
    (r: Row) => r.contactId == contactId && r.workspace == workspace && Guard(actor, r)
  }

  function FanOutRows(contacts: Contacts, contactId: int, workspace: int, actor: Option<int>): Row -> bool {
    (r: Row) =>
      SameHousehold(contacts, workspace, contactId, r.contactId) && r.workspace == workspace && Guard(actor, r)
  }

  /** The function's two UPDATEs, in order. */
  function DequeueContact(t: Table, contacts: Contacts, contactId: int, household: bool, workspace: int,
                          actor: Option<int>, reason: Option<string>, now: int): Table
  {
    var t1 := UpdateWhere(t, PrimaryRows(contactId, workspace, actor), ToDequeued(now, actor, reason));
    if household then
      UpdateWhere(t1, FanOutRows(contacts, contactId, workspace, actor), ToDequeued(now, actor, reason))
    else t1
  }

  /** Together the two UPDATEs change exactly the guarded rows in scope, each once. */
  lemma DequeueContactChanges(t: Table, contacts: Contacts, contactId: int, household: bool, workspace: int,
                              actor: Option<int>, reason: Option<string>, now: int)
    ensures var t' := DequeueContact(t, contacts, contactId, household, workspace, actor, reason, now);
      && t'.Keys == t.Keys
      && (forall id | id in t :: t'[id] ==
            if InScope(contacts, contactId, household, workspace, t[id]) && Guard(actor, t[id])
            then Apply(ToDequeued(now, actor, reason), t[id]) else t[id])
  {
  }

  /**
   The frame promised for a late dequeue: a row some other agent holds is never changed, nothing
   outside the household changes, and with fan-out no row of the household is left claimable.
   */
  lemma GuardedDequeueFrame(t: Table, contacts: Contacts, contactId: int, household: bool, workspace: int,
                            actor: Option<int>, reason: Option<string>, now: int, id: int)
    requires id in t
    ensures var t' := DequeueContact(t, contacts, contactId, household, workspace, actor, reason, now);
      && id in t'
      && (t[id].state == Some(Assigned) && (actor.None? || t[id].assignee != actor) ==> t'[id] == t[id])
      && (!InScope(contacts, contactId, household, workspace, t[id]) ==> t'[id] == t[id])
      && (InScope(contacts, contactId, household, workspace, t[id]) ==> !Unclaimed(t'[id]))
      && (InScope(contacts, contactId, household, workspace, t[id]) && actor.Some? ==> id !in HeldBy(t', actor.value))
      && (t'[id] == t[id] || t'[id] == Apply(ToDequeued(now, actor, reason), t[id]))
  {
    DequeueContactChanges(t, contacts, contactId, household, workspace, actor, reason, now);
  }

  /**
   The guarded dequeue, row by row and column by column: whose rows, which of them, and what is written. The
   contact's own rows and, on request, those of contacts that share its household, all in the workspace, if
   they wait or are the caller's own claim.
   */
  lemma GuardedDequeueInFull(t: Table, contacts: Contacts, contactId: int, household: bool, workspace: int,
                             actor: Option<int>, reason: Option<string>, now: int, id: int)
    requires id in t
    ensures var r, r' := t[id], DequeueContact(t, contacts, contactId, household, workspace, actor, reason, now)[id];
      var related := r.contactId == contactId
        || (household && contactId in contacts && r.contactId in contacts
            && contacts[contactId].workspace == contacts[r.contactId].workspace == workspace
            && contacts[contactId].household != None
            && contacts[contactId].household == contacts[r.contactId].household);
      var free := r.state in {None, Some(Queued)} || (r.state == Some(Assigned) && r.assignee == actor != None);
      r' == if r.workspace == workspace && related && free
            then r.(state := Some(Dequeued), assignee := None, providerStatus := None, dequeuedAt := Some(now),
                    dequeuedBy := actor, dequeuedReason := reason)
            else r
  {
    DequeueContactChanges(t, contacts, contactId, household, workspace, actor, reason, now);
  }

  // ---------- the shape every writer keeps ----------

  /** A finished row has no holder and is not in a claimable state. */
  predicate Shaped(r: Row) {
    r.dequeuedAt.Some? ==> r.assignee.None? && !Unclaimed(r)
  }

  ghost predicate AllShaped(t: Table) {
    forall id | id in t :: Shaped(t[id])
  }

  lemma WritersKeepShape(r: Row, u: Update, user: int, campaign: int, now: int)
    requires Shaped(r)
    ensures Shaped(Apply(u, r))
    ensures r.dequeuedAt.None? ==> Shaped(ClaimRow(r, user, now))
    ensures Shaped(SweepRow(campaign, now, r))
  {
  }

  /** The columns of the four named transitions: the full set but for a provider status, which keeps the rest. */
  lemma TransitionsInFull(r: Row, user: int, status: string, at: int, actor: Option<int>, reason: Option<string>)
    ensures Apply(ToQueued, r) == r.(state := Some(Queued), assignee := None, providerStatus := None,
                                     dequeuedAt := None, dequeuedBy := None, dequeuedReason := None)
    ensures Apply(ToAssigned(user), r) == Apply(ToQueued, r).(state := Some(Assigned), assignee := Some(user))
    ensures Apply(ToProviderStatus(status), r) == r.(state := Some(Assigned), providerStatus := Some(status))
    ensures Apply(ToDequeued(at, actor, reason), r) == Apply(ToQueued, r).(state := Some(Dequeued),
              dequeuedAt := Some(at), dequeuedBy := actor, dequeuedReason := reason)
  {
  }

  /** Only a finished row says who dequeued it. */
  predicate SignedWhenFinished(r: Row) {
    r.dequeuedBy != None ==> r.dequeuedAt != None
  }

  /** All writers keep that, and so a row the sweep fails for its attempts carries nobody's name. */
  lemma FailedBySweepUnsigned(r: Row, u: Update, user: int, campaign: int, now: int)
    requires SignedWhenFinished(r)
    ensures SignedWhenFinished(Apply(u, r)) && SignedWhenFinished(ClaimRow(r, user, now))
    ensures SignedWhenFinished(SweepRow(campaign, now, r))
    ensures Exhausted(campaign, r) ==> SweepRow(campaign, now, r).dequeuedBy == None
  {
  }

  /** The rows rpcDequeueContact photographs before calling the function, by its own WHERE clause. */
  predicate Snapshot(actor: Option<int>, r: Row) {
    r.dequeuedAt.None?
    && (r.state.None? || r.state == Some(Queued)
        || (actor.Some? && r.state == Some(Assigned) && r.assignee == actor))
  }

  /**
   The photograph and the guarded UPDATE pick the same rows for every caller exactly when the row is
   not finished while still looking claimable or held: the UPDATE has no dequeued_at test of its own,
   so such a row would be rewritten for some caller without an event.
   */
  lemma SnapshotMatchesGuardExactly(r: Row)
    ensures (forall actor: Option<int> :: Snapshot(actor, r) <==> Guard(actor, r))
        <==> !(r.dequeuedAt.Some? && (Unclaimed(r) || (r.state == Some(Assigned) && r.assignee.Some?)))
    ensures Shaped(r) ==> forall actor: Option<int> :: Snapshot(actor, r) <==> Guard(actor, r)
  {
    if r.dequeuedAt.Some? && (Unclaimed(r) || (r.state == Some(Assigned) && r.assignee.Some?)) {
      assert Guard(r.assignee, r) && !Snapshot(r.assignee, r);
    }
  }
}
