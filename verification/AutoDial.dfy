/**
 One turn of the predictive dialer. The turn runs between two kinds of neighbours: with
 `alone` set nothing else touches the queue and the turn is a function of the table
 (SerialTurn); without it other agents, sweeps and STOP requests may act ahead of every database
 call of the turn, as far as `Rely` lets them. The same method body is proved in both settings.
 */
module AutoDial {
  import opened Prelude
  import opened QueueRows
  import opened QueueEvents
  import opened QueueDb

  const MAX_WINDOW_SKIPS_PER_TURN := 25
  const CALLED_REASON := "Predictive Dialer called contact"
  const PARKED_REASON := "Ambiguous dial failure — call may exist at Twilio; parked for review, not redialed"

  datatype DialOutcome = Placed | Rejected | Ambiguous

  /** The turn's request and the answers its surroundings will give. */
  datatype Turn = Turn(
    user: int,
    campaign: int,
    workspace: int,
    now: int,
    conferenceEnded: bool,
    sweepOk: bool,
    windowOpen: string -> bool,
    prepOk: int -> bool,
    dial: int -> DialOutcome,
    conferencesClose: bool)

  datatype TurnEnd = Stopped | Drained(outOfWindow: bool) | CloseFailed | PrepFailed | DialRejected | DialAmbiguous
    | Called

  // ---------- the serial turn ----------

  function PhoneOf(contacts: Contacts, contactId: int): string {
    if HasPhone(contacts, contactId) then contacts[contactId].phone.value else ""
  }

  ghost function Requeue(t: Table, turn: Turn, id: int): Table {
    UpdateWhere(t, ById(id, Some(turn.workspace)), ToQueued)
  }

  ghost function NextFor(t: Table, contacts: Contacts, turn: Turn): (r: (Table, Option<int>))
    requires Keyed(t)
    ensures Keyed(r.0) && SameWorkspaces(t, r.0)
    ensures r.1.Some? ==> r.1.value in t
  {
    ClaimLoop(t, contacts, turn.campaign, turn.user, turn.now, MAX_OPT_OUT_CLAIM_SKIPS)
  }

  ghost predicate IsNextFor(t: Table, contacts: Contacts, turn: Turn, t': Table, id: Option<int>)
    requires Keyed(t)
  {
    NextFor(t, contacts, turn).0 == t' && NextFor(t, contacts, turn).1 == id
  }

  datatype Skipping = Skipping(rows: Table, contact: Option<int>, released: set<int>, requests: nat)

  ghost function AddRequests(s: Skipping, n: nat): Skipping {
    s.(requests := s.requests + n)
  }

  /** The window-skip loop: release what is out of window, stop at a repeat or at the bound. */
  ghost function SkipClosed(t: Table, contacts: Contacts, turn: Turn, contact: Option<int>,
                            released: set<int>): (s: Skipping)
    requires Keyed(t)
    requires contact.Some? ==> contact.value in t
    ensures Keyed(s.rows) && s.rows.Keys == t.Keys
    ensures s.contact.Some? ==> s.contact.value in t
    decreases MAX_WINDOW_SKIPS_PER_TURN - |released|, |t|
  {
    if contact.None? || turn.windowOpen(PhoneOf(contacts, t[contact.value].contactId)) then
      Skipping(t, contact, released, 0)
    else
      var t1 := Requeue(t, turn, contact.value);
      var released1 := released + {contact.value};
      if contact.value in released || |released1| >= MAX_WINDOW_SKIPS_PER_TURN then
        Skipping(t1, None, released1, 0)
      else
        var next := NextFor(t1, contacts, turn);
        AddRequests(SkipClosed(next.0, contacts, turn, next.1, released1), 1)
  }

  lemma SkipUnroll(t: Table, contacts: Contacts, turn: Turn, id: int, released: set<int>, t2: Table, next: Option<int>)
    requires Keyed(t) && id in t && !turn.windowOpen(PhoneOf(contacts, t[id].contactId))
    requires id !in released && |released + {id}| < MAX_WINDOW_SKIPS_PER_TURN
    requires IsNextFor(Requeue(t, turn, id), contacts, turn, t2, next)
    ensures Keyed(t2) && (next.Some? ==> next.value in t2)
    ensures SkipClosed(t, contacts, turn, Some(id), released)
      == AddRequests(SkipClosed(t2, contacts, turn, next, released + {id}), 1)
  {
  }

  lemma SkipStops(t: Table, contacts: Contacts, turn: Turn, contact: Option<int>, released: set<int>)
    requires Keyed(t) && (contact.Some? ==> contact.value in t)
    ensures contact.None? || turn.windowOpen(PhoneOf(contacts, t[contact.value].contactId)) ==>
      SkipClosed(t, contacts, turn, contact, released) == Skipping(t, contact, released, 0)
    ensures (contact.Some? && !turn.windowOpen(PhoneOf(contacts, t[contact.value].contactId))
             && (contact.value in released || |released + {contact.value}| >= MAX_WINDOW_SKIPS_PER_TURN)) ==>
      SkipClosed(t, contacts, turn, contact, released)
        == Skipping(Requeue(t, turn, contact.value), None, released + {contact.value}, 0)
  {
  }

  datatype TurnEffect = TurnEffect(rows: Table, placed: seq<int>, requests: nat, end: TurnEnd, completed: bool)

  /** Prep, dial, then park, release or dequeue the claimed row. */
  ghost function DialClaimed(t: Table, contacts: Contacts, turn: Turn, id: int): (r: (Table, seq<int>, TurnEnd))
    requires id in t && Keyed(t)
    ensures r.0.Keys == t.Keys && Keyed(r.0)
  {
    if !turn.prepOk(id) then (Requeue(t, turn, id), [], PrepFailed)
    else match turn.dial(id)
      case Rejected => (Requeue(t, turn, id), [], DialRejected)
      case Ambiguous =>
        (DequeueContact(t, contacts, t[id].contactId, false, turn.workspace, Some(turn.user), Some(PARKED_REASON),
                        turn.now), [id], DialAmbiguous)
      case Placed =>
        (DequeueContact(t, contacts, t[id].contactId, true, turn.workspace, Some(turn.user), Some(CALLED_REASON),
                        turn.now), [id], Called)
  }

  /** What follows the claim loop: a dial, or the end of the conference and the drain test. */
  ghost function FinishTurn(s: Skipping, contacts: Contacts, turn: Turn): (e: TurnEffect)
    requires Keyed(s.rows) && (s.contact.Some? ==> s.contact.value in s.rows)
    ensures e.rows.Keys == s.rows.Keys && Keyed(e.rows)
  {
    if s.contact.Some? then
      var (t2, placed, end) := DialClaimed(s.rows, contacts, turn, s.contact.value);
      TurnEffect(t2, placed, s.requests + 1, end, false)
    else if !turn.conferencesClose then TurnEffect(s.rows, [], s.requests + 1, CloseFailed, false)
    else TurnEffect(s.rows, [], s.requests + 1, Drained(s.released != {}),
                    !HasPendingWork(s.rows, turn.campaign, turn.now))
  }

  ghost function Swept(t: Table, turn: Turn): Table {
    if turn.sweepOk then Sweep(t, turn.campaign, turn.now) else t
  }

  ghost function SerialTurn(t: Table, contacts: Contacts, turn: Turn): (e: TurnEffect)
    requires Keyed(t)
    ensures e.rows.Keys == t.Keys && Keyed(e.rows)
  {
    if turn.conferenceEnded then TurnEffect(t, [], 0, Stopped, false)
    else
      var n := NextFor(Swept(t, turn), contacts, turn);
      FinishTurn(SkipClosed(n.0, contacts, turn, n.1, {}), contacts, turn)
  }

  lemma SerialTurnSteps(t: Table, contacts: Contacts, turn: Turn, t1: Table, first: Option<int>, s: Skipping)
    requires Keyed(t) && !turn.conferenceEnded
    requires IsNextFor(Swept(t, turn), contacts, turn, t1, first)
    requires Keyed(t1) && (first.Some? ==> first.value in t1) && SkipClosed(t1, contacts, turn, first, {}) == s
    ensures SerialTurn(t, contacts, turn) == FinishTurn(s, contacts, turn)
  {
  }

  // ---------- interference ----------

  /** A row the turn may still be working on: gone, still its claim, or finished by someone (STOP). */
  ghost predicate Working(t: Table, user: int, id: int) {
    id !in t || id in HeldBy(t, user) || t[id].dequeuedAt.Some?
  }

  ghost predicate CampaignInWorkspace(t: Table, campaign: int, workspace: int) {
    forall id | id in t && t[id].campaignId == campaign :: t[id].workspace == workspace
  }

  ghost predicate SameIdentity(t: Table, t': Table) {
    forall id | id in t && id in t' ::
      && t'[id].contactId == t[id].contactId
      && t'[id].campaignId == t[id].campaignId
      && t'[id].workspace == t[id].workspace
  }

  /** What everyone else may do to the table while one agent's turn is suspended. */
  ghost predicate Rely(t: Table, t': Table, user: int, row: Option<int>) {
    && HeldBy(t', user) <= HeldBy(t, user)
    && (row.Some? && Working(t, user, row.value) ==> Working(t', user, row.value))
    && (row.Some? && row.value !in t ==> row.value !in t')
    && SameIdentity(t, t')
  }

  /** An await: any number of steps by others. Some rows may be locked by them when it is over. */
  method Await(db: QueueDb, user: int, row: Option<int>, campaign: int, workspace: int, ghost alone: bool)
    returns (locked: set<int>)
    requires db.Valid() && CampaignInWorkspace(db.rows, campaign, workspace)
    modifies db
    ensures db.Valid() && CampaignInWorkspace(db.rows, campaign, workspace)
    ensures Rely(old(db.rows), db.rows, user, row)
    ensures alone ==> db.rows == old(db.rows) && db.contacts == old(db.contacts) && db.statuses == old(db.statuses)
    ensures alone ==> locked == {}
  {
    locked := {};
  }

  datatype ClaimedContact = ClaimedContact(queueId: int, contactId: int, phone: string)

  ghost predicate IsClaimed(t: Table, turn: Turn, c: ClaimedContact) {
    && Working(t, turn.user, c.queueId)
    && (c.queueId in t ==> t[c.queueId].contactId == c.contactId && t[c.queueId].workspace == turn.workspace)
  }

  lemma RequeueDropsHold(t: Table, turn: Turn, id: int)
    requires Keyed(t) && AllShaped(t)
    requires id in t ==> t[id].workspace == turn.workspace
    ensures var t' := Requeue(t, turn, id);
      && HeldBy(t', turn.user) == HeldBy(t, turn.user) - {id}
      && (id in t ==> t'[id].state == Some(Queued) && t'[id].dequeuedAt.None?)
      && (forall other | other in t && other != id :: t'[other] == t[other])
  {
    var t' := Requeue(t, turn, id);
    assert t'.Keys == t.Keys;
    assert forall other | other in t && other != id :: t'[other] == t[other];
    assert forall other :: other in HeldBy(t', turn.user) <==> other in HeldBy(t, turn.user) - {id};
  }

  lemma DequeueDropsHold(t: Table, contacts: Contacts, turn: Turn, c: ClaimedContact, household: bool, reason: string)
    requires Keyed(t) && AllShaped(t) && IsClaimed(t, turn, c)
    ensures var t' := DequeueContact(t, contacts, c.contactId, household, turn.workspace, Some(turn.user), Some(reason),
                                      turn.now);
      && HeldBy(t', turn.user) <= HeldBy(t, turn.user) - {c.queueId}
      && (c.queueId in t ==> t'[c.queueId].dequeuedAt.Some?)
  {
    DequeueContactChanges(t, contacts, c.contactId, household, turn.workspace, Some(turn.user), Some(reason), turn.now);
  }

  lemma SweepDropsHolds(t: Table, campaign: int, now: int, user: int)
    ensures HeldBy(Sweep(t, campaign, now), user) <= HeldBy(t, user)
  {
    forall id | id in HeldBy(Sweep(t, campaign, now), user) ensures id in HeldBy(t, user) {
      assert SweepRow(campaign, now, t[id]).state == Some(Assigned);
    }
  }

  /** No row of the contact, nor of one that shares its household, is left to claim in the workspace. */
  ghost predicate HouseholdDone(t: Table, contacts: Contacts, contactId: int, workspace: int) {
    forall id | id in t && t[id].workspace == workspace
      && (t[id].contactId == contactId
          || (contactId in contacts && t[id].contactId in contacts
              && contacts[contactId].workspace == contacts[t[id].contactId].workspace == workspace
              && contacts[contactId].household != None
              && contacts[contactId].household == contacts[t[id].contactId].household)) ::
      t[id].state !in {None, Some(Queued)}
  }

  lemma FanOutFinishesHousehold(t: Table, contacts: Contacts, turn: Turn, contactId: int, reason: string)
    ensures HouseholdDone(DequeueContact(t, contacts, contactId, true, turn.workspace, Some(turn.user), Some(reason),
                                         turn.now), contacts, contactId, turn.workspace)
  {
    forall id | id in t
      ensures var r := DequeueContact(t, contacts, contactId, true, turn.workspace, Some(turn.user), Some(reason),
                                      turn.now)[id];
        InScope(contacts, contactId, true, turn.workspace, r) ==> r.state !in {None, Some(Queued)} {
      GuardedDequeueFrame(t, contacts, contactId, true, turn.workspace, Some(turn.user), Some(reason), turn.now, id);
    }
  }

  function IdOf(contact: Option<ClaimedContact>): Option<int> {
    if contact.Some? then Some(contact.value.queueId) else None
  }

  ghost predicate HoldsAtMost(t: Table, user: int, base: set<int>, extra: Option<int>) {
    forall id | id in HeldBy(t, user) :: id in base || Some(id) == extra
  }

  lemma HoldsNoMore(t: Table, user: int, base: set<int>)
    requires HoldsAtMost(t, user, base, None)
    ensures HeldBy(t, user) <= base
  {
    forall id | id in HeldBy(t, user) ensures id in base {
    }
  }

  /**
   The claim the turn stands on. Alone, its row is still there and the phone read with it is still the
   contact's.
   */
  ghost predicate HasContact(db: QueueDb, turn: Turn, c: ClaimedContact, alone: bool)
    reads db
  {
    && IsClaimed(db.rows, turn, c)
    && (alone ==> c.queueId in db.rows && c.phone == PhoneOf(db.contacts, db.rows[c.queueId].contactId))
  }

  lemma ClaimedStays(t: Table, t': Table, turn: Turn, c: ClaimedContact)
    requires IsClaimed(t, turn, c) && Rely(t, t', turn.user, Some(c.queueId))
    ensures IsClaimed(t', turn, c)
  {
  }

  /** What one round of the claim loop comes to when nobody interferes. */
  ghost predicate IsRound(t: Table, contacts: Contacts, turn: Turn, t': Table, claimed: Option<int>, optedOut: bool)
    requires Keyed(t)
  {
    && claimed == NextClaim(t, contacts, turn.campaign)
    && (claimed.None? ==> t' == t && !optedOut)
    && (claimed.Some? ==>
          && (optedOut <==> OptedOut(contacts, t[claimed.value].contactId))
          && t' == if optedOut then SkipClaim(t, claimed.value, turn.user, turn.now)
                   else Claim(t, claimed.value, turn.user, turn.now))
  }

  /** The RPC's claim, and what it read with it. */
  method TakeClaim(db: QueueDb, turn: Turn, locked: set<int>, ghost base: set<int>) returns (r: Option<ClaimedContact>)
    requires db.Valid() && CampaignInWorkspace(db.rows, turn.campaign, turn.workspace)
    requires HoldsAtMost(db.rows, turn.user, base, None)
    modifies db`rows
    ensures db.Valid() && CampaignInWorkspace(db.rows, turn.campaign, turn.workspace)
    ensures IdOf(r) == NextClaim(old(db.rows) - locked, db.contacts, turn.campaign)
    ensures r.None? ==> db.rows == old(db.rows)
    ensures r.Some? ==>
      && r.value.queueId in old(db.rows) && db.rows == Claim(old(db.rows), r.value.queueId, turn.user, turn.now)
      && IsClaimed(db.rows, turn, r.value) && r.value.phone == PhoneOf(db.contacts, r.value.contactId)
      && r.value.contactId == db.rows[r.value.queueId].contactId
    ensures HoldsAtMost(db.rows, turn.user, base, IdOf(r))
  {
    var id := db.ClaimRpc(turn.campaign, turn.user, turn.now, locked);
    r := None;
    if id.Some? {
      r := Some(ClaimedContact(id.value, db.rows[id.value].contactId,
        PhoneOf(db.contacts, db.rows[id.value].contactId)));
    }
  }

  /** The claimed row is read again and put on its workspace's channel, if it is still there. */
  method ReportClaim(db: QueueDb, turn: Turn, c: ClaimedContact, ghost alone: bool) returns (workspace: Option<int>)
    requires db.Valid() && CampaignInWorkspace(db.rows, turn.campaign, turn.workspace) && IsClaimed(db.rows, turn, c)
    modifies db
    ensures db.Valid() && CampaignInWorkspace(db.rows, turn.campaign, turn.workspace)
    ensures IsClaimed(db.rows, turn, c) && HeldBy(db.rows, turn.user) <= HeldBy(old(db.rows), turn.user)
    ensures workspace.Some? ==> workspace.value == turn.workspace
    ensures workspace.None? ==> c.queueId !in db.rows
    ensures alone ==> db.rows == old(db.rows) && db.contacts == old(db.contacts) && db.statuses == old(db.statuses)
  {
    ghost var t0 := db.rows;
    var _ := Await(db, turn.user, Some(c.queueId), turn.campaign, turn.workspace, alone);
    ClaimedStays(t0, db.rows, turn, c);
    workspace := None;
    if c.queueId in db.rows {
      var row := db.rows[c.queueId];
      workspace := Some(row.workspace);
      ghost var t1 := db.rows;
      var _ := Await(db, turn.user, Some(c.queueId), turn.campaign, turn.workspace, alone);
      ClaimedStays(t1, db.rows, turn, c);
      db.EmitClaimed(row);
    }
  }

  /** The opt-out guard: a claim of an opted-out contact is dequeued by its id. */
  method GuardOptOut(db: QueueDb, turn: Turn, c: ClaimedContact, workspace: Option<int>, ghost base: set<int>,
                     ghost alone: bool)
    returns (optedOut: bool)
    requires db.Valid() && CampaignInWorkspace(db.rows, turn.campaign, turn.workspace) && IsClaimed(db.rows, turn, c)
    requires HoldsAtMost(db.rows, turn.user, base, Some(c.queueId))
    requires workspace.Some? ==> workspace.value == turn.workspace
    modifies db
    ensures db.Valid() && CampaignInWorkspace(db.rows, turn.campaign, turn.workspace)
    ensures HoldsAtMost(db.rows, turn.user, base, if optedOut then None else Some(c.queueId))
    ensures !optedOut ==> IsClaimed(db.rows, turn, c)
    ensures alone ==> db.contacts == old(db.contacts) && db.statuses == old(db.statuses)
    ensures alone ==> (optedOut <==> OptedOut(db.contacts, c.contactId))
    ensures alone ==>
      db.rows == if optedOut then UpdateWhere(old(db.rows), ById(c.queueId, workspace), OptOut(turn)) else old(db.rows)
  {
    ghost var t0 := db.rows;
    var _ := Await(db, turn.user, Some(c.queueId), turn.campaign, turn.workspace, alone);
    ClaimedStays(t0, db.rows, turn, c);
    optedOut := OptedOut(db.contacts, c.contactId);
    if optedOut {
      ghost var t1 := db.rows;
      var _ := Await(db, turn.user, Some(c.queueId), turn.campaign, turn.workspace, alone);
      ClaimedStays(t1, db.rows, turn, c);
      OptOutDropsHold(db.rows, turn, c.queueId, workspace);
      var _ := db.DequeueById(c.queueId, turn.user, OPTED_OUT_REASON, workspace, turn.now);
    }
  }

  function OptOut(turn: Turn): Update {
    ToDequeued(turn.now, Some(turn.user), Some(OPTED_OUT_REASON))
  }

  lemma OptOutDropsHold(t: Table, turn: Turn, id: int, workspace: Option<int>)
    requires Keyed(t) && (id in t && workspace.Some? ==> t[id].workspace == workspace.value)
    ensures var t' := UpdateWhere(t, ById(id, workspace), OptOut(turn));
      HeldBy(t', turn.user) == HeldBy(t, turn.user) - {id} && t'.Keys == t.Keys && SameIdentity(t, t')
  {
    var t' := UpdateWhere(t, ById(id, workspace), OptOut(turn));
    assert t'.Keys == t.Keys;
    assert forall other :: other in HeldBy(t', turn.user) <==> other in HeldBy(t, turn.user) - {id};
  }

  /** One round of claimNextQueueContact, open to interference ahead of each of its reads and writes. */
  method ClaimRound(db: QueueDb, turn: Turn, ghost base: set<int>, ghost alone: bool)
    returns (claimed: Option<ClaimedContact>, optedOut: bool)
    requires db.Valid() && CampaignInWorkspace(db.rows, turn.campaign, turn.workspace)
    requires HoldsAtMost(db.rows, turn.user, base, None)
    modifies db
    ensures db.Valid() && CampaignInWorkspace(db.rows, turn.campaign, turn.workspace)
    ensures HoldsAtMost(db.rows, turn.user, base, if optedOut then None else IdOf(claimed))
    ensures claimed.Some? && !optedOut ==> HasContact(db, turn, claimed.value, alone)
    ensures alone ==> db.contacts == old(db.contacts) && db.statuses == old(db.statuses)
    ensures alone ==> IsRound(old(db.rows), db.contacts, turn, db.rows, IdOf(claimed), optedOut)
  {
    var locked := Await(db, turn.user, None, turn.campaign, turn.workspace, alone);
    ghost var t0 := db.rows;
    assert alone ==> t0 - locked == t0;
    claimed := TakeClaim(db, turn, locked, base);
    optedOut := false;
    if claimed.Some? {
      var c := claimed.value;
      var workspace := ReportClaim(db, turn, c, alone);
      ghost var t1 := db.rows;
      optedOut := GuardOptOut(db, turn, c, workspace, base, alone);
      if alone && optedOut {
        ByIdTouchesOne(t1, c.queueId, workspace, OptOut(turn));
        assert db.rows == SkipClaim(t0, c.queueId, turn.user, turn.now);
      }
    }
  }

  /** The rest of the claim loop has the same outcome from `t1` as the whole had from `t`. */
  ghost predicate LoopsAlike(t: Table, t1: Table, contacts: Contacts, turn: Turn, rounds: nat)
    requires Keyed(t) && Keyed(t1)
  {
    && NextFor(t, contacts, turn).0 == ClaimLoop(t1, contacts, turn.campaign, turn.user, turn.now, rounds).0
    && NextFor(t, contacts, turn).1 == ClaimLoop(t1, contacts, turn.campaign, turn.user, turn.now, rounds).1
  }

  lemma LoopsStart(t: Table, contacts: Contacts, turn: Turn)
    requires Keyed(t)
    ensures LoopsAlike(t, t, contacts, turn, MAX_OPT_OUT_CLAIM_SKIPS)
  {
  }

  lemma LoopsEnd(t: Table, t1: Table, contacts: Contacts, turn: Turn)
    requires Keyed(t) && Keyed(t1) && LoopsAlike(t, t1, contacts, turn, 0)
    ensures IsNextFor(t, contacts, turn, t1, None)
  {
  }

  lemma RoundsGoOn(t: Table, t1: Table, t2: Table, contacts: Contacts, turn: Turn, rounds: nat, claimed: Option<int>,
                   optedOut: bool)
    requires Keyed(t) && Keyed(t1) && Keyed(t2) && rounds > 0
    requires LoopsAlike(t, t1, contacts, turn, rounds) && IsRound(t1, contacts, turn, t2, claimed, optedOut)
    ensures optedOut ==> LoopsAlike(t, t2, contacts, turn, rounds - 1)
    ensures !optedOut ==> IsNextFor(t, contacts, turn, t2, claimed)
  {
  }

  /** claimNextQueueContact as the turn runs it: at most ten rounds, skipping opted-out contacts. */
  method ClaimContact(db: QueueDb, turn: Turn, ghost base: set<int>, ghost alone: bool)
    returns (r: Option<ClaimedContact>, rpcs: nat)
    requires db.Valid() && CampaignInWorkspace(db.rows, turn.campaign, turn.workspace)
    requires HoldsAtMost(db.rows, turn.user, base, None)
    modifies db
    ensures db.Valid() && CampaignInWorkspace(db.rows, turn.campaign, turn.workspace)
    ensures rpcs <= 10
    ensures HoldsAtMost(db.rows, turn.user, base, IdOf(r))
    ensures r.Some? ==> HasContact(db, turn, r.value, alone)
    ensures alone ==> db.contacts == old(db.contacts) && db.statuses == old(db.statuses)
    ensures alone ==> IsNextFor(old(db.rows), db.contacts, turn, db.rows, IdOf(r))
  {
    rpcs := 0;
    ghost var left: nat := MAX_OPT_OUT_CLAIM_SKIPS;
    LoopsStart(db.rows, db.contacts, turn);
    while rpcs < MAX_OPT_OUT_CLAIM_SKIPS
      invariant rpcs + left == MAX_OPT_OUT_CLAIM_SKIPS
      invariant db.Valid() && CampaignInWorkspace(db.rows, turn.campaign, turn.workspace)
      invariant HoldsAtMost(db.rows, turn.user, base, None)
      invariant alone ==> db.contacts == old(db.contacts) && db.statuses == old(db.statuses)
      invariant alone ==> LoopsAlike(old(db.rows), db.rows, db.contacts, turn, left)
    {
      ghost var before := db.rows;
      var claimed, optedOut := ClaimRound(db, turn, base, alone);
      if alone {
        RoundsGoOn(old(db.rows), before, db.rows, db.contacts, turn, left, IdOf(claimed), optedOut);
      }
      rpcs := rpcs + 1;
      if !optedOut {
        return claimed, rpcs;
      }
      left := left - 1;
    }
    if alone {
      LoopsEnd(old(db.rows), db.rows, db.contacts, turn);
    }
    r := None;
  }

  /** An out-of-window claim goes back to the queue. */
  method ReleaseClaimed(db: QueueDb, turn: Turn, c: ClaimedContact, ghost base: set<int>, ghost alone: bool)
    requires db.Valid() && CampaignInWorkspace(db.rows, turn.campaign, turn.workspace) && IsClaimed(db.rows, turn, c)
    requires HoldsAtMost(db.rows, turn.user, base, Some(c.queueId))
    modifies db
    ensures db.Valid() && CampaignInWorkspace(db.rows, turn.campaign, turn.workspace)
    ensures HoldsAtMost(db.rows, turn.user, base, None)
    ensures alone ==> db.contacts == old(db.contacts) && db.statuses == old(db.statuses)
    ensures alone ==> db.rows == Requeue(old(db.rows), turn, c.queueId)
  {
    var _ := Await(db, turn.user, Some(c.queueId), turn.campaign, turn.workspace, alone);
    RequeueDropsHold(db.rows, turn, c.queueId);
    var updated := db.RequeueById(c.queueId, Some(turn.workspace));
  }

  ghost predicate IsSkipClosed(t: Table, contacts: Contacts, turn: Turn, first: Option<int>, rows: Table,
                               contact: Option<int>, released: set<int>, asked: nat)
    requires Keyed(t) && (first.Some? ==> first.value in t)
  {
    SkipClosed(t, contacts, turn, first, {}) == Skipping(rows, contact, released, asked)
  }

  /** What is left of the window-skip loop has the same outcome as the whole, but for the requests made. */
  ghost predicate SkipsTo(t: Table, contacts: Contacts, turn: Turn, first: Option<int>, t1: Table, contact: Option<int>,
                          released: set<int>, asked: nat)
    requires Keyed(t) && Keyed(t1)
  {
    && (first.Some? ==> first.value in t)
    && (contact.Some? ==> contact.value in t1)
    && SkipClosed(t, contacts, turn, first, {}) == AddRequests(SkipClosed(t1, contacts, turn, contact, released), asked)
  }

  lemma SkipsOn(t: Table, contacts: Contacts, turn: Turn, first: Option<int>, t1: Table, id: int, released: set<int>,
                asked: nat, t2: Table, next: Option<int>)
    requires Keyed(t) && Keyed(t1) && SkipsTo(t, contacts, turn, first, t1, Some(id), released, asked)
    requires !turn.windowOpen(PhoneOf(contacts, t1[id].contactId))
    requires id !in released && |released + {id}| < MAX_WINDOW_SKIPS_PER_TURN
    requires IsNextFor(Requeue(t1, turn, id), contacts, turn, t2, next)
    ensures Keyed(t2) && SkipsTo(t, contacts, turn, first, t2, next, released + {id}, asked + 1)
  {
    SkipUnroll(t1, contacts, turn, id, released, t2, next);
  }

  lemma SkipsEnd(t: Table, contacts: Contacts, turn: Turn, first: Option<int>, t1: Table, contact: Option<int>,
                 released: set<int>, asked: nat)
    requires Keyed(t) && Keyed(t1) && SkipsTo(t, contacts, turn, first, t1, contact, released, asked)
    requires contact.Some? ==> turn.windowOpen(PhoneOf(contacts, t1[contact.value].contactId))
    ensures IsSkipClosed(t, contacts, turn, first, t1, contact, released, asked)
  {
    SkipStops(t1, contacts, turn, contact, released);
  }

  lemma SkipsGiveUp(t: Table, contacts: Contacts, turn: Turn, first: Option<int>, t1: Table, id: int,
                    released: set<int>, asked: nat)
    requires Keyed(t) && Keyed(t1) && SkipsTo(t, contacts, turn, first, t1, Some(id), released, asked)
    requires !turn.windowOpen(PhoneOf(contacts, t1[id].contactId))
    requires id in released || |released + {id}| >= MAX_WINDOW_SKIPS_PER_TURN
    ensures IsSkipClosed(t, contacts, turn, first, Requeue(t1, turn, id), None, released + {id}, asked)
  {
    SkipStops(t1, contacts, turn, Some(id), released);
  }

  /**
   The window-skip loop: claim until a contact is inside its calling window, releasing the others. It gives up
   when a claim comes back empty or with a row released before, which leaves as many claims as rows released,
   or when 25 rows have been released.
   */
  method SkipClosedContacts(db: QueueDb, turn: Turn, first: Option<ClaimedContact>, ghost base: set<int>,
                            ghost alone: bool)
    returns (contact: Option<ClaimedContact>, released: set<int>, asked: nat)
    requires db.Valid() && CampaignInWorkspace(db.rows, turn.campaign, turn.workspace)
    requires first.Some? ==> HasContact(db, turn, first.value, alone)
    requires HoldsAtMost(db.rows, turn.user, base, IdOf(first))
    modifies db
    ensures db.Valid() && CampaignInWorkspace(db.rows, turn.campaign, turn.workspace)
    ensures asked <= |released| <= 25 && asked < 25
    ensures contact.None? ==> asked == |released| || |released| == 25
    ensures HoldsAtMost(db.rows, turn.user, base, IdOf(contact))
    ensures contact.Some? ==> HasContact(db, turn, contact.value, alone) && turn.windowOpen(contact.value.phone)
    ensures alone ==> db.contacts == old(db.contacts) && db.statuses == old(db.statuses)
    ensures alone ==>
      IsSkipClosed(old(db.rows), db.contacts, turn, IdOf(first), db.rows, IdOf(contact), released, asked)
  {
    contact, released, asked := first, {}, 0;
    ghost var t0 := db.rows;
    while contact.Some?
      invariant db.Valid() && CampaignInWorkspace(db.rows, turn.campaign, turn.workspace)
      invariant asked == |released| < MAX_WINDOW_SKIPS_PER_TURN
      invariant HoldsAtMost(db.rows, turn.user, base, IdOf(contact))
      invariant contact.Some? ==> HasContact(db, turn, contact.value, alone)
      invariant alone ==> db.contacts == old(db.contacts) && db.statuses == old(db.statuses)
      invariant alone ==> SkipsTo(t0, db.contacts, turn, IdOf(first), db.rows, IdOf(contact), released, asked)
      decreases MAX_WINDOW_SKIPS_PER_TURN - |released|
    {
      if turn.windowOpen(contact.value.phone) {
        if alone {
          SkipsEnd(t0, db.contacts, turn, IdOf(first), db.rows, IdOf(contact), released, asked);
        }
        return;
      }
      ghost var before, seen := db.rows, released;
      var id := contact.value.queueId;
      var alreadyReleased := id in released;
      released := released + {id};
      assert alreadyReleased ==> released == seen;
      assert |released| == |seen| + if alreadyReleased then 0 else 1;
      ReleaseClaimed(db, turn, contact.value, base, alone);
      if alreadyReleased || |released| >= MAX_WINDOW_SKIPS_PER_TURN {
        if alone {
          SkipsGiveUp(t0, db.contacts, turn, IdOf(first), before, id, seen, asked);
        }
        contact := None;
        return;
      }
      var rpcs;
      contact, rpcs := ClaimContact(db, turn, base, alone);
      if alone {
        SkipsOn(t0, db.contacts, turn, IdOf(first), before, id, seen, asked, db.rows, IdOf(contact));
      }
      asked := asked + 1;
    }
    if alone {
      SkipsEnd(t0, db.contacts, turn, IdOf(first), db.rows, None, released, asked);
    }
  }

  /** The guarded dequeue of the claimed contact, with its household or without. */
  method DequeueClaimed(db: QueueDb, turn: Turn, c: ClaimedContact, ghost base: set<int>, household: bool,
                        reason: string)
    requires db.Valid() && IsClaimed(db.rows, turn, c) && HoldsAtMost(db.rows, turn.user, base, Some(c.queueId))
    modifies db`rows, db`events
    ensures db.Valid() && HoldsAtMost(db.rows, turn.user, base, None)
    ensures c.queueId in db.rows ==> db.rows[c.queueId].dequeuedAt.Some? && db.rows[c.queueId].contactId == c.contactId
    ensures household ==> HouseholdDone(db.rows, db.contacts, c.contactId, turn.workspace)
    ensures db.rows == DequeueContact(old(db.rows), db.contacts, c.contactId, household, turn.workspace,
                                      Some(turn.user), Some(reason), turn.now)
  {
    DequeueDropsHold(db.rows, db.contacts, turn, c, household, reason);
    if household {
      FanOutFinishesHousehold(db.rows, db.contacts, turn, c.contactId, reason);
    }
    var _ := db.DequeueQueueEntry(OfContact(c.contactId, None), Some(turn.user), reason, Some(turn.workspace),
      Some(household), turn.now);
  }

  /** From a claimed, in-window contact to the write that ends its claim. */
  method DialContact(db: QueueDb, turn: Turn, c: ClaimedContact, ghost base: set<int>, ghost alone: bool)
    returns (placed: seq<int>, end: TurnEnd)
    requires db.Valid() && CampaignInWorkspace(db.rows, turn.campaign, turn.workspace) && IsClaimed(db.rows, turn, c)
    requires alone ==> c.queueId in db.rows
    requires HoldsAtMost(db.rows, turn.user, base, Some(c.queueId))
    modifies db
    ensures db.Valid()
    ensures HoldsAtMost(db.rows, turn.user, base, None)
    ensures placed == if end.Called? || end.DialAmbiguous? then [c.queueId] else []
    ensures end.Called? || end.DialAmbiguous? || end.DialRejected? || end.PrepFailed?
    ensures c.queueId in db.rows ==>
      if placed != [] then db.rows[c.queueId].dequeuedAt.Some?
      else db.rows[c.queueId].state == Some(Queued) && db.rows[c.queueId].dequeuedAt.None?
    ensures end.Called? ==> HouseholdDone(db.rows, db.contacts, c.contactId, turn.workspace)
    ensures c.queueId in db.rows ==> db.rows[c.queueId].contactId == c.contactId
    ensures alone ==> (db.rows, placed, end) == DialClaimed(old(db.rows), db.contacts, turn, c.queueId)
    ensures alone ==> db.contacts == old(db.contacts) && db.statuses == old(db.statuses)
  {
    var _ := Await(db, turn.user, Some(c.queueId), turn.campaign, turn.workspace, alone);
    if !turn.prepOk(c.queueId) {
      RequeueDropsHold(db.rows, turn, c.queueId);
      var updated := db.RequeueById(c.queueId, Some(turn.workspace));
      return [], PrepFailed;
    }
    var outcome := turn.dial(c.queueId);
    var _ := Await(db, turn.user, Some(c.queueId), turn.campaign, turn.workspace, alone);
    match outcome
    case Rejected =>
      RequeueDropsHold(db.rows, turn, c.queueId);
      var updated := db.RequeueById(c.queueId, Some(turn.workspace));
      return [], DialRejected;
    case Ambiguous =>
      DequeueClaimed(db, turn, c, base, false, PARKED_REASON);
      return [c.queueId], DialAmbiguous;
    case Placed =>
      DequeueClaimed(db, turn, c, base, true, CALLED_REASON);
      return [c.queueId], Called;
  }

  /** The best-effort sweep at the start of a turn. */
  method SweepFirst(db: QueueDb, turn: Turn, ghost base: set<int>, ghost alone: bool)
    requires db.Valid() && CampaignInWorkspace(db.rows, turn.campaign, turn.workspace)
    requires HoldsAtMost(db.rows, turn.user, base, None)
    modifies db
    ensures db.Valid() && CampaignInWorkspace(db.rows, turn.campaign, turn.workspace)
    ensures HoldsAtMost(db.rows, turn.user, base, None)
    ensures alone ==> db.rows == Swept(old(db.rows), turn)
    ensures alone ==> db.contacts == old(db.contacts) && db.statuses == old(db.statuses)
  {
    var _ := Await(db, turn.user, None, turn.campaign, turn.workspace, alone);
    if turn.sweepOk {
      SweepDropsHolds(db.rows, turn.campaign, turn.now, turn.user);
      var reclaimed := db.SweepStaleClaims(turn.campaign, turn.now);
    }
  }

  method ClaimFirst(db: QueueDb, turn: Turn, ghost base: set<int>, ghost alone: bool)
    returns (first: Option<ClaimedContact>)
    requires db.Valid() && CampaignInWorkspace(db.rows, turn.campaign, turn.workspace)
    requires HoldsAtMost(db.rows, turn.user, base, None)
    modifies db
    ensures db.Valid() && CampaignInWorkspace(db.rows, turn.campaign, turn.workspace)
    ensures HoldsAtMost(db.rows, turn.user, base, IdOf(first))
    ensures first.Some? ==> HasContact(db, turn, first.value, alone)
    ensures alone ==> IsNextFor(Swept(old(db.rows), turn), db.contacts, turn, db.rows, IdOf(first))
    ensures alone ==> db.contacts == old(db.contacts) && db.statuses == old(db.statuses)
  {
    SweepFirst(db, turn, base, alone);
    var rpcs;
    first, rpcs := ClaimContact(db, turn, base, alone);
  }

  /** The turn up to the contact it will dial: sweep, first claim, window skips. */
  method FindContact(db: QueueDb, turn: Turn, ghost base: set<int>, ghost alone: bool)
    returns (contact: Option<ClaimedContact>, released: set<int>, requests: nat)
    requires db.Valid() && CampaignInWorkspace(db.rows, turn.campaign, turn.workspace)
    requires !turn.conferenceEnded && HoldsAtMost(db.rows, turn.user, base, None)
    modifies db
    ensures db.Valid() && CampaignInWorkspace(db.rows, turn.campaign, turn.workspace)
    ensures 0 < requests <= 25
    ensures HoldsAtMost(db.rows, turn.user, base, IdOf(contact))
    ensures contact.Some? ==> HasContact(db, turn, contact.value, alone) && turn.windowOpen(contact.value.phone)
    ensures alone ==> db.contacts == old(db.contacts) && db.statuses == old(db.statuses)
    ensures alone ==>
      SerialTurn(old(db.rows), old(db.contacts), turn)
        == FinishTurn(Skipping(db.rows, IdOf(contact), released, requests - 1), db.contacts, turn)
  {
    var first := ClaimFirst(db, turn, base, alone);
    ghost var claimed := db.rows;
    var asked;
    contact, released, asked := SkipClosedContacts(db, turn, first, base, alone);
    requests := 1 + asked;
    if alone {
      SerialTurnSteps(old(db.rows), db.contacts, turn, claimed, IdOf(first),
        Skipping(db.rows, IdOf(contact), released, asked));
    }
  }

  /** Dial the contact, or close the conferences and try to complete the campaign. */
  method Finish(db: QueueDb, turn: Turn, contact: Option<ClaimedContact>, released: set<int>, requests: nat,
                ghost base: set<int>, ghost alone: bool)
    returns (placed: seq<int>, end: TurnEnd, completed: bool)
    requires db.Valid() && CampaignInWorkspace(db.rows, turn.campaign, turn.workspace)
    requires contact.Some? ==> IsClaimed(db.rows, turn, contact.value) && (alone ==> contact.value.queueId in db.rows)
    requires requests > 0 && HoldsAtMost(db.rows, turn.user, base, IdOf(contact))
    modifies db
    ensures db.Valid()
    ensures HoldsAtMost(db.rows, turn.user, base, None)
    ensures |placed| <= 1 && (placed != [] <==> end.Called? || end.DialAmbiguous?)
    ensures forall id | id in placed && id in db.rows :: db.rows[id].dequeuedAt.Some?
    ensures end.Called? ==> forall id | id in placed && id in db.rows ::
      HouseholdDone(db.rows, db.contacts, db.rows[id].contactId, turn.workspace)
    ensures completed ==> end.Drained? && !HasPendingWork(db.rows, turn.campaign, turn.now)
    ensures alone ==>
      TurnEffect(db.rows, placed, requests, end, completed)
        == FinishTurn(Skipping(old(db.rows), IdOf(contact), released, requests - 1), db.contacts, turn)
    ensures alone ==> db.contacts == old(db.contacts)
  {
    placed, completed := [], false;
    if contact.Some? {
      placed, end := DialContact(db, turn, contact.value, base, alone);
      return;
    }
    var _ := Await(db, turn.user, None, turn.campaign, turn.workspace, alone);
    if !turn.conferencesClose {
      return [], CloseFailed, false;
    }
    completed := db.TryCompleteIfDrained(turn.campaign, turn.now);
    end := Drained(released != {});
  }

  /**
   runAutoDialerTurn. Whatever the neighbours do within Rely, the turn ends holding no claim it did
   not hold before, has placed at most one possibly-live call, and made at most 25 claim requests of
   at most 10 RPC claims each; the row of a possibly-live call ends finished and the row of a failed
   dial ends queued. Alone, the turn is SerialTurn.
   */
  method RunAutoDialerTurn(db: QueueDb, turn: Turn, ghost alone: bool)
    returns (end: TurnEnd, placed: seq<int>, requests: nat, completed: bool)
    requires db.Valid() && CampaignInWorkspace(db.rows, turn.campaign, turn.workspace)
    modifies db
    ensures db.Valid()
    ensures HeldBy(db.rows, turn.user) <= old(HeldBy(db.rows, turn.user))
    ensures |placed| <= 1 && (placed != [] <==> end.Called? || end.DialAmbiguous?)
    ensures forall id | id in placed && id in db.rows :: db.rows[id].dequeuedAt.Some?
    ensures end.Called? ==> forall id | id in placed && id in db.rows ::
      HouseholdDone(db.rows, db.contacts, db.rows[id].contactId, turn.workspace)
    ensures requests <= 25
    ensures completed ==> end.Drained? && !HasPendingWork(db.rows, turn.campaign, turn.now)
    ensures alone ==>
      TurnEffect(db.rows, placed, requests, end, completed) == SerialTurn(old(db.rows), old(db.contacts), turn)
  {
    placed, requests, completed := [], 0, false;
    if turn.conferenceEnded {
      return Stopped, [], 0, false;
    }
    ghost var base := HeldBy(db.rows, turn.user);
    var contact, released;
    contact, released, requests := FindContact(db, turn, base, alone);
    placed, end, completed := Finish(db, turn, contact, released, requests, base, alone);
    HoldsNoMore(db.rows, turn.user, base);
  }

  // ---------- what the serial turn does to a queue ----------

  /** The contact the turn claims first. */
  ghost function FirstFor(t: Table, contacts: Contacts, turn: Turn): Option<int>
    requires Keyed(t)
  {
    NextFor(Swept(t, turn), contacts, turn).1
  }

  /** A released row keeps its place, so the very next claim is the row just released. */
  lemma ReleasedRowIsClaimedAgain(t: Table, contacts: Contacts, turn: Turn, id: int)
    requires Keyed(t) && NextFor(t, contacts, turn).1 == Some(id)
    requires t[id].workspace == turn.workspace
    ensures var t1 := Requeue(NextFor(t, contacts, turn).0, turn, id);
      && IsNextFor(t1, contacts, turn, Claim(t1, id, turn.user, turn.now), Some(id))
      && t1[id] == Apply(ToQueued, ClaimRow(t[id], turn.user, turn.now))
  {
    var t' := NextFor(t, contacts, turn).0;
    var t1 := Requeue(t', turn, id);
    ClaimHandsOutFirst(t, contacts, turn.campaign, turn.user, turn.now, MAX_OPT_OUT_CLAIM_SKIPS, id);
    forall other | other in t1 && other != id && Claimable(contacts, turn.campaign, t1[other])
      ensures Before(t1[id], t1[other])
    {
      ClaimHandsOutFirst(t, contacts, turn.campaign, turn.user, turn.now, MAX_OPT_OUT_CLAIM_SKIPS, other);
    }
    assert IsNextClaim(t1, contacts, turn.campaign, id);
    ClaimExists(t1, contacts, turn.campaign);
  }

  ghost function ReleasedTwice(r: Row, turn: Turn): Row {
    var once := Apply(ToQueued, ClaimRow(r, turn.user, turn.now));
    Apply(ToQueued, ClaimRow(once, turn.user, turn.now))
  }

  /** The whole effect of a first claim that is out of window: two claims of the same row, no more. */
  lemma ClosedHeadEndsTurn(t: Table, contacts: Contacts, turn: Turn, id: int)
    requires Keyed(t) && NextFor(t, contacts, turn).1 == Some(id)
    requires t[id].workspace == turn.workspace
    requires !turn.windowOpen(PhoneOf(contacts, t[id].contactId))
    ensures var t1 := NextFor(t, contacts, turn).0;
      var s := SkipClosed(t1, contacts, turn, Some(id), {});
      && s.contact.None? && s.requests == 1 && s.released == {id}
      && s.rows == t1[id := ReleasedTwice(t[id], turn)]
  {
    var t1 := NextFor(t, contacts, turn).0;
    var t2 := Requeue(t1, turn, id);
    var t3 := Claim(t2, id, turn.user, turn.now);
    ClaimHandsOutFirst(t, contacts, turn.campaign, turn.user, turn.now, MAX_OPT_OUT_CLAIM_SKIPS, id);
    ReleasedRowIsClaimedAgain(t, contacts, turn, id);
    ByIdTouchesOne(t1, id, Some(turn.workspace), ToQueued);
    ByIdTouchesOne(t3, id, Some(turn.workspace), ToQueued);
    assert Apply(ToQueued, t3[id]) == ReleasedTwice(t[id], turn);
    assert Requeue(t3, turn, id) == t1[id := Apply(ToQueued, t3[id])];
    assert {} + {id} == {id};
    SkipUnroll(t1, contacts, turn, id, {}, t3, Some(id));
    SkipStops(t3, contacts, turn, Some(id), {id});
  }

  lemma ClosedHeadLeavesOthers(t0: Table, contacts: Contacts, turn: Turn, id: int, other: int)
    requires Keyed(t0) && NextFor(t0, contacts, turn).1 == Some(id)
    requires t0[id].workspace == turn.workspace && !turn.windowOpen(PhoneOf(contacts, t0[id].contactId))
    requires other in t0 && other != id && !OptedOut(contacts, t0[other].contactId)
    ensures var s := SkipClosed(NextFor(t0, contacts, turn).0, contacts, turn, Some(id), {});
      && s.contact.None? && s.requests == 1 && s.released == {id}
      && s.rows[other] == t0[other] && s.rows[id] == ReleasedTwice(t0[id], turn)
  {
    ClosedHeadEndsTurn(t0, contacts, turn, id);
    ClaimHandsOutFirst(t0, contacts, turn.campaign, turn.user, turn.now, MAX_OPT_OUT_CLAIM_SKIPS, other);
  }

  /**
   Head-of-line blocking. When the first contact to be claimed is out of window the turn calls
   nobody, even if another claimable contact is inside its window: that row is left exactly as the
   sweep left it. The turn asks twice, charges the head row two attempts and leaves it queued.
   */
  lemma ClosedHeadBlocksTheQueue(t: Table, contacts: Contacts, turn: Turn, id: int, other: int)
    requires Keyed(t) && !turn.conferenceEnded && FirstFor(t, contacts, turn) == Some(id)
    requires id in t && t[id].workspace == turn.workspace
    requires !turn.windowOpen(PhoneOf(contacts, t[id].contactId))
    requires other in t && other != id
    requires Claimable(contacts, turn.campaign, Swept(t, turn)[other]) && !OptedOut(contacts, t[other].contactId)
    requires turn.windowOpen(PhoneOf(contacts, t[other].contactId))
    ensures var e := SerialTurn(t, contacts, turn);
      && e.placed == [] && e.requests == 2
      && e.rows[other] == Swept(t, turn)[other]
      && e.rows[id] == ReleasedTwice(Swept(t, turn)[id], turn)
      && e.rows[id].state == Some(Queued) && e.rows[id].attemptCount == t[id].attemptCount + 2
  {
    var t0 := Swept(t, turn);
    var n := NextFor(t0, contacts, turn);
    ClosedHeadLeavesOthers(t0, contacts, turn, id, other);
    SerialTurnSteps(t, contacts, turn, n.0, n.1, SkipClosed(n.0, contacts, turn, Some(id), {}));
  }

  /** The first contact claimed, and whether the turn will get through to it. */
  ghost predicate WillCall(t: Table, contacts: Contacts, turn: Turn)
    requires Keyed(t)
  {
    && !turn.conferenceEnded
    && var first := FirstFor(t, contacts, turn);
       first.Some? && first.value in t && turn.windowOpen(PhoneOf(contacts, t[first.value].contactId))
       && turn.prepOk(first.value) && turn.dial(first.value) != Rejected
  }

  /** How the turn's claim loop ends. */
  ghost function SkippedFrom(t: Table, contacts: Contacts, turn: Turn): Skipping
    requires Keyed(t)
  {
    var n := NextFor(Swept(t, turn), contacts, turn);
    SkipClosed(n.0, contacts, turn, n.1, {})
  }

  lemma OpenFirstIsKept(t: Table, contacts: Contacts, turn: Turn)
    requires Keyed(t) && FirstFor(t, contacts, turn).Some?
    requires var id := FirstFor(t, contacts, turn).value;
             turn.windowOpen(PhoneOf(contacts, Swept(t, turn)[id].contactId))
    ensures var s := SkippedFrom(t, contacts, turn);
      s.contact == FirstFor(t, contacts, turn) && s.requests == 0 && s.released == {}
  {
    var t0 := Swept(t, turn);
    var n := NextFor(t0, contacts, turn);
    ClaimHandsOutFirst(t0, contacts, turn.campaign, turn.user, turn.now, MAX_OPT_OUT_CLAIM_SKIPS, n.1.value);
    SkipStops(n.0, contacts, turn, n.1, {});
  }

  lemma ClosedFirstIsReleased(t: Table, contacts: Contacts, turn: Turn)
    requires Keyed(t) && CampaignInWorkspace(t, turn.campaign, turn.workspace) && FirstFor(t, contacts, turn).Some?
    requires var id := FirstFor(t, contacts, turn).value;
             !turn.windowOpen(PhoneOf(contacts, Swept(t, turn)[id].contactId))
    ensures var s := SkippedFrom(t, contacts, turn);
      var id := FirstFor(t, contacts, turn).value;
      && s.contact.None? && s.requests == 1 && s.released == {id}
      && id in s.rows && Pending(turn.campaign, turn.now, s.rows[id])
  {
    var t0 := Swept(t, turn);
    var id := FirstFor(t, contacts, turn).value;
    ClaimHandsOutFirst(t0, contacts, turn.campaign, turn.user, turn.now, MAX_OPT_OUT_CLAIM_SKIPS, id);
    ClosedHeadEndsTurn(t0, contacts, turn, id);
  }

  /** It keeps the first contact if that one is in its window, and otherwise ends with nobody. */
  lemma FirstClaimDecides(t: Table, contacts: Contacts, turn: Turn)
    requires Keyed(t) && CampaignInWorkspace(t, turn.campaign, turn.workspace)
    ensures var first := FirstFor(t, contacts, turn);
      var s := SkippedFrom(t, contacts, turn);
      && (first.Some? ==> first.value in t)
      && (if first.Some? && turn.windowOpen(PhoneOf(contacts, t[first.value].contactId)) then
            s.contact == first && s.requests == 0 && s.released == {}
          else
            s.contact.None? && s.requests <= 1
            && (s.released != {} ==>
                  first.Some? && first.value in s.rows && Pending(turn.campaign, turn.now, s.rows[first.value])))
  {
    var first := FirstFor(t, contacts, turn);
    if first.None? {
      SkipStops(NextFor(Swept(t, turn), contacts, turn).0, contacts, turn, None, {});
    } else if turn.windowOpen(PhoneOf(contacts, Swept(t, turn)[first.value].contactId)) {
      OpenFirstIsKept(t, contacts, turn);
    } else {
      ClosedFirstIsReleased(t, contacts, turn);
    }
  }

  /**
   A turn places a possibly-live call exactly when the first contact it claims is inside its window,
   prep succeeds and the carrier does not reject the dial; the call is to that contact.
   */
  lemma TurnPlacesCallExactly(t: Table, contacts: Contacts, turn: Turn)
    requires Keyed(t) && CampaignInWorkspace(t, turn.campaign, turn.workspace)
    ensures var e := SerialTurn(t, contacts, turn);
      e.placed == if WillCall(t, contacts, turn) then [FirstFor(t, contacts, turn).value] else []
  {
    if !turn.conferenceEnded {
      FirstClaimDecides(t, contacts, turn);
    }
  }

  /** Alone, a turn asks at most twice, and one that released anybody never completes the campaign. */
  lemma OutOfWindowReleaseNeverCompletes(t: Table, contacts: Contacts, turn: Turn)
    requires Keyed(t) && CampaignInWorkspace(t, turn.campaign, turn.workspace)
    ensures var e := SerialTurn(t, contacts, turn);
      e.requests <= 2 && (e.end == Drained(true) ==> !e.completed)
  {
    if !turn.conferenceEnded {
      FirstClaimDecides(t, contacts, turn);
      var s := SkippedFrom(t, contacts, turn);
      if s.released != {} {
        assert Pending(turn.campaign, turn.now, s.rows[FirstFor(t, contacts, turn).value]);
      }
    }
  }

  // ---------- attempts are charged to contacts nobody called ----------

  /** The campaign has this one row left, and it waits in the queue. */
  ghost predicate OnlyRow(t: Table, contacts: Contacts, campaign: int, workspace: int, id: int) {
    && Keyed(t) && id in t
    && (forall other | other in t && t[other].campaignId == campaign :: other == id)
    && t[id].campaignId == campaign && t[id].workspace == workspace
    && t[id].state == Some(Queued) && t[id].dequeuedAt.None?
    && HasPhone(contacts, t[id].contactId) && !OptedOut(contacts, t[id].contactId)
  }

  predicate Runs(turn: Turn) {
    !turn.conferenceEnded && turn.sweepOk && turn.conferencesClose
  }

  lemma OnlyRowIsFirst(t: Table, contacts: Contacts, turn: Turn, id: int)
    requires OnlyRow(t, contacts, turn.campaign, turn.workspace, id) && t[id].attemptCount < MAX_ATTEMPTS
    requires turn.sweepOk
    ensures Swept(t, turn) == t
    ensures IsNextFor(t, contacts, turn, Claim(t, id, turn.user, turn.now), Some(id))
  {
    var t0 := Swept(t, turn);
    forall other | other in t ensures t0[other] == t[other] {
      assert SweepRow(turn.campaign, turn.now, t[other]) == t[other];
    }
    assert t0.Keys == t.Keys;
    assert t0 == t;
    assert IsNextClaim(t, contacts, turn.campaign, id);
    ClaimExists(t, contacts, turn.campaign);
  }

  /** An out-of-window turn leaves the row waiting, two attempts poorer, and calls nobody. */
  lemma ClosedTurnChargesTwo(t: Table, contacts: Contacts, turn: Turn, id: int)
    requires OnlyRow(t, contacts, turn.campaign, turn.workspace, id) && t[id].attemptCount < MAX_ATTEMPTS && Runs(turn)
    requires !turn.windowOpen(PhoneOf(contacts, t[id].contactId))
    ensures var e := SerialTurn(t, contacts, turn);
      && e.placed == []
      && e.rows == t[id := ReleasedTwice(t[id], turn)]
  {
    OnlyRowIsFirst(t, contacts, turn, id);
    ClosedHeadEndsTurn(t, contacts, turn, id);
  }

  /** Once five attempts are charged the next turn fails the row before looking at any window. */
  lemma ExhaustedTurnFailsRow(t: Table, contacts: Contacts, turn: Turn, id: int)
    requires OnlyRow(t, contacts, turn.campaign, turn.workspace, id) && t[id].attemptCount >= MAX_ATTEMPTS && Runs(turn)
    ensures var e := SerialTurn(t, contacts, turn);
      e.placed == [] && e.completed && e.rows == t[id := FailRow(t[id], turn.now)]
  {
    var t0 := Swept(t, turn);
    var failed := t[id := FailRow(t[id], turn.now)];
    assert t0.Keys == failed.Keys;
    forall other | other in t ensures t0[other] == failed[other] {
      assert other != id ==> SweepRow(turn.campaign, turn.now, t[other]) == t[other];
    }
    assert t0 == failed;
    assert forall other | other in t0 :: !Claimable(contacts, turn.campaign, t0[other]);
    assert NextClaim(t0, contacts, turn.campaign).None?;
    SkipStops(t0, contacts, turn, None, {});
  }

  /** The table, and every call placed, after a run of serial turns. */
  ghost function AfterTurns(t: Table, contacts: Contacts, turns: seq<Turn>): (r: (Table, seq<int>))
    requires Keyed(t)
    ensures Keyed(r.0) && r.0.Keys == t.Keys
    decreases |turns|
  {
    if turns == [] then (t, [])
    else
      var e := SerialTurn(t, contacts, turns[0]);
      var rest := AfterTurns(e.rows, contacts, turns[1..]);
      (rest.0, e.placed + rest.1)
  }

  lemma {:induction false} ClosedTurnsCharge(t: Table, contacts: Contacts, campaign: int, workspace: int, id: int,
                                             turns: seq<Turn>)
    requires OnlyRow(t, contacts, campaign, workspace, id)
    requires forall k | 0 <= k < |turns| ::
      && turns[k].campaign == campaign && turns[k].workspace == workspace && Runs(turns[k])
      && !turns[k].windowOpen(PhoneOf(contacts, t[id].contactId))
    requires turns != [] ==> t[id].attemptCount + 2 * (|turns| - 1) < MAX_ATTEMPTS
    ensures var (t', placed) := AfterTurns(t, contacts, turns);
      && placed == []
      && OnlyRow(t', contacts, campaign, workspace, id)
      && t'[id].attemptCount == t[id].attemptCount + 2 * |turns|
    decreases |turns|
  {
    if turns != [] {
      ClosedTurnChargesTwo(t, contacts, turns[0], id);
      var t1 := SerialTurn(t, contacts, turns[0]).rows;
      assert OnlyRow(t1, contacts, campaign, workspace, id);
      assert t1[id].attemptCount == t[id].attemptCount + 2 && t1[id].contactId == t[id].contactId;
      ClosedTurnsCharge(t1, contacts, campaign, workspace, id, turns[1..]);
    }
  }

  /**
   The release does not give the attempt back. As soon as out-of-window turns have charged a lone
   contact five attempts (three turns, from none) the next turn fails it as exhausted, inside its
   window or not, and completes the campaign; no call was placed in the whole run.
   */
  lemma OutOfWindowContactIsLost(t: Table, contacts: Contacts, id: int, turns: seq<Turn>, last: Turn)
    requires OnlyRow(t, contacts, last.campaign, last.workspace, id) && Runs(last)
    requires turns != [] && forall k | 0 <= k < |turns| ::
      turns[k].campaign == last.campaign && turns[k].workspace == last.workspace && Runs(turns[k])
      && !turns[k].windowOpen(PhoneOf(contacts, t[id].contactId))
    requires t[id].attemptCount + 2 * (|turns| - 1) < MAX_ATTEMPTS <= t[id].attemptCount + 2 * |turns|
    ensures var (t', placed) := AfterTurns(t, contacts, turns);
      var e := SerialTurn(t', contacts, last);
      && placed == [] && e.placed == []
      && e.rows[id].state == Some(Failed) && e.rows[id].dequeuedAt == Some(last.now)
      && e.completed
  {
    ClosedTurnsCharge(t, contacts, last.campaign, last.workspace, id, turns);
    ExhaustedTurnFailsRow(AfterTurns(t, contacts, turns).0, contacts, last, id);
  }
}
