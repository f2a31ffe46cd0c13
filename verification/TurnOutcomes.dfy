/**
 How a serial turn ends and what it leaves in the table, told from the request, the contact and the rows:
 who is called, whom the call closes the queue for, and what every other ending leaves behind.
 */
module TurnOutcomes {
  import opened Prelude
  import opened QueueRows
  import opened QueueDb
  import opened AutoDial

  /** The first row claimed is of a contact whose number is inside its calling window. */
  ghost predicate FirstIsOpen(t: Table, contacts: Contacts, turn: Turn)
    requires Keyed(t)
  {
    var first := FirstFor(t, contacts, turn);
    first.Some? && first.value in t
    && var c := t[first.value].contactId;
       c in contacts && contacts[c].phone.Some? && turn.windowOpen(contacts[c].phone.value)
  }

  /** A claim is of a contact with a number, so that is the number the window is asked for. */
  lemma FirstHasPhone(t: Table, contacts: Contacts, turn: Turn)
    requires Keyed(t) && FirstFor(t, contacts, turn).Some?
    ensures var id := FirstFor(t, contacts, turn).value;
      && id in t && t[id].contactId in contacts && contacts[t[id].contactId].phone.Some?
      && PhoneOf(contacts, t[id].contactId) == contacts[t[id].contactId].phone.value
      && t[id].campaignId == turn.campaign && !contacts[t[id].contactId].optOut
  {
    var t0 := Swept(t, turn);
    var id := FirstFor(t, contacts, turn).value;
    ClaimHandsOutFirst(t0, contacts, turn.campaign, turn.user, turn.now, MAX_OPT_OUT_CLAIM_SKIPS, id);
  }

  /** A turn that has somebody to dial. */
  lemma OpenTurnEnds(t: Table, contacts: Contacts, turn: Turn)
    requires Keyed(t) && CampaignInWorkspace(t, turn.campaign, turn.workspace)
    requires !turn.conferenceEnded && FirstIsOpen(t, contacts, turn)
    ensures var e, id := SerialTurn(t, contacts, turn), FirstFor(t, contacts, turn).value;
      && e.end == (if !turn.prepOk(id) then PrepFailed
                   else match turn.dial(id)
                     case Rejected => DialRejected case Ambiguous => DialAmbiguous case Placed => Called)
      && e.placed == (if e.end.Called? || e.end.DialAmbiguous? then [id] else []) && e.requests == 1
  {
    FirstHasPhone(t, contacts, turn);
    FirstClaimDecides(t, contacts, turn);
  }

  /** A turn that has nobody. */
  lemma ClosedTurnEnds(t: Table, contacts: Contacts, turn: Turn)
    requires Keyed(t) && CampaignInWorkspace(t, turn.campaign, turn.workspace)
    requires !turn.conferenceEnded && !FirstIsOpen(t, contacts, turn)
    ensures var e, first := SerialTurn(t, contacts, turn), FirstFor(t, contacts, turn);
      && e.end == (if turn.conferencesClose then Drained(first.Some?) else CloseFailed)
      && e.placed == [] && e.requests == (if first.None? then 1 else 2)
  {
    if FirstFor(t, contacts, turn).Some? {
      FirstHasPhone(t, contacts, turn);
      ClosedFirstIsReleased(t, contacts, turn);
    } else {
      SkipStops(NextFor(Swept(t, turn), contacts, turn).0, contacts, turn, None, {});
    }
  }

  /** How the turn ends, whom it calls and how often it asks, told from the request's answers and the first contact. */
  lemma TurnEndsExactly(t: Table, contacts: Contacts, turn: Turn)
    requires Keyed(t) && CampaignInWorkspace(t, turn.campaign, turn.workspace)
    ensures var e, first := SerialTurn(t, contacts, turn), FirstFor(t, contacts, turn);
      var open := FirstIsOpen(t, contacts, turn);
      && e.end == (if turn.conferenceEnded then Stopped
                   else if !open then (if turn.conferencesClose then Drained(first.Some?) else CloseFailed)
                   else if !turn.prepOk(first.value) then PrepFailed
                   else match turn.dial(first.value)
                     case Rejected => DialRejected case Ambiguous => DialAmbiguous case Placed => Called)
      && e.placed == (if e.end.Called? || e.end.DialAmbiguous? then [first.value] else [])
      && e.requests == (if turn.conferenceEnded then 0 else if open || first.None? then 1 else 2)
  {
    if !turn.conferenceEnded {
      if FirstIsOpen(t, contacts, turn) {
        OpenTurnEnds(t, contacts, turn);
      } else {
        ClosedTurnEnds(t, contacts, turn);
      }
    }
  }

  /** A campaign is completed exactly by a turn that drained and left nothing pending, in figures. */
  lemma TurnCompletesExactly(t: Table, contacts: Contacts, turn: Turn)
    requires Keyed(t)
    ensures var e := SerialTurn(t, contacts, turn);
      e.completed <==> e.end.Drained? && forall id | id in e.rows && e.rows[id].campaignId == turn.campaign
                                                     && e.rows[id].dequeuedAt == None ::
        e.rows[id].state != Some(Queued)
        && (e.rows[id].state == Some(Assigned) && e.rows[id].attemptCount < 5 && e.rows[id].claimedAt.Some? ==>
              turn.now - e.rows[id].claimedAt.value > 600_000)
  {
    PendingInFigures(SerialTurn(t, contacts, turn).rows, turn.campaign, turn.now);
  }

  // ---------- what the dial leaves ----------

  /** The two contacts share a household of the workspace. */
  ghost predicate Housemates(contacts: Contacts, workspace: int, a: int, b: int) {
    a in contacts && b in contacts && contacts[a].workspace == contacts[b].workspace == workspace
    && contacts[a].household != None && contacts[a].household == contacts[b].household
  }

  /** The table as the claim loop left it. */
  ghost function Claimed(t: Table, contacts: Contacts, turn: Turn): (t': Table)
    requires Keyed(t)
    ensures Keyed(t') && t'.Keys == t.Keys
  {
    SkippedFrom(t, contacts, turn).rows
  }

  lemma OpenTurnDials(t: Table, contacts: Contacts, turn: Turn)
    requires Keyed(t) && CampaignInWorkspace(t, turn.campaign, turn.workspace)
    requires !turn.conferenceEnded && FirstIsOpen(t, contacts, turn)
    ensures var id, s := FirstFor(t, contacts, turn).value, SkippedFrom(t, contacts, turn);
      && id in t && s.contact == Some(id) && s.rows[id] == ClaimRow(Swept(t, turn)[id], turn.user, turn.now)
      && s.rows[id].contactId == t[id].contactId && s.rows[id].workspace == turn.workspace
      && SerialTurn(t, contacts, turn).rows == DialClaimed(s.rows, contacts, turn, id).0
  {
    FirstHasPhone(t, contacts, turn);
    FirstClaimDecides(t, contacts, turn);
    var id := FirstFor(t, contacts, turn).value;
    var t0 := Swept(t, turn);
    ClaimHandsOutFirst(t0, contacts, turn.campaign, turn.user, turn.now, MAX_OPT_OUT_CLAIM_SKIPS, id);
    SkipStops(NextFor(t0, contacts, turn).0, contacts, turn, Some(id), {});
  }

  /**
   After a call the queue is closed for the whole household: no row of the contact or of a housemate is left
   to claim in the workspace, and the row called carries who called it and when. Rows of everybody else, and
   those other agents hold, are as the claim loop left them.
   */
  lemma CalledTurnClosesHousehold(t: Table, contacts: Contacts, turn: Turn, id: int)
    requires Keyed(t) && CampaignInWorkspace(t, turn.campaign, turn.workspace)
    requires SerialTurn(t, contacts, turn).end == Called && id in t
    ensures var e, first := SerialTurn(t, contacts, turn), FirstFor(t, contacts, turn).value;
      var own, mid := t[first].contactId, Claimed(t, contacts, turn)[id];
      var related := mid.workspace == turn.workspace
        && (mid.contactId == own || Housemates(contacts, turn.workspace, own, mid.contactId));
      && e.placed == [first] && first in t
      && e.rows[first] == Finished(Claimed(t, contacts, turn)[first], turn.now, Some(turn.user),
                                   "Predictive Dialer called contact")
      && (related ==> e.rows[id].state !in {None, Some(Queued)})
      && (!related || (mid.state == Some(Assigned) && mid.assignee != Some(turn.user)) ==> e.rows[id] == mid)
  {
    TurnEndsExactly(t, contacts, turn);
    OpenTurnDials(t, contacts, turn);
    var s, first := SkippedFrom(t, contacts, turn).rows, FirstFor(t, contacts, turn).value;
    GuardedDequeueInFull(s, contacts, t[first].contactId, true, turn.workspace, Some(turn.user), Some(CALLED_REASON),
                         turn.now, id);
    GuardedDequeueInFull(s, contacts, t[first].contactId, true, turn.workspace, Some(turn.user), Some(CALLED_REASON),
                         turn.now, first);
  }

  /** An ambiguous dial parks the contact's own rows in the workspace, with its reason, and nobody else's. */
  lemma AmbiguousTurnParksContact(t: Table, contacts: Contacts, turn: Turn, id: int)
    requires Keyed(t) && CampaignInWorkspace(t, turn.campaign, turn.workspace)
    requires SerialTurn(t, contacts, turn).end == DialAmbiguous && id in t
    ensures var e, first := SerialTurn(t, contacts, turn), FirstFor(t, contacts, turn).value;
      var own, mid := t[first].contactId, Claimed(t, contacts, turn)[id];
      && e.placed == [first] && first in t
      && e.rows[first] == Finished(Claimed(t, contacts, turn)[first], turn.now, Some(turn.user),
           "Ambiguous dial failure — call may exist at Twilio; parked for review, not redialed")
      && (mid.contactId == own && mid.workspace == turn.workspace ==> e.rows[id].state !in {None, Some(Queued)})
      && (mid.contactId != own ==> e.rows[id] == mid)
  {
    TurnEndsExactly(t, contacts, turn);
    OpenTurnDials(t, contacts, turn);
    var s, first := SkippedFrom(t, contacts, turn).rows, FirstFor(t, contacts, turn).value;
    GuardedDequeueInFull(s, contacts, t[first].contactId, false, turn.workspace, Some(turn.user), Some(PARKED_REASON),
                         turn.now, id);
    GuardedDequeueInFull(s, contacts, t[first].contactId, false, turn.workspace, Some(turn.user), Some(PARKED_REASON),
                         turn.now, first);
  }

  /** When prep fails or the carrier rejects the dial, the claimed row alone goes back to the queue. */
  lemma FailedDialFreesRow(t: Table, contacts: Contacts, turn: Turn)
    requires Keyed(t) && CampaignInWorkspace(t, turn.campaign, turn.workspace)
    requires SerialTurn(t, contacts, turn).end in {PrepFailed, DialRejected}
    ensures var first, mid := FirstFor(t, contacts, turn).value, Claimed(t, contacts, turn);
      first in t && SerialTurn(t, contacts, turn).rows == mid[first := Freed(mid[first])]
  {
    TurnEndsExactly(t, contacts, turn);
    OpenTurnDials(t, contacts, turn);
    var s, first := SkippedFrom(t, contacts, turn).rows, FirstFor(t, contacts, turn).value;
    ByIdTouchesOne(s, first, Some(turn.workspace), ToQueued);
  }

  /** A turn that was stopped leaves the table alone; one with nobody to dial leaves it as its claims did. */
  lemma IdleTurnLeavesClaims(t: Table, contacts: Contacts, turn: Turn)
    requires Keyed(t) && CampaignInWorkspace(t, turn.campaign, turn.workspace)
    ensures var e := SerialTurn(t, contacts, turn);
      && (e.end == Stopped ==> e.rows == t)
      && (e.end.Drained? || e.end == CloseFailed ==> e.rows == Claimed(t, contacts, turn))
  {
    TurnEndsExactly(t, contacts, turn);
    if !turn.conferenceEnded {
      FirstClaimDecides(t, contacts, turn);
    }
  }

  // ---------- what the claims leave ----------

  /** A row the claims did not keep: untouched, or of an opted-out contact that was met, and so finished. */
  ghost predicate PassedOver(contacts: Contacts, turn: Turn, r: Row, r': Row) {
    || r' == r
    || (r.contactId in contacts && contacts[r.contactId].optOut && r.campaignId == turn.campaign
        && r.state in {None, Some(Queued)}
        && r' == Finished(ClaimRow(r, turn.user, turn.now), turn.now, Some(turn.user), "Contact opted out"))
  }

  lemma OthersPassedOver(t0: Table, contacts: Contacts, turn: Turn, id: int)
    requires Keyed(t0) && id in t0 && NextFor(t0, contacts, turn).1 != Some(id)
    ensures PassedOver(contacts, turn, t0[id], NextFor(t0, contacts, turn).0[id])
  {
    ClaimHandsOutFirst(t0, contacts, turn.campaign, turn.user, turn.now, MAX_OPT_OUT_CLAIM_SKIPS, id);
  }

  /** What the first row has become when the claims are over: held if its contact is inside its window. */
  ghost predicate FirstRow(turn: Turn, open: bool, r: Row, r': Row) {
    && r'.attemptCount == r.attemptCount + (if open then 1 else 2) && r'.claimedAt == Some(turn.now)
    && (if open then r'.state == Some(Assigned) && r'.assignee == Some(turn.user)
        else r'.state == Some(Queued) && r'.assignee == None)
  }

  /** The claims of a turn without interference, by what the first contact is. */
  lemma ClaimedRows(t: Table, contacts: Contacts, turn: Turn)
    requires Keyed(t) && CampaignInWorkspace(t, turn.campaign, turn.workspace)
    ensures var t0, first := Swept(t, turn), FirstFor(t, contacts, turn);
      var n := NextFor(t0, contacts, turn).0;
      if first.None? || FirstIsOpen(t, contacts, turn) then Claimed(t, contacts, turn) == n
      else first.value in t && Claimed(t, contacts, turn) == n[first.value := ReleasedTwice(t0[first.value], turn)]
  {
    var t0, first := Swept(t, turn), FirstFor(t, contacts, turn);
    var n := NextFor(t0, contacts, turn);
    if first.None? {
      SkipStops(n.0, contacts, turn, None, {});
    } else {
      FirstHasPhone(t, contacts, turn);
      if FirstIsOpen(t, contacts, turn) {
        OpenFirstStays(t, contacts, turn);
      } else {
        ClosedHeadEndsTurn(t0, contacts, turn, first.value);
      }
    }
  }

  lemma OpenFirstStays(t: Table, contacts: Contacts, turn: Turn)
    requires Keyed(t) && FirstIsOpen(t, contacts, turn)
    ensures Claimed(t, contacts, turn) == NextFor(Swept(t, turn), contacts, turn).0
  {
    var n := NextFor(Swept(t, turn), contacts, turn);
    FirstHasPhone(t, contacts, turn);
    ClaimHandsOutFirst(Swept(t, turn), contacts, turn.campaign, turn.user, turn.now, MAX_OPT_OUT_CLAIM_SKIPS,
                       n.1.value);
    SkipStops(n.0, contacts, turn, n.1, {});
  }

  /**
   What a turn's claims do to the swept table: the first row is held if its contact is inside its window, and
   otherwise waits again two attempts poorer; no other row is touched, but for rows of opted-out contacts that
   were met, which are finished.
   */
  lemma ClaimsTouch(t: Table, contacts: Contacts, turn: Turn, id: int)
    requires Keyed(t) && CampaignInWorkspace(t, turn.campaign, turn.workspace) && id in t
    ensures var r, r' := Swept(t, turn)[id], Claimed(t, contacts, turn)[id];
      if FirstFor(t, contacts, turn) == Some(id) then FirstRow(turn, FirstIsOpen(t, contacts, turn), r, r')
      else PassedOver(contacts, turn, r, r')
  {
    ClaimedRows(t, contacts, turn);
    if FirstFor(t, contacts, turn) != Some(id) {
      OthersPassedOver(Swept(t, turn), contacts, turn, id);
    } else {
      ClaimHandsOutFirst(Swept(t, turn), contacts, turn.campaign, turn.user, turn.now, MAX_OPT_OUT_CLAIM_SKIPS, id);
    }
  }
}
