/**
 What becomes of the contact at the head of a queue while it is outside its calling hours, and when a
 later turn calls it.
 */
module QueueHead {
  import opened Prelude
  import opened QueueRows
  import opened QueueDb
  import opened AutoDial

  /** The row waits, can be dialled, and comes before every other live row of its campaign. */
  ghost predicate HeadRow(t: Table, contacts: Contacts, campaign: int, workspace: int, id: int) {
    && Keyed(t) && id in t && CampaignInWorkspace(t, campaign, workspace)
    && t[id].campaignId == campaign && t[id].state == Some(Queued) && t[id].dequeuedAt.None?
    && HasPhone(contacts, t[id].contactId) && !OptedOut(contacts, t[id].contactId)
    && OthersLater(t, campaign, id)
  }

  predicate OthersLater(t: Table, campaign: int, id: int)
    requires id in t
  {
    forall other | other in t && other != id && t[other].campaignId == campaign && t[other].dequeuedAt.None? ::
      Before(t[id], t[other])
  }

  /** A turn that gets as far as claiming. */
  predicate Claims(turn: Turn, campaign: int, workspace: int) {
    turn.campaign == campaign && turn.workspace == workspace && !turn.conferenceEnded
  }

  lemma HeadSwept(t: Table, contacts: Contacts, turn: Turn, id: int)
    requires HeadRow(t, contacts, turn.campaign, turn.workspace, id) && t[id].attemptCount < MAX_ATTEMPTS
    ensures HeadRow(Swept(t, turn), contacts, turn.campaign, turn.workspace, id) && Swept(t, turn)[id] == t[id]
  {
  }

  /** The head is what a turn claims first, and nothing is skipped on the way. */
  lemma HeadIsFirst(t: Table, contacts: Contacts, turn: Turn, id: int)
    requires HeadRow(t, contacts, turn.campaign, turn.workspace, id) && t[id].attemptCount < MAX_ATTEMPTS
    ensures var t0 := Swept(t, turn);
      && Keyed(t0) && id in t0 && t0[id] == t[id]
      && IsNextFor(t0, contacts, turn, Claim(t0, id, turn.user, turn.now), Some(id))
  {
    HeadSwept(t, contacts, turn, id);
    var t0 := Swept(t, turn);
    assert IsNextClaim(t0, contacts, turn.campaign, id);
    ClaimExists(t0, contacts, turn.campaign);
  }

  lemma OthersStayLater(t: Table, campaign: int, id: int, r: Row)
    requires id in t && OthersLater(t, campaign, id) && r.id == t[id].id && r.queueOrder == t[id].queueOrder
    ensures OthersLater(t[id := r], campaign, id)
  {
  }

  lemma ReleasedHeadStays(t: Table, contacts: Contacts, turn: Turn, id: int)
    requires HeadRow(t, contacts, turn.campaign, turn.workspace, id)
    ensures HeadRow(t[id := ReleasedTwice(t[id], turn)], contacts, turn.campaign, turn.workspace, id)
  {
    OthersStayLater(t, turn.campaign, id, ReleasedTwice(t[id], turn));
  }

  /** An out-of-window turn calls nobody, costs the head two attempts, and leaves it at the head. */
  lemma ClosedTurnKeepsHead(t: Table, contacts: Contacts, turn: Turn, id: int)
    requires HeadRow(t, contacts, turn.campaign, turn.workspace, id) && t[id].attemptCount < MAX_ATTEMPTS
    requires !turn.conferenceEnded && !turn.windowOpen(PhoneOf(contacts, t[id].contactId))
    ensures var e := SerialTurn(t, contacts, turn);
      && e.placed == []
      && HeadRow(e.rows, contacts, turn.campaign, turn.workspace, id)
      && e.rows[id].attemptCount == t[id].attemptCount + 2 && e.rows[id].contactId == t[id].contactId
  {
    var t0 := Swept(t, turn);
    var t1 := Claim(t0, id, turn.user, turn.now);
    HeadIsFirst(t, contacts, turn, id);
    HeadSwept(t, contacts, turn, id);
    ClosedHeadEndsTurn(t0, contacts, turn, id);
    ReleasedHeadStays(t0, contacts, turn, id);
    var s := SkipClosed(t1, contacts, turn, Some(id), {});
    assert s.rows == t0[id := ReleasedTwice(t0[id], turn)];
    SerialTurnSteps(t, contacts, turn, t1, Some(id), s);
  }

  /** Two attempts a turn, for as many out-of-window turns as the attempts last. */
  lemma {:induction false} ClosedTurnsKeepHead(t: Table, contacts: Contacts, campaign: int, workspace: int, id: int,
                                               turns: seq<Turn>)
    requires HeadRow(t, contacts, campaign, workspace, id)
    requires forall k | 0 <= k < |turns| ::
      Claims(turns[k], campaign, workspace) && !turns[k].windowOpen(PhoneOf(contacts, t[id].contactId))
    requires turns != [] ==> t[id].attemptCount + 2 * (|turns| - 1) < MAX_ATTEMPTS
    ensures var t' := AfterTurns(t, contacts, turns).0;
      && AfterTurns(t, contacts, turns).1 == []
      && HeadRow(t', contacts, campaign, workspace, id)
      && t'[id].attemptCount == t[id].attemptCount + 2 * |turns| && t'[id].contactId == t[id].contactId
    decreases |turns|
  {
    if turns != [] {
      ClosedTurnKeepsHead(t, contacts, turns[0], id);
      ClosedTurnsKeepHead(SerialTurn(t, contacts, turns[0]).rows, contacts, campaign, workspace, id, turns[1..]);
    }
  }

  // ---------- the turn after ----------

  /** A turn inside the head's window that nothing fails. */
  predicate WouldCall(turn: Turn, contacts: Contacts, r: Row) {
    && turn.sweepOk && turn.windowOpen(PhoneOf(contacts, r.contactId))
    && turn.prepOk(r.id) && turn.dial(r.id) != Rejected
  }

  lemma HeadIsCalled(t: Table, contacts: Contacts, turn: Turn, id: int)
    requires HeadRow(t, contacts, turn.campaign, turn.workspace, id) && t[id].attemptCount < MAX_ATTEMPTS
    requires !turn.conferenceEnded && WouldCall(turn, contacts, t[id])
    ensures SerialTurn(t, contacts, turn).placed == [id]
  {
    HeadIsFirst(t, contacts, turn, id);
    TurnPlacesCallExactly(t, contacts, turn);
  }

  /** A finished row that is neither claimable nor held stays as it is through the claims of a turn. */
  lemma FailedStays(t: Table, contacts: Contacts, turn: Turn, id: int)
    requires Keyed(t) && id in t && t[id].state == Some(Failed) && t[id].dequeuedAt.Some?
    requires CampaignInWorkspace(t, turn.campaign, turn.workspace)
    ensures var n := NextFor(t, contacts, turn);
      && n.1 != Some(id) && n.0[id] == t[id]
      && SkipClosed(n.0, contacts, turn, n.1, {}).rows[id] == t[id]
      && SkipClosed(n.0, contacts, turn, n.1, {}).contact != Some(id)
  {
    var n := NextFor(t, contacts, turn);
    ClaimHandsOutFirst(t, contacts, turn.campaign, turn.user, turn.now, MAX_OPT_OUT_CLAIM_SKIPS, id);
    if n.1.Some? {
      var first := n.1.value;
      ClaimHandsOutFirst(t, contacts, turn.campaign, turn.user, turn.now, MAX_OPT_OUT_CLAIM_SKIPS, first);
      if turn.windowOpen(PhoneOf(contacts, n.0[first].contactId)) {
        SkipStops(n.0, contacts, turn, n.1, {});
      } else {
        ClosedHeadEndsTurn(t, contacts, turn, first);
      }
    } else {
      SkipStops(n.0, contacts, turn, None, {});
    }
  }

  /** Nor does the dial of another row change it. */
  lemma FailedStaysThroughDial(t: Table, contacts: Contacts, turn: Turn, id: int, called: int)
    requires Keyed(t) && id in t && called in t && called != id && t[id].state == Some(Failed)
    ensures DialClaimed(t, contacts, turn, called).0[id] == t[id]
  {
    var c := t[called].contactId;
    DequeueContactChanges(t, contacts, c, true, turn.workspace, Some(turn.user), Some(CALLED_REASON), turn.now);
    DequeueContactChanges(t, contacts, c, false, turn.workspace, Some(turn.user), Some(PARKED_REASON), turn.now);
  }

  /** With its attempts used up the head is failed by the sweep and not called, whoever else is. */
  lemma ExhaustedHeadIsFailed(t: Table, contacts: Contacts, turn: Turn, id: int)
    requires HeadRow(t, contacts, turn.campaign, turn.workspace, id) && t[id].attemptCount >= MAX_ATTEMPTS
    requires !turn.conferenceEnded && turn.sweepOk
    ensures var e := SerialTurn(t, contacts, turn);
      id !in e.placed && e.rows[id] == FailRow(t[id], turn.now)
  {
    var t0 := Swept(t, turn);
    assert t0[id] == FailRow(t[id], turn.now);
    FailedStays(t0, contacts, turn, id);
    var n := NextFor(t0, contacts, turn);
    var s := SkipClosed(n.0, contacts, turn, n.1, {});
    SerialTurnSteps(t, contacts, turn, n.0, n.1, s);
    if s.contact.Some? {
      FailedStaysThroughDial(s.rows, contacts, turn, id, s.contact.value);
    }
  }

  /**
   A release is meant to let a later turn dial the contact. It does exactly while attempts are left:
   after any out-of-window turns, a turn inside the head's window calls it if they charged it fewer than
   five attempts in all, and otherwise fails it uncalled.
   */
  lemma ReleasedHeadCalledExactly(t: Table, contacts: Contacts, id: int, turns: seq<Turn>, last: Turn)
    requires HeadRow(t, contacts, last.campaign, last.workspace, id)
    requires forall k | 0 <= k < |turns| ::
      Claims(turns[k], last.campaign, last.workspace) && !turns[k].windowOpen(PhoneOf(contacts, t[id].contactId))
    requires turns != [] ==> t[id].attemptCount + 2 * (|turns| - 1) < MAX_ATTEMPTS
    requires !last.conferenceEnded && WouldCall(last, contacts, t[id])
    ensures AfterTurns(t, contacts, turns).1 == []
    ensures var e := SerialTurn(AfterTurns(t, contacts, turns).0, contacts, last);
      && (id in e.placed <==> t[id].attemptCount + 2 * |turns| < MAX_ATTEMPTS)
      && (id in e.placed ==> e.placed == [id])
      && (id !in e.placed ==> e.rows[id].state == Some(Failed) && e.rows[id].dequeuedAt == Some(last.now))
  {
    ClosedTurnsKeepHead(t, contacts, last.campaign, last.workspace, id, turns);
    var t' := AfterTurns(t, contacts, turns).0;
    assert t'[id].id == t[id].id;
    if t'[id].attemptCount < MAX_ATTEMPTS {
      HeadIsCalled(t', contacts, last, id);
    } else {
      ExhaustedHeadIsFailed(t', contacts, last, id);
    }
  }

  /** At every turn of the run the row is what the turn claims first, and out of window. */
  ghost predicate FirstAndClosed(t: Table, contacts: Contacts, campaign: int, workspace: int, id: int, turns: seq<Turn>)
    requires Keyed(t)
    decreases |turns|
  {
    turns == []
    || (Claims(turns[0], campaign, workspace) && turns[0].sweepOk
        && FirstFor(t, contacts, turns[0]) == Some(id) && id in t
        && !turns[0].windowOpen(PhoneOf(contacts, t[id].contactId))
        && FirstAndClosed(SerialTurn(t, contacts, turns[0]).rows, contacts, campaign, workspace, id, turns[1..]))
  }

  lemma ClaimsKeepWorkspace(t: Table, contacts: Contacts, turn: Turn)
    requires Keyed(t) && CampaignInWorkspace(t, turn.campaign, turn.workspace)
    ensures CampaignInWorkspace(NextFor(t, contacts, turn).0, turn.campaign, turn.workspace)
  {
    var t1 := NextFor(t, contacts, turn).0;
    forall other | other in t1 && t1[other].campaignId == turn.campaign ensures t1[other].workspace == turn.workspace {
      ClaimHandsOutFirst(t, contacts, turn.campaign, turn.user, turn.now, MAX_OPT_OUT_CLAIM_SKIPS, other);
    }
  }

  lemma FirstClosedRows(t: Table, contacts: Contacts, turn: Turn, id: int)
    requires Keyed(t) && id in t && CampaignInWorkspace(t, turn.campaign, turn.workspace)
    requires NextFor(t, contacts, turn).1 == Some(id)
    requires !turn.windowOpen(PhoneOf(contacts, t[id].contactId))
    ensures var n := NextFor(t, contacts, turn); var s := SkipClosed(n.0, contacts, turn, n.1, {});
      && s.contact.None? && s.rows[id].attemptCount == t[id].attemptCount + 2
      && CampaignInWorkspace(s.rows, turn.campaign, turn.workspace)
  {
    ClaimHandsOutFirst(t, contacts, turn.campaign, turn.user, turn.now, MAX_OPT_OUT_CLAIM_SKIPS, id);
    ClosedHeadEndsTurn(t, contacts, turn, id);
    ClaimsKeepWorkspace(t, contacts, turn);
  }

  lemma FirstClosedTurn(t: Table, contacts: Contacts, turn: Turn, id: int)
    requires Keyed(t) && id in t && CampaignInWorkspace(t, turn.campaign, turn.workspace)
    requires !turn.conferenceEnded && turn.sweepOk && FirstFor(t, contacts, turn) == Some(id)
    requires !turn.windowOpen(PhoneOf(contacts, t[id].contactId))
    ensures var e := SerialTurn(t, contacts, turn);
      && e.placed == [] && e.rows[id].attemptCount == t[id].attemptCount + 2
      && CampaignInWorkspace(e.rows, turn.campaign, turn.workspace)
  {
    var t0 := Swept(t, turn);
    var n := NextFor(t0, contacts, turn);
    var s := SkipClosed(n.0, contacts, turn, n.1, {});
    FirstClosedRows(t0, contacts, turn, id);
    SerialTurnSteps(t, contacts, turn, n.0, n.1, s);
    assert FinishTurn(s, contacts, turn).rows == s.rows && FinishTurn(s, contacts, turn).placed == [];
  }

  /**
   * Whatever else the queue holds: while a row is first and out of window, each turn costs it two attempts
   * and calls nobody.
   */
  lemma {:induction false} FirstWhileClosed(t: Table, contacts: Contacts, campaign: int, workspace: int, id: int,
                                            turns: seq<Turn>)
    requires Keyed(t) && id in t && CampaignInWorkspace(t, campaign, workspace)
    requires FirstAndClosed(t, contacts, campaign, workspace, id, turns)
    ensures AfterTurns(t, contacts, turns).1 == []
    ensures AfterTurns(t, contacts, turns).0[id].attemptCount == t[id].attemptCount + 2 * |turns|
    decreases |turns|
  {
    if turns != [] {
      FirstClosedTurn(t, contacts, turns[0], id);
      FirstWhileClosed(SerialTurn(t, contacts, turns[0]).rows, contacts, campaign, workspace, id, turns[1..]);
    }
  }
}
