/**
 The serial turn is a run of the step system: what one turn writes when nobody interferes is a sequence
 of its own steps, so the invariant of all interleavings speaks about the turn as it is coded.
 */
module TurnSteps {
  import opened Prelude
  import opened QueueRows
  import opened QueueDb
  import opened AutoDial
  import opened DialProtocol
  import opened QueueHead

  lemma Prepend(s: State, step: Step, rest: seq<Step>)
    requires Enabled(s, step) && Allowed(Do(s, step), rest)
    ensures Allowed(s, [step] + rest) && Run(s, [step] + rest) == Run(Do(s, step), rest)
  {
    assert ([step] + rest)[1..] == rest;
  }

  lemma NoCalls(calls: multiset<int>)
    ensures var none: seq<int> := []; calls + multiset(none) == calls
  {
  }

  function WithTurn(turns: map<int, Phase>, user: int, contact: Option<int>): map<int, Phase> {
    if contact.Some? then turns[user := Vetted(contact.value)] else turns - {user}
  }

  /** The state with the turn at a table and a contact. */
  function At(s: State, turn: Turn, rows: Table, contact: Option<int>): State {
    s.(rows := rows, turns := WithTurn(s.turns, turn.user, contact))
  }

  predicate Idle(s: State, turn: Turn) {
    turn.user !in s.turns
  }

  lemma ClaimStep(s: State, turn: Turn, id: int)
    requires Idle(s, turn) && Keyed(s.rows) && IsNextClaim(s.rows, s.contacts, turn.campaign, id)
    ensures var claim := ClaimRowFor(turn.user, turn.campaign, turn.now, id);
      var vet := Vet(turn.user, turn.now);
      && Enabled(s, claim) && Enabled(Do(s, claim), vet)
      && Do(Do(s, claim), vet) ==
           if OptedOut(s.contacts, s.rows[id].contactId)
           then At(s, turn, SkipClaim(s.rows, id, turn.user, turn.now), None)
           else At(s, turn, Claim(s.rows, id, turn.user, turn.now), Some(id))
  {
    var s1 := Do(s, ClaimRowFor(turn.user, turn.campaign, turn.now, id));
    assert s1.turns - {turn.user} == s.turns - {turn.user};
    if OptedOut(s.contacts, s.rows[id].contactId) {
      ByIdTouchesOne(s1.rows, id, None, OptOut(turn));
      assert SkipClaim(s.rows, id, turn.user, turn.now) == s1.rows[id := Apply(OptOut(turn), s1.rows[id])];
    } else {
      assert s1.turns[turn.user := Vetted(id)] == s.turns[turn.user := Vetted(id)];
    }
  }

  /** The state when the claim loop is over. */
  ghost function AfterClaims(s: State, turn: Turn, budget: nat): State
    requires Keyed(s.rows)
  {
    var loop := ClaimLoop(s.rows, s.contacts, turn.campaign, turn.user, turn.now, budget);
    At(s, turn, loop.0, loop.1)
  }

  lemma ClaimsStop(s: State, turn: Turn, budget: nat)
    requires Idle(s, turn) && Keyed(s.rows)
    requires budget == 0 || NextClaim(s.rows, s.contacts, turn.campaign).None?
    ensures AfterClaims(s, turn, budget) == s
  {
    assert s.turns - {turn.user} == s.turns;
  }

  lemma ClaimsTake(s: State, turn: Turn, budget: nat, id: int)
    requires Keyed(s.rows) && budget > 0 && NextClaim(s.rows, s.contacts, turn.campaign) == Some(id)
    requires !OptedOut(s.contacts, s.rows[id].contactId)
    ensures AfterClaims(s, turn, budget) == At(s, turn, Claim(s.rows, id, turn.user, turn.now), Some(id))
  {
  }

  lemma ClaimsSkip(s: State, turn: Turn, budget: nat, id: int)
    requires Keyed(s.rows) && budget > 0 && NextClaim(s.rows, s.contacts, turn.campaign) == Some(id)
    requires OptedOut(s.contacts, s.rows[id].contactId)
    ensures var s2 := At(s, turn, SkipClaim(s.rows, id, turn.user, turn.now), None);
      Keyed(s2.rows) && AfterClaims(s, turn, budget) == AfterClaims(s2, turn, budget - 1)
  {
    AtAgain(s, turn, SkipClaim(s.rows, id, turn.user, turn.now), None);
  }

  function ClaimAndVet(turn: Turn, id: int): seq<Step> {
    [ClaimRowFor(turn.user, turn.campaign, turn.now, id), Vet(turn.user, turn.now)]
  }

  lemma ClaimTaken(s: State, turn: Turn, budget: nat, id: int)
    requires Idle(s, turn) && Keyed(s.rows) && budget > 0 && NextClaim(s.rows, s.contacts, turn.campaign) == Some(id)
    requires !OptedOut(s.contacts, s.rows[id].contactId)
    ensures Reaches(s, ClaimAndVet(turn, id), AfterClaims(s, turn, budget))
  {
    ClaimStep(s, turn, id);
    TwoSteps(s, ClaimRowFor(turn.user, turn.campaign, turn.now, id), Vet(turn.user, turn.now));
    ClaimsTake(s, turn, budget, id);
  }

  lemma ClaimSkipped(s: State, turn: Turn, budget: nat, id: int) returns (s2: State)
    requires Idle(s, turn) && Keyed(s.rows) && budget > 0 && NextClaim(s.rows, s.contacts, turn.campaign) == Some(id)
    requires OptedOut(s.contacts, s.rows[id].contactId)
    ensures Reaches(s, ClaimAndVet(turn, id), s2) && Idle(s2, turn) && Keyed(s2.rows)
    ensures AfterClaims(s, turn, budget) == AfterClaims(s2, turn, budget - 1)
  {
    ClaimStep(s, turn, id);
    TwoSteps(s, ClaimRowFor(turn.user, turn.campaign, turn.now, id), Vet(turn.user, turn.now));
    ClaimsSkip(s, turn, budget, id);
    s2 := At(s, turn, SkipClaim(s.rows, id, turn.user, turn.now), None);
  }

  /** The claim loop is claims and opt-out checks. */
  lemma {:induction false} ClaimSteps(s: State, turn: Turn, budget: nat) returns (steps: seq<Step>)
    requires Idle(s, turn) && Keyed(s.rows)
    ensures Reaches(s, steps, AfterClaims(s, turn, budget))
    decreases budget
  {
    var next := NextClaim(s.rows, s.contacts, turn.campaign);
    if budget == 0 || next.None? {
      ClaimsStop(s, turn, budget);
      return [];
    }
    var id := next.value;
    if OptedOut(s.contacts, s.rows[id].contactId) {
      var s2 := ClaimSkipped(s, turn, budget, id);
      var rest := ClaimSteps(s2, turn, budget - 1);
      ReachesFurther(s, ClaimAndVet(turn, id), s2, rest, AfterClaims(s, turn, budget));
      steps := ClaimAndVet(turn, id) + rest;
    } else {
      ClaimTaken(s, turn, budget, id);
      steps := ClaimAndVet(turn, id);
    }
  }

  ghost predicate Reaches(s: State, steps: seq<Step>, s': State) {
    Allowed(s, steps) && Run(s, steps) == s'
  }

  lemma ReachesFurther(s: State, steps: seq<Step>, s': State, more: seq<Step>, s'': State)
    requires Reaches(s, steps, s') && Reaches(s', more, s'')
    ensures Reaches(s, steps + more, s'')
  {
    RunsConcatenate(s, steps, more);
  }

  lemma TwoSteps(s: State, first: Step, second: Step)
    requires Enabled(s, first) && Enabled(Do(s, first), second)
    ensures Reaches(s, [first, second], Do(Do(s, first), second))
  {
    OneStep(Do(s, first), second);
    Prepend(s, first, [second]);
    assert [first, second] == [first] + [second];
  }

  lemma AtAgain(s: State, turn: Turn, rows: Table, contact: Option<int>)
    ensures forall rows', contact' ::
      At(At(s, turn, rows, contact), turn, rows', contact') == At(s, turn, rows', contact')
  {
    forall contact': Option<int>
      ensures WithTurn(WithTurn(s.turns, turn.user, contact), turn.user, contact')
        == WithTurn(s.turns, turn.user, contact')
    {
      var a := WithTurn(WithTurn(s.turns, turn.user, contact), turn.user, contact');
      var b := WithTurn(s.turns, turn.user, contact');
      assert a.Keys == b.Keys;
      forall u | u in a ensures a[u] == b[u] {
      }
      assert a == b;
    }
  }

  lemma RequeueIsRelease(s: State, turn: Turn, id: int)
    requires Keyed(s.rows) && id in s.rows && s.rows[id].workspace == turn.workspace
    ensures ReleaseRow(s, id) == Requeue(s.rows, turn, id)
  {
    ByIdTouchesOne(s.rows, id, None, ToQueued);
    ByIdTouchesOne(s.rows, id, Some(turn.workspace), ToQueued);
  }

  lemma ReleaseStep(s: State, turn: Turn, id: int)
    requires Keyed(s.rows) && turn.user in s.turns && s.turns[turn.user] == Vetted(id) && id in s.rows
    requires s.rows[id].workspace == turn.workspace
    ensures Enabled(s, Release(turn.user))
    ensures Do(s, Release(turn.user)) == At(s, turn, Requeue(s.rows, turn, id), None)
  {
    RequeueIsRelease(s, turn, id);
  }

  /** What the claim loop hands out belongs to the campaign, hence to the workspace. */
  lemma ClaimedInWorkspace(t: Table, contacts: Contacts, turn: Turn)
    requires Keyed(t) && CampaignInWorkspace(t, turn.campaign, turn.workspace)
    ensures var n := NextFor(t, contacts, turn);
      && CampaignInWorkspace(n.0, turn.campaign, turn.workspace)
      && (n.1.Some? ==> n.1.value in n.0 && n.0[n.1.value].workspace == turn.workspace)
  {
    ClaimsKeepWorkspace(t, contacts, turn);
    var n := NextFor(t, contacts, turn);
    if n.1.Some? {
      ClaimHandsOutFirst(t, contacts, turn.campaign, turn.user, turn.now, MAX_OPT_OUT_CLAIM_SKIPS, n.1.value);
    }
  }

  lemma RequeueKeepsWorkspace(t: Table, turn: Turn, id: int)
    requires Keyed(t) && CampaignInWorkspace(t, turn.campaign, turn.workspace)
    ensures Keyed(Requeue(t, turn, id)) && CampaignInWorkspace(Requeue(t, turn, id), turn.campaign, turn.workspace)
  {
  }

  /** The window-skip loop is releases and claims. */
  lemma {:induction false} SkipSteps(s: State, turn: Turn, contact: Option<int>, released: set<int>)
    returns (steps: seq<Step>)
    requires Keyed(s.rows) && CampaignInWorkspace(s.rows, turn.campaign, turn.workspace)
    requires contact.Some? ==>
      && contact.value in s.rows && s.rows[contact.value].workspace == turn.workspace
      && turn.user in s.turns && s.turns[turn.user] == Vetted(contact.value)
    requires contact.None? ==> Idle(s, turn)
    ensures Allowed(s, steps)
    ensures var sk := SkipClosed(s.rows, s.contacts, turn, contact, released);
      && Run(s, steps) == At(s, turn, sk.rows, sk.contact)
      && (sk.contact.Some? ==> sk.rows[sk.contact.value].workspace == turn.workspace)
    decreases MAX_WINDOW_SKIPS_PER_TURN - |released|
  {
    steps := [];
    SkipStops(s.rows, s.contacts, turn, contact, released);
    if contact.None? || turn.windowOpen(PhoneOf(s.contacts, s.rows[contact.value].contactId)) {
      StaysAt(s, turn, contact);
    } else {
      var id := contact.value;
      ReleaseStep(s, turn, id);
      RequeueKeepsWorkspace(s.rows, turn, id);
      var s1 := Do(s, Release(turn.user));
      AtAgain(s, turn, s1.rows, None);
      var rest: seq<Step> := [];
      if !(id in released || |released + {id}| >= MAX_WINDOW_SKIPS_PER_TURN) {
        rest := ClaimSteps(s1, turn, MAX_OPT_OUT_CLAIM_SKIPS);
        var next := NextFor(s1.rows, s.contacts, turn);
        var s2 := At(s1, turn, next.0, next.1);
        ClaimedInWorkspace(s1.rows, s.contacts, turn);
        AtAgain(s, turn, next.0, next.1);
        SkipUnroll(s.rows, s.contacts, turn, id, released, next.0, next.1);
        var later := SkipSteps(s2, turn, next.1, released + {id});
        RunsConcatenate(s1, rest, later);
        rest := rest + later;
      }
      Prepend(s, Release(turn.user), rest);
      steps := [Release(turn.user)] + rest;
    }
  }

  lemma StaysAt(s: State, turn: Turn, contact: Option<int>)
    requires contact.Some? ==> turn.user in s.turns && s.turns[turn.user] == Vetted(contact.value)
    requires contact.None? ==> Idle(s, turn)
    ensures At(s, turn, s.rows, contact) == s
  {
    assert WithTurn(s.turns, turn.user, contact) == s.turns;
  }

  /** Prep, dial and write-back are a release, or a dial and its write. */
  lemma DialSteps(s: State, turn: Turn, id: int) returns (steps: seq<Step>)
    requires Keyed(s.rows) && id in s.rows && s.rows[id].workspace == turn.workspace
    requires turn.user in s.turns && s.turns[turn.user] == Vetted(id)
    ensures Allowed(s, steps)
    ensures var (t, placed, _) := DialClaimed(s.rows, s.contacts, turn, id);
      && Run(s, steps).rows == t && Run(s, steps).turns == s.turns - {turn.user}
      && Run(s, steps).calls == s.calls + multiset(placed)
  {
    if !turn.prepOk(id) {
      ReleaseStep(s, turn, id);
      OneStep(s, Release(turn.user));
      steps := [Release(turn.user)];
      NoCalls(s.calls);
    } else {
      var dial, write := Dial(turn.user, turn.dial(id)), WriteBack(turn.user, turn.now);
      var s1 := Do(s, dial);
      RequeueIsRelease(s1, turn, id);
      OneStep(s1, write);
      Prepend(s, dial, [write]);
      steps := [dial] + [write];
      assert multiset([id]) == multiset{id};
      assert s1.turns - {turn.user} == s.turns - {turn.user};
    }
  }

  /**
   A serial turn is a run of steps of its agent and, first, the sweep: the same table, and the same calls
   placed. The sweep is a step when it hits no claim of a live turn.
   */
  lemma SerialTurnIsRun(s: State, turn: Turn) returns (steps: seq<Step>)
    requires Keyed(s.rows) && CampaignInWorkspace(s.rows, turn.campaign, turn.workspace) && Idle(s, turn)
    requires turn.sweepOk ==> Enabled(s, SweepCampaign(turn.campaign, turn.now))
    ensures Allowed(s, steps)
    ensures var e := SerialTurn(s.rows, s.contacts, turn);
      && Run(s, steps).rows == e.rows && Run(s, steps).turns == s.turns
      && Run(s, steps).calls == s.calls + multiset(e.placed)
  {
    steps := [];
    if !turn.conferenceEnded {
      var s0 := s.(rows := Swept(s.rows, turn));
      assert Keyed(s0.rows) && CampaignInWorkspace(s0.rows, turn.campaign, turn.workspace);
      steps := ClaimedTurnSteps(s0, turn);
      if turn.sweepOk {
        Prepend(s, SweepCampaign(turn.campaign, turn.now), steps);
        steps := [SweepCampaign(turn.campaign, turn.now)] + steps;
      }
    }
    NoCalls(s.calls);
  }

  /** First claim and window skips. */
  lemma FindSteps(s: State, turn: Turn) returns (steps: seq<Step>)
    requires Keyed(s.rows) && CampaignInWorkspace(s.rows, turn.campaign, turn.workspace) && Idle(s, turn)
    ensures Allowed(s, steps)
    ensures var n := NextFor(s.rows, s.contacts, turn);
      && (n.1.Some? ==> n.1.value in n.0)
      && var sk := SkipClosed(n.0, s.contacts, turn, n.1, {});
         && Run(s, steps) == At(s, turn, sk.rows, sk.contact)
         && (sk.contact.Some? ==> sk.rows[sk.contact.value].workspace == turn.workspace)
  {
    var claims := ClaimSteps(s, turn, MAX_OPT_OUT_CLAIM_SKIPS);
    var n := NextFor(s.rows, s.contacts, turn);
    ClaimedInWorkspace(s.rows, s.contacts, turn);
    var s1 := At(s, turn, n.0, n.1);
    var skips := SkipSteps(s1, turn, n.1, {});
    AtAgain(s, turn, n.0, n.1);
    RunsConcatenate(s, claims, skips);
    steps := claims + skips;
  }

  /** The turn after its sweep. */
  lemma ClaimedTurnSteps(s: State, turn: Turn) returns (steps: seq<Step>)
    requires Keyed(s.rows) && CampaignInWorkspace(s.rows, turn.campaign, turn.workspace) && Idle(s, turn)
    ensures Allowed(s, steps)
    ensures var n := NextFor(s.rows, s.contacts, turn);
      var e := FinishTurn(SkipClosed(n.0, s.contacts, turn, n.1, {}), s.contacts, turn);
      && Run(s, steps).rows == e.rows && Run(s, steps).turns == s.turns
      && Run(s, steps).calls == s.calls + multiset(e.placed)
  {
    steps := FindSteps(s, turn);
    var n := NextFor(s.rows, s.contacts, turn);
    var sk := SkipClosed(n.0, s.contacts, turn, n.1, {});
    var s2 := At(s, turn, sk.rows, sk.contact);
    assert s.turns - {turn.user} == s.turns;
    NoCalls(s.calls);
    if sk.contact.Some? {
      var dial := DialSteps(s2, turn, sk.contact.value);
      RunsConcatenate(s, steps, dial);
      steps := steps + dial;
      assert s2.turns - {turn.user} == s.turns;
    }
  }
}
