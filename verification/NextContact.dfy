/** Choosing the next contact to dial: three modes, one rotation. */
module NextContact {
  import opened Prelude

  datatype Item = Item(id: int, phone: string)

  predicate Dialable(c: Item) {
    c.phone != ""
  }

  // ---------- rotation over open places ----------

  /** The first open place of a range, or -1. */
  function FirstOpen(open: seq<bool>, lo: nat, hi: nat): (r: int)
    requires lo <= hi <= |open|
    ensures r >= 0 ==> lo <= r < hi && open[r] && forall j | lo <= j < r :: !open[j]
    ensures r < 0 ==> r == -1 && forall j | lo <= j < hi :: !open[j]
    decreases hi - lo
  {
    if lo == hi then -1 else if open[lo] then lo else FirstOpen(open, lo + 1, hi)
  }

  /** The next open place after `at`, going round and ending with `at` itself. */
  function NextOpen(open: seq<bool>, at: int): int
    requires -1 <= at < |open|
  {
    var after := FirstOpen(open, at + 1, |open|);
    if after >= 0 then after else FirstOpen(open, 0, at + 1)
  }

  /** The open places in order. */
  function Places(open: seq<bool>): seq<nat> {
    if open == [] then []
    else
      var n := |open| - 1;
      if open[n] then Places(open[..n]) + [n] else Places(open[..n])
  }

  /** `places` lists the open places in order. */
  ghost predicate Lists(open: seq<bool>, places: seq<nat>) {
    && (forall i :: 0 <= i < |places| ==> places[i] < |open| && open[places[i]])
    && (forall i, j :: 0 <= i < j < |places| ==> places[i] < places[j])
    && (forall p :: 0 <= p < |open| && open[p] ==> p in places)
  }

  lemma {:induction false} PlacesAscend(open: seq<bool>)
    ensures Lists(open, Places(open))
  {
    if open != [] {
      PlacesAscend(open[..|open| - 1]);
    }
  }

  /** Between two listed places next to each other nothing is open. */
  lemma NoneBetween(open: seq<bool>, places: seq<nat>, k: nat, j: nat)
    requires Lists(open, places) && k < |places| && places[k] < j < |open|
    requires k + 1 < |places| ==> j < places[k + 1]
    ensures !open[j]
  {
    if open[j] {
      var i :| 0 <= i < |places| && places[i] == j;
      Later(places, k, i);
    }
  }

  lemma Later(places: seq<nat>, k: nat, i: nat)
    requires forall i, j :: 0 <= i < j < |places| ==> places[i] < places[j]
    requires k < |places| && i < |places| && places[k] < places[i]
    ensures k + 1 < |places| && places[k + 1] <= places[i]
  {
  }

  lemma NoneBefore(open: seq<bool>, places: seq<nat>, j: nat)
    requires Lists(open, places) && places != [] && j < places[0]
    ensures j < |open| && !open[j]
  {
    assert places[0] < |open|;
  }

  /** One on from `k` in a round of `m`. */
  function Succ(k: nat, m: nat): nat {
    if k + 1 < m then k + 1 else 0
  }

  function Steps(k: nat, n: nat, m: nat): nat {
    if n == 0 then k else Succ(Steps(k, n - 1, m), m)
  }

  lemma {:induction false} StepsInRound(k: nat, n: nat, m: nat)
    requires k < m && n <= m
    ensures Steps(k, n, m) == if k + n < m then k + n else k + n - m
  {
    if n > 0 {
      StepsInRound(k, n - 1, m);
    }
  }

  lemma NextIsNextPlace(open: seq<bool>, places: seq<nat>, k: nat)
    requires Lists(open, places) && k < |places|
    ensures places[k] < |open|
    ensures NextOpen(open, places[k]) == places[Succ(k, |places|)]
  {
    var at := places[k];
    assert at < |open| && open[at];
    if k + 1 < |places| {
      assert at < places[k + 1] < |open| && open[places[k + 1]];
      forall j | at < j < places[k + 1] ensures !open[j] {
        NoneBetween(open, places, k, j);
      }
    } else {
      forall j | at < j < |open| ensures !open[j] {
        NoneBetween(open, places, k, j);
      }
      assert places[0] <= at && open[places[0]];
      forall j | 0 <= j < places[0] ensures !open[j] {
        NoneBefore(open, places, j);
      }
    }
  }

  /** Where the rotation stands after `n` turns. */
  function Walk(open: seq<bool>, start: nat, n: nat): int
    requires start < |open|
    ensures -1 <= Walk(open, start, n) < |open|
  {
    if n == 0 then start else NextOpen(open, Walk(open, start, n - 1))
  }

  /** The walk goes through the open places in turn. */
  lemma {:induction false} WalkGoesRound(open: seq<bool>, places: seq<nat>, k: nat, n: nat)
    requires Lists(open, places) && k < |places|
    ensures places[k] < |open| && Steps(k, n, |places|) < |places|
    ensures Walk(open, places[k], n) == places[Steps(k, n, |places|)]
  {
    if n > 0 {
      WalkGoesRound(open, places, k, n - 1);
      NextIsNextPlace(open, places, Steps(k, n - 1, |places|));
    }
  }

  /** In one round every open place comes exactly once, and then the start again. */
  lemma PlaceComes(open: seq<bool>, places: seq<nat>, k: nat, i: nat) returns (n: nat)
    requires Lists(open, places) && k < |places| && i < |places|
    ensures places[k] < |open| && n < |places| && Walk(open, places[k], n) == places[i]
  {
    n := if i >= k then i - k else i - k + |places|;
    WalkGoesRound(open, places, k, n);
    StepsInRound(k, n, |places|);
  }

  /** Turns less than a round apart stand at different places. */
  lemma PlacesComeOnce(open: seq<bool>, places: seq<nat>, k: nat, n: nat, n': nat)
    requires Lists(open, places) && k < |places| && n < n' <= |places| && n' - n < |places|
    ensures places[k] < |open| && Walk(open, places[k], n) != Walk(open, places[k], n')
  {
    WalkGoesRound(open, places, k, n);
    WalkGoesRound(open, places, k, n');
    StepsInRound(k, n, |places|);
    StepsInRound(k, n', |places|);
    assert Steps(k, n, |places|) != Steps(k, n', |places|);
  }

  lemma StartComesBack(open: seq<bool>, places: seq<nat>, k: nat)
    requires Lists(open, places) && k < |places|
    ensures places[k] < |open| && Walk(open, places[k], |places|) == places[k]
  {
    WalkGoesRound(open, places, k, |places|);
    StepsInRound(k, |places|, |places|);
  }

  // ---------- the three modes ----------

  /** Array.prototype.findIndex by id: -1 if nobody has it. */
  function FindId(items: seq<Item>, id: int): (r: int)
    ensures -1 <= r < |items|
    ensures r >= 0 ==> items[r].id == id && forall j | 0 <= j < r :: items[j].id != id
    ensures r < 0 ==> forall j | 0 <= j < |items| :: items[j].id != id
    decreases |items|
  {
    if items == [] then -1
    else if items[0].id == id then 0
    else var r := FindId(items[1..], id); if r < 0 then -1 else r + 1
  }

  predicate HasId(items: seq<Item>, id: int) {
    exists i :: 0 <= i < |items| && items[i].id == id
  }

  function FindHousehold(households: seq<seq<Item>>, id: int): (r: int)
    ensures -1 <= r < |households|
    ensures r >= 0 ==> HasId(households[r], id) && forall j | 0 <= j < r :: !HasId(households[j], id)
    ensures r < 0 ==> forall j | 0 <= j < |households| :: !HasId(households[j], id)
  {
    if households == [] then -1
    else if HasId(households[0], id) then 0
    else var r := FindHousehold(households[1..], id); if r < 0 then -1 else r + 1
  }

  function Open(items: seq<Item>): seq<bool> {
    seq(|items|, i requires 0 <= i < |items| => Dialable(items[i]))
  }

  function FirstDialable(items: seq<Item>): int {
    FirstOpen(Open(items), 0, |items|)
  }

  function OpenHouseholds(households: seq<seq<Item>>): seq<bool> {
    seq(|households|, i requires 0 <= i < |households| => FirstDialable(households[i]) >= 0)
  }

  function NextInList(items: seq<Item>, id: int): Option<Item> {
    var next := NextOpen(Open(items), FindId(items, id));
    if next < 0 then None else Some(items[next])
  }

  function NextInHouseholds(households: seq<seq<Item>>, id: int): Option<Item> {
    var next := NextOpen(OpenHouseholds(households), FindHousehold(households, id));
    if next < 0 then None else Some(households[next][FirstDialable(households[next])])
  }

  function Flatten(households: seq<seq<Item>>): seq<Item> {
    if households == [] then [] else Flatten(households[..|households| - 1]) + households[|households| - 1]
  }

  /** The loop over one range of a list. */
  method ScanItems(items: seq<Item>, lo: nat, hi: nat) returns (found: Option<Item>)
    requires lo <= hi <= |items|
    ensures var r := FirstOpen(Open(items), lo, hi); found == if r < 0 then None else Some(items[r])
  {
    for i := lo to hi
      invariant FirstOpen(Open(items), lo, hi) == FirstOpen(Open(items), i, hi)
    {
      if items[i].phone != "" {
        return Some(items[i]);
      }
    }
    return None;
  }

  method ScanHouseholds(households: seq<seq<Item>>, lo: nat, hi: nat) returns (found: Option<Item>)
    requires lo <= hi <= |households|
    ensures var r := FirstOpen(OpenHouseholds(households), lo, hi);
            found == if r < 0 then None else Some(households[r][FirstDialable(households[r])])
  {
    for i := lo to hi
      invariant FirstOpen(OpenHouseholds(households), lo, hi) == FirstOpen(OpenHouseholds(households), i, hi)
    {
      var member := ScanItems(households[i], 0, |households[i]|);
      if member.Some? {
        return member;
      }
    }
    return None;
  }

  method GetNextContact(queue: Option<seq<Item>>, householdMap: Option<seq<seq<Item>>>, nextRecipient: Option<Item>,
                        groupByHousehold: bool, skipHousehold: bool)
    returns (next: Option<Item>)
    ensures queue.None? || householdMap.None? || nextRecipient.None? ==> next == None
    ensures queue.Some? && householdMap.Some? && nextRecipient.Some? ==>
      next == if groupByHousehold && skipHousehold then NextInHouseholds(householdMap.value, nextRecipient.value.id)
              else if groupByHousehold then NextInList(Flatten(householdMap.value), nextRecipient.value.id)
              else NextInList(queue.value, nextRecipient.value.id)
  {
    if queue.None? || householdMap.None? || nextRecipient.None? {
      return None;
    }
    var households, id := householdMap.value, nextRecipient.value.id;
    var allHouseholds: seq<Item> := [];
    for i := 0 to |households|
      invariant allHouseholds == Flatten(households[..i])
    {
      assert households[..i + 1][..i] == households[..i];
      allHouseholds := allHouseholds + households[i];
    }
    assert households[..|households|] == households;
    if groupByHousehold && skipHousehold {
      var currIndex := FindHousehold(households, id);
      next := ScanHouseholds(households, currIndex + 1, |households|);
      if next.None? {
        next := ScanHouseholds(households, 0, currIndex + 1);
      }
    } else {
      var items := if groupByHousehold then allHouseholds else queue.value;
      var currIndex := FindId(items, id);
      next := ScanItems(items, currIndex + 1, |items|);
      if next.None? {
        next := ScanItems(items, 0, currIndex + 1);
      }
    }
  }

  // ---------- the choice, place by place ----------

  /** The place of the contact with this id, or before the first if there is none. */
  ghost predicate IsPlaceOf(items: seq<Item>, id: int, at: int) {
    && -1 <= at < |items| && (at >= 0 ==> items[at].id == id)
    && (forall j | 0 <= j < (if at < 0 then |items| else at) :: items[j].id != id)
  }

  /** Of all places with a phone this is the one the search comes to: behind `at`, then from the start up to it. */
  ghost predicate ComesNext(items: seq<Item>, at: int, next: int) {
    && -1 <= at < |items| && 0 <= next < |items| && items[next].phone != ""
    && (if next > at then forall j | at < j < next :: items[j].phone == ""
        else (forall j | at < j < |items| :: items[j].phone == "") && forall j | 0 <= j < next :: items[j].phone == "")
  }

  /**
   * The next contact is the first with a phone behind the current one, going round; a list without the id is
   * searched from its start.
   */
  lemma NextInListExactly(items: seq<Item>, id: int) returns (at: int, next: int)
    ensures IsPlaceOf(items, id, at)
    ensures NextInList(items, id).None? <==> forall j | 0 <= j < |items| :: items[j].phone == ""
    ensures NextInList(items, id).Some? ==> ComesNext(items, at, next) && NextInList(items, id) == Some(items[next])
  {
    at := FindId(items, id);
    next := NextOpen(Open(items), at);
    assert forall j | 0 <= j < |items| :: Open(items)[j] <==> items[j].phone != "";
  }

  /** The household of the id, or before the first if there is none. */
  ghost predicate IsHouseholdOf(households: seq<seq<Item>>, id: int, at: int) {
    && -1 <= at < |households| && (at >= 0 ==> HasId(households[at], id))
    && (forall j | 0 <= j < (if at < 0 then |households| else at) :: !HasId(households[j], id))
  }

  ghost predicate Silent(household: seq<Item>) {
    forall i | 0 <= i < |household| :: household[i].phone == ""
  }

  ghost predicate HouseholdComesNext(households: seq<seq<Item>>, at: int, next: int) {
    && -1 <= at < |households| && 0 <= next < |households| && !Silent(households[next])
    && (if next > at then forall j | at < j < next :: Silent(households[j])
        else (forall j | at < j < |households| :: Silent(households[j]))
             && forall j | 0 <= j < next :: Silent(households[j]))
  }

  lemma FirstDialableExactly(items: seq<Item>)
    ensures var m := FirstDialable(items);
      && (m < 0 <==> Silent(items))
      && (m >= 0 ==> m < |items| && items[m].phone != "" && forall i | 0 <= i < m :: items[i].phone == "")
  {
    assert forall j | 0 <= j < |items| :: Open(items)[j] <==> items[j].phone != "";
  }

  /** The same by households: the first with a phone in the next household that has one. */
  lemma NextInHouseholdsExactly(households: seq<seq<Item>>, id: int) returns (at: int, next: int, member: int)
    ensures IsHouseholdOf(households, id, at)
    ensures NextInHouseholds(households, id).None? <==> forall j | 0 <= j < |households| :: Silent(households[j])
    ensures NextInHouseholds(households, id).Some? ==>
      && HouseholdComesNext(households, at, next)
      && 0 <= member < |households[next]| && households[next][member].phone != ""
      && (forall i | 0 <= i < member :: households[next][i].phone == "")
      && NextInHouseholds(households, id) == Some(households[next][member])
  {
    at := FindHousehold(households, id);
    next := NextOpen(OpenHouseholds(households), at);
    member := if next < 0 then -1 else FirstDialable(households[next]);
    forall j | 0 <= j < |households| ensures OpenHouseholds(households)[j] <==> !Silent(households[j]) {
      FirstDialableExactly(households[j]);
    }
    if next >= 0 {
      FirstDialableExactly(households[next]);
    }
  }

  /** In household order the members of the first household come first, in their order, and then the others. */
  lemma {:induction false} FlattenFromFirst(households: seq<seq<Item>>)
    requires households != []
    ensures Flatten(households) == households[0] + Flatten(households[1..])
    decreases |households|
  {
    var n := |households| - 1;
    var front, rest := households[..n], households[1..];
    if n > 0 {
      FlattenFromFirst(front);
      assert rest[..n - 1] == front[1..] && rest[n - 1] == households[n];
      FlattenLast(rest, front[1..], households[n]);
      assert front[0] + Flatten(front[1..]) + households[n] == front[0] + (Flatten(front[1..]) + households[n]);
    } else {
      assert front == [] && rest == [];
    }
  }

  lemma FlattenLast(households: seq<seq<Item>>, front: seq<seq<Item>>, last: seq<Item>)
    requires households != [] && households[..|households| - 1] == front && households[|households| - 1] == last
    ensures Flatten(households) == Flatten(front) + last
  {
  }

  // ---------- what the modes come to ----------

  predicate DistinctIds(items: seq<Item>) {
    forall i, j | 0 <= i < j < |items| :: items[i].id != items[j].id
  }

  /** No id occurs in two households. */
  predicate HouseholdsApart(households: seq<seq<Item>>) {
    forall i, j | 0 <= i < j < |households| ::
      forall a, b | 0 <= a < |households[i]| && 0 <= b < |households[j]| :: households[i][a].id != households[j][b].id
  }

  /** Nobody is returned exactly when nobody can be dialled. */
  lemma NobodyExactly(items: seq<Item>, id: int)
    ensures NextInList(items, id) == None <==> forall i | 0 <= i < |items| :: !Dialable(items[i])
  {
    forall i | 0 <= i < |items| ensures Open(items)[i] == Dialable(items[i]) {
    }
  }

  lemma NobodyInHouseholdsExactly(households: seq<seq<Item>>, id: int)
    ensures NextInHouseholds(households, id) == None
       <==> forall h | 0 <= h < |households| :: forall i | 0 <= i < |households[h]| :: !Dialable(households[h][i])
  {
    forall h | 0 <= h < |households|
      ensures OpenHouseholds(households)[h] <==> exists i :: 0 <= i < |households[h]| && Dialable(households[h][i])
    {
      forall i | 0 <= i < |households[h]| ensures Open(households[h])[i] == Dialable(households[h][i]) {
      }
    }
  }

  /** The contact dialled `n` turns after `start`. */
  function Turn(items: seq<Item>, start: Item, n: nat): Option<Item> {
    if n == 0 then Some(start)
    else
      var before := Turn(items, start, n - 1);
      if before.None? then None else NextInList(items, before.value.id)
  }

  /** One turn on from a place in a list. */
  lemma NextItem(items: seq<Item>, at: nat)
    requires DistinctIds(items) && at < |items| && Open(items)[at]
    ensures var next := NextOpen(Open(items), at);
            next >= 0 && Open(items)[next] && NextInList(items, items[at].id) == Some(items[next])
  {
    assert FindId(items, items[at].id) == at;
  }

  /** After `n` turns from place `p`, the contact at `at` is the one dialled, and that is where the walk is. */
  ghost predicate TurnIsAt(items: seq<Item>, p: nat, n: nat, at: int)
    requires p < |items|
  {
    && 0 <= at < |items| && Open(items)[at]
    && Walk(Open(items), p, n) == at
    && Turn(items, items[p], n) == Some(items[at])
  }

  lemma TurnThen(items: seq<Item>, start: Item, m: nat, at: nat)
    requires at < |items| && Turn(items, start, m) == Some(items[at])
    ensures Turn(items, start, m + 1) == NextInList(items, items[at].id)
  {
  }

  lemma TurnGoesOn(items: seq<Item>, p: nat, m: nat, at: int)
    requires DistinctIds(items) && p < |items| && TurnIsAt(items, p, m, at)
    ensures TurnIsAt(items, p, m + 1, NextOpen(Open(items), at))
  {
    NextItem(items, at);
    TurnThen(items, items[p], m, at);
    assert Walk(Open(items), p, m + 1) == NextOpen(Open(items), at);
  }

  /** With distinct ids, dialling on from a dialable contact walks its list. */
  lemma {:induction false} TurnIsWalk(items: seq<Item>, p: nat, n: nat)
    requires DistinctIds(items) && p < |items| && Dialable(items[p])
    ensures TurnIsAt(items, p, n, Walk(Open(items), p, n))
  {
    if n > 0 {
      var m := n - 1;
      TurnIsWalk(items, p, m);
      TurnGoesOn(items, p, m, Walk(Open(items), p, m));
    }
  }

  /**
   * Rotation, in queue and household order: from a dialable contact, one round of turns dials every
   * dialable contact once, nobody twice, and then comes back.
   */
  lemma RotationVisitsAll(items: seq<Item>, p: nat, q: nat)
    requires DistinctIds(items) && p < |items| && q < |items| && Dialable(items[p]) && Dialable(items[q])
    ensures var m := |Places(Open(items))|;
            && (exists n :: 0 <= n < m && Turn(items, items[p], n) == Some(items[q]))
            && (forall n, n' | 0 <= n < n' < m :: Turn(items, items[p], n) != Turn(items, items[p], n'))
            && Turn(items, items[p], m) == Some(items[p])
  {
    var open, places := Open(items), Places(Open(items));
    PlacesAscend(open);
    assert open[p] && open[q];
    var k :| 0 <= k < |places| && places[k] == p;
    var i :| 0 <= i < |places| && places[i] == q;
    var steps := PlaceComes(open, places, k, i);
    TurnIsWalk(items, p, steps);
    StartComesBack(open, places, k);
    TurnIsWalk(items, p, |places|);
    forall n, n' | 0 <= n < n' < |places| ensures Turn(items, items[p], n) != Turn(items, items[p], n') {
      PlacesComeOnce(open, places, k, n, n');
      TurnIsWalk(items, p, n);
      TurnIsWalk(items, p, n');
      DistinctItems(items, Walk(open, p, n), Walk(open, p, n'));
    }
  }

  lemma DistinctItems(items: seq<Item>, i: nat, j: nat)
    requires DistinctIds(items) && i < |items| && j < |items| && i != j
    ensures items[i] != items[j]
  {
  }

  /** The contact dialled `n` turns after `start` when the rest of a household is skipped. */
  function HouseholdTurn(households: seq<seq<Item>>, start: Item, n: nat): Option<Item> {
    if n == 0 then Some(start)
    else
      var before := HouseholdTurn(households, start, n - 1);
      if before.None? then None else NextInHouseholds(households, before.value.id)
  }

  lemma HouseholdOf(households: seq<seq<Item>>, h: nat, i: nat)
    requires HouseholdsApart(households) && h < |households| && i < |households[h]|
    ensures FindHousehold(households, households[h][i].id) == h
  {
    var id := households[h][i].id;
    assert HasId(households[h], id);
    assert FindHousehold(households, id) <= h;
    assert forall r | 0 <= r < h :: !HasId(households[r], id);
  }

  /** One turn on from a household. */
  lemma NextHousehold(households: seq<seq<Item>>, h: nat, i: nat)
    requires HouseholdsApart(households) && h < |households| && i < |households[h]|
    requires FirstDialable(households[h]) >= 0
    ensures var at := NextOpen(OpenHouseholds(households), h);
            && at >= 0 && FirstDialable(households[at]) >= 0
            && NextInHouseholds(households, households[h][i].id) == Some(households[at][FirstDialable(households[at])])
  {
    HouseholdOf(households, h, i);
    assert OpenHouseholds(households)[h];
  }

  /**
   * Skipping households: from any member of a household with somebody to dial, `n` turns on comes the
   * first dialable member of the household the walk over such households reaches.
   */
  lemma {:induction false} HouseholdTurnIsWalk(households: seq<seq<Item>>, h: nat, i: nat, n: nat)
    requires HouseholdsApart(households) && h < |households| && i < |households[h]|
    requires FirstDialable(households[h]) >= 0 && n > 0
    ensures var at := Walk(OpenHouseholds(households), h, n);
            && at >= 0 && FirstDialable(households[at]) >= 0
            && HouseholdTurn(households, households[h][i], n) == Some(households[at][FirstDialable(households[at])])
  {
    var open := OpenHouseholds(households);
    if n == 1 {
      NextHousehold(households, h, i);
      assert HouseholdTurn(households, households[h][i], 0) == Some(households[h][i]);
      assert Walk(open, h, 0) == h;
    } else {
      HouseholdTurnIsWalk(households, h, i, n - 1);
      var at := Walk(open, h, n - 1);
      NextHousehold(households, at, FirstDialable(households[at]));
    }
  }

  /** Two turns of one round go to different households, and so to different contacts. */
  lemma HouseholdsOnce(households: seq<seq<Item>>, h: nat, i: nat, n: nat, n': nat)
    requires HouseholdsApart(households) && h < |households| && i < |households[h]|
    requires FirstDialable(households[h]) >= 0 && 0 < n < n' <= |Places(OpenHouseholds(households))|
    ensures HouseholdTurn(households, households[h][i], n) != HouseholdTurn(households, households[h][i], n')
  {
    var open, places := OpenHouseholds(households), Places(OpenHouseholds(households));
    PlacesAscend(open);
    assert open[h];
    var k :| 0 <= k < |places| && places[k] == h;
    PlacesComeOnce(open, places, k, n, n');
    HouseholdTurnIsWalk(households, h, i, n);
    HouseholdTurnIsWalk(households, h, i, n');
    MembersApart(households, Walk(open, h, n), Walk(open, h, n'));
  }

  lemma MembersApart(households: seq<seq<Item>>, g: nat, g': nat)
    requires HouseholdsApart(households) && g < |households| && g' < |households| && g != g'
    requires FirstDialable(households[g]) >= 0 && FirstDialable(households[g']) >= 0
    ensures households[g][FirstDialable(households[g])] != households[g'][FirstDialable(households[g'])]
  {
  }

  lemma HouseholdCalled(households: seq<seq<Item>>, h: nat, i: nat, g: nat) returns (n: nat)
    requires HouseholdsApart(households) && h < |households| && i < |households[h]| && g < |households|
    requires FirstDialable(households[h]) >= 0 && FirstDialable(households[g]) >= 0
    ensures 0 < n <= |Places(OpenHouseholds(households))|
    ensures g == h ==> n == |Places(OpenHouseholds(households))|
    ensures HouseholdTurn(households, households[h][i], n) == Some(households[g][FirstDialable(households[g])])
  {
    var open, places := OpenHouseholds(households), Places(OpenHouseholds(households));
    PlacesAscend(open);
    assert open[h] && open[g];
    var k :| 0 <= k < |places| && places[k] == h;
    var l :| 0 <= l < |places| && places[l] == g;
    if g == h {
      n := |places|;
      StartComesBack(open, places, k);
    } else {
      n := PlaceComes(open, places, k, l);
      assert n > 0 by {
        assert Walk(open, h, 0) == h;
      }
    }
    HouseholdTurnIsWalk(households, h, i, n);
  }

  /**
   * So in one round every household with somebody to dial is called once, none twice, and the current one
   * last; alone, it is called again at once.
   */
  lemma HouseholdsTakeTurns(households: seq<seq<Item>>, h: nat, i: nat, g: nat)
    requires HouseholdsApart(households) && h < |households| && i < |households[h]| && g < |households|
    requires FirstDialable(households[h]) >= 0 && FirstDialable(households[g]) >= 0
    ensures var m, start := |Places(OpenHouseholds(households))|, households[h][i];
            && m > 0
            && HouseholdTurn(households, start, m) == Some(households[h][FirstDialable(households[h])])
            && (exists n :: 0 < n <= m
                  && HouseholdTurn(households, start, n) == Some(households[g][FirstDialable(households[g])]))
            && (forall n, n' | 0 < n < n' <= m ::
                  HouseholdTurn(households, start, n) != HouseholdTurn(households, start, n'))
  {
    var back := HouseholdCalled(households, h, i, h);
    var there := HouseholdCalled(households, h, i, g);
    forall n: nat, n': nat | 0 < n < n' <= |Places(OpenHouseholds(households))|
      ensures HouseholdTurn(households, households[h][i], n) != HouseholdTurn(households, households[h][i], n')
    {
      HouseholdsOnce(households, h, i, n, n');
    }
  }
}
