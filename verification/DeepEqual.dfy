/**
 * Deep equality over a heap of shared objects, cycles included, with a memo of compared pairs that is
 * updated in place. A comparison that ends decides equality of the possibly infinite unfoldings; it ends
 * on every graph without cycles, and on some with them.
 */
module DeepEqual {
  import opened Prelude

  type Id = nat

  datatype Prim = Undefined | Null | Bool(b: bool) | Number(n: int) | Text(s: string)
  datatype Value = P(prim: Prim) | Ref(id: Id)
  datatype Node =
    | Date(time: int)
    | RegExp(source: string)
    | Arr(items: seq<Value>)
    | Obj(keys: seq<string>, fields: map<string, Value>)

  type Heap = map<Id, Node>

  predicate Resolves(h: Heap, v: Value) {
    v.Ref? ==> v.id in h
  }

  /** An object lists each own key once, and references lead to nodes. */
  ghost predicate WellFormed(h: Heap, n: Node) {
    match n
    case Arr(items) => forall i | 0 <= i < |items| :: Resolves(h, items[i])
    case Obj(keys, fields) =>
      && (forall i, j | 0 <= i < j < |keys| :: keys[i] != keys[j])
      && (forall k :: k in keys <==> k in fields)
      && (forall k | k in fields :: Resolves(h, fields[k]))
    case _ => true
  }

  ghost predicate Closed(h: Heap) {
    forall id | id in h :: WellFormed(h, h[id])
  }

  // ---------- equality of unfoldings ----------

  /** The values behind two references agree down to a depth. */
  ghost predicate AlikeTo(h: Heap, n: nat, a: Value, b: Value)
    requires Closed(h) && Resolves(h, a) && Resolves(h, b)
    decreases n, 1
  {
    match (a, b)
    case (P(p), P(q)) => n == 0 || p == q
    case (Ref(x), Ref(y)) => n == 0 || NodesAlikeTo(h, n - 1, x, y)
    case _ => n == 0
  }

  ghost predicate NodesAlikeTo(h: Heap, n: nat, x: Id, y: Id)
    requires Closed(h) && x in h && y in h
    decreases n + 1, 0
  {
    assert WellFormed(h, h[x]) && WellFormed(h, h[y]);
    match (h[x], h[y])
    case (Date(t), Date(u)) => t == u
    case (RegExp(s), RegExp(t)) => s == t
    case (Arr(xs), Arr(ys)) => |xs| == |ys| && forall i | 0 <= i < |xs| :: AlikeTo(h, n, xs[i], ys[i])
    case (Obj(_, fs), Obj(_, gs)) => fs.Keys == gs.Keys && forall k | k in fs :: AlikeTo(h, n, fs[k], gs[k])
    case _ => false
  }

  /** The two unfoldings, finite or not, are the same. */
  ghost predicate Alike(h: Heap, a: Value, b: Value)
    requires Closed(h) && Resolves(h, a) && Resolves(h, b)
  {
    forall n: nat :: AlikeTo(h, n, a, b)
  }

  lemma {:induction false} AlikeItself(h: Heap, n: nat, a: Value)
    requires Closed(h) && Resolves(h, a)
    ensures AlikeTo(h, n, a, a)
  {
    if n > 0 && a.Ref? {
      assert WellFormed(h, h[a.id]);
      match h[a.id] {
        case Arr(items) =>
          forall i | 0 <= i < |items| ensures AlikeTo(h, n - 1, items[i], items[i]) {
            AlikeItself(h, n - 1, items[i]);
          }
        case Obj(_, fields) =>
          forall k | k in fields ensures AlikeTo(h, n - 1, fields[k], fields[k]) {
            AlikeItself(h, n - 1, fields[k]);
          }
        case _ =>
      }
    }
  }

  // ---------- what the comparison does ----------

  /** A child and its counterpart; an own key may have none. */
  datatype Pending = Pending(left: Value, right: Option<Value>)

  predicate BothResolve(h: Heap, p: Pending) {
    Resolves(h, p.left) && (p.right.Some? ==> Resolves(h, p.right.value))
  }

  predicate AllResolve(h: Heap, todo: seq<Pending>) {
    forall i | 0 <= i < |todo| :: BothResolve(h, todo[i])
  }

  /** The same kind of node, of the same size. */
  predicate HeadsMatch(m: Node, n: Node) {
    match (m, n)
    case (Date(t), Date(u)) => t == u
    case (RegExp(s), RegExp(t)) => s == t
    case (Arr(xs), Arr(ys)) => |xs| == |ys|
    case (Obj(ks, _), Obj(ls, _)) => |ks| == |ls|
    case _ => false
  }

  function ItemsTodo(xs: seq<Value>, ys: seq<Value>): seq<Pending>
    requires |xs| == |ys|
  {
    seq(|xs|, i requires 0 <= i < |xs| => Pending(xs[i], Some(ys[i])))
  }

  function FieldsTodo(keys: seq<string>, fs: map<string, Value>, gs: map<string, Value>): seq<Pending>
    requires forall i | 0 <= i < |keys| :: keys[i] in fs
  {
    seq(|keys|, i requires 0 <= i < |keys| =>
      Pending(fs[keys[i]], if keys[i] in gs then Some(gs[keys[i]]) else None))
  }

  /** The children to compare, in the order of the items or of the left object's keys. */
  ghost function Todo(h: Heap, x: Id, y: Id): (todo: seq<Pending>)
    requires Closed(h) && x in h && y in h && HeadsMatch(h[x], h[y])
    ensures AllResolve(h, todo)
  {
    assert WellFormed(h, h[x]) && WellFormed(h, h[y]);
    match h[x]
    case Arr(items) => ItemsTodo(items, h[y].items)
    case Obj(keys, fields) => FieldsTodo(keys, fields, h[y].fields)
    case _ => []
  }

  /** How a comparison ends: out of stack, or with an answer and the memo it leaves. */
  datatype Outcome = Exhausted | Answer(equal: bool, pairs: map<Id, Id>)

  /** The comparison on a stack of `depth` calls, with the memo: for an object, the last one it was compared with. */
  ghost function Compare(h: Heap, depth: nat, a: Value, b: Value, pairs: map<Id, Id>): Outcome
    requires Closed(h) && Resolves(h, a) && Resolves(h, b)
    decreases depth, 0, 0
  {
    if depth == 0 then Exhausted
    else if a == b then Answer(true, pairs)
    else if a.P? || b.P? then Answer(false, pairs)
    else
      var x, y := a.id, b.id;
      var objects := h[x].Obj? && h[y].Obj?;
      if objects && x in pairs && pairs[x] == y then Answer(true, pairs)
      else
        var noted := if objects then pairs[x := y] else pairs;
        if HeadsMatch(h[x], h[y]) then CompareAll(h, depth - 1, Todo(h, x, y), noted) else Answer(false, noted)
  }

  ghost function CompareAll(h: Heap, depth: nat, todo: seq<Pending>, pairs: map<Id, Id>): Outcome
    requires Closed(h) && AllResolve(h, todo)
    decreases depth, 1, |todo|
  {
    if todo == [] then Answer(true, pairs)
    else
      assert BothResolve(h, todo[0]);
      if todo[0].right.None? then Answer(false, pairs)
      else
        var first := Compare(h, depth, todo[0].left, todo[0].right.value, pairs);
        if first.Exhausted? || !first.equal then first else CompareAll(h, depth, todo[1..], first.pairs)
  }

  // ---------- the comparison, as a loop over children with the memo updated in place ----------

  class SeenMap {
    var pairs: map<Id, Id>

    constructor ()
      ensures pairs == map[]
    {
      pairs := map[];
    }

    method Set(x: Id, y: Id)
      modifies this
      ensures pairs == old(pairs)[x := y]
    {
      pairs := pairs[x := y];
    }
  }

  /** An answer and the memo left behind, or None when the stack runs out. */
  ghost predicate Meets(r: Option<bool>, pairs: map<Id, Id>, outcome: Outcome) {
    if r.None? then outcome == Exhausted else outcome == Answer(r.value, pairs)
  }

  method Equal(h: Heap, a: Value, b: Value, seen: SeenMap, depth: nat) returns (equal: Option<bool>)
    requires Closed(h) && Resolves(h, a) && Resolves(h, b)
    modifies seen
    ensures Meets(equal, seen.pairs, Compare(h, depth, a, b, old(seen.pairs)))
    decreases depth, 1
  {
    if depth == 0 {
      return None;
    }
    if a == b {
      return Some(true);
    }
    if a.P? || b.P? {
      return Some(false);
    }
    match (h[a.id], h[b.id]) {
      case (Date(t), Date(u)) => {
        equal := Some(t == u);
      }
      case (RegExp(s), RegExp(t)) => {
        equal := Some(s == t);
      }
      case (Arr(xs), Arr(ys)) => {
        equal := EqualItems(h, a.id, b.id, seen, depth - 1);
      }
      case (Obj(ks, fs), Obj(ls, gs)) => {
        equal := EqualFields(h, a.id, b.id, seen, depth - 1);
      }
      case _ => {
        equal := Some(false);
      }
    }
  }

  method EqualItems(h: Heap, x: Id, y: Id, seen: SeenMap, depth: nat) returns (equal: Option<bool>)
    requires Closed(h) && x in h && y in h && h[x].Arr? && h[y].Arr?
    modifies seen
    ensures !HeadsMatch(h[x], h[y]) ==> equal == Some(false) && seen.pairs == old(seen.pairs)
    ensures HeadsMatch(h[x], h[y]) ==> Meets(equal, seen.pairs, CompareAll(h, depth, Todo(h, x, y), old(seen.pairs)))
    decreases depth, 2
  {
    var xs, ys := h[x].items, h[y].items;
    if |xs| != |ys| {
      return Some(false);
    }
    ghost var todo, outcome := Todo(h, x, y), CompareAll(h, depth, Todo(h, x, y), seen.pairs);
    for i := 0 to |xs|
      invariant CompareAll(h, depth, todo[i..], seen.pairs) == outcome
    {
      assert todo[i..][0] == todo[i] == Pending(xs[i], Some(ys[i])) && todo[i..][1..] == todo[i + 1..];
      assert BothResolve(h, todo[i]);
      var same := Equal(h, xs[i], ys[i], seen, depth);
      if same != Some(true) {
        return same;
      }
    }
    return Some(true);
  }

  method EqualFields(h: Heap, x: Id, y: Id, seen: SeenMap, depth: nat) returns (equal: Option<bool>)
    requires Closed(h) && x in h && y in h && h[x].Obj? && h[y].Obj? && x != y
    modifies seen
    ensures Meets(equal, seen.pairs, Compare(h, depth + 1, Ref(x), Ref(y), old(seen.pairs)))
    decreases depth, 2
  {
    if x in seen.pairs && seen.pairs[x] == y {
      return Some(true);
    }
    seen.Set(x, y);
    var keys, fs, gs := h[x].keys, h[x].fields, h[y].fields;
    if |keys| != |h[y].keys| {
      return Some(false);
    }
    assert WellFormed(h, h[x]);
    ghost var todo, outcome := Todo(h, x, y), CompareAll(h, depth, Todo(h, x, y), seen.pairs);
    for i := 0 to |keys|
      invariant CompareAll(h, depth, todo[i..], seen.pairs) == outcome
    {
      var key := keys[i];
      assert todo[i..][0] == todo[i] && todo[i..][1..] == todo[i + 1..];
      assert BothResolve(h, todo[i]);
      if key !in gs {
        return Some(false);
      }
      var same := Equal(h, fs[key], gs[key], seen, depth);
      if same != Some(true) {
        return same;
      }
    }
    return Some(true);
  }

  // ---------- matching nodes, child by child ----------

  function KeySet(keys: seq<string>): set<string> {
    set k | k in keys
  }

  lemma {:induction false} DistinctKeySet(keys: seq<string>)
    requires forall i, j | 0 <= i < j < |keys| :: keys[i] != keys[j]
    ensures |KeySet(keys)| == |keys|
  {
    if keys != [] {
      var n := |keys| - 1;
      DistinctKeySet(keys[..n]);
      assert KeySet(keys) == KeySet(keys[..n]) + {keys[n]};
    }
  }

  lemma SubsetOfSameSize<A>(s: set<A>, t: set<A>)
    requires s <= t && |s| == |t|
    ensures s == t
  {
    assert t == s + (t - s);
    assert |t - s| == 0;
  }

  /** Equally many keys, and every key of one in the other, is the same set of keys. */
  lemma SameKeys(h: Heap, x: Node, y: Node)
    requires x.Obj? && y.Obj? && WellFormed(h, x) && WellFormed(h, y)
    ensures |x.keys| == |y.keys| && (forall k | k in x.keys :: k in y.fields) <==> x.fields.Keys == y.fields.Keys
  {
    DistinctKeySet(x.keys);
    DistinctKeySet(y.keys);
    assert KeySet(x.keys) == x.fields.Keys && KeySet(y.keys) == y.fields.Keys;
    if |x.keys| == |y.keys| && forall k | k in x.keys :: k in y.fields {
      SubsetOfSameSize(KeySet(x.keys), KeySet(y.keys));
    }
  }

  ghost predicate PendingAlike(h: Heap, n: nat, p: Pending)
    requires Closed(h) && BothResolve(h, p)
  {
    p.right.Some? && AlikeTo(h, n, p.left, p.right.value)
  }

  /** Nodes are alike when they match and their children, one by one, are. */
  lemma NodesAlikeExactly(h: Heap, n: nat, x: Id, y: Id)
    requires Closed(h) && x in h && y in h
    ensures NodesAlikeTo(h, n, x, y)
       <==> HeadsMatch(h[x], h[y]) && forall i | 0 <= i < |Todo(h, x, y)| :: PendingAlike(h, n, Todo(h, x, y)[i])
  {
    assert WellFormed(h, h[x]) && WellFormed(h, h[y]);
    match (h[x], h[y]) {
      case (Arr(xs), Arr(ys)) => ItemsAlikeExactly(h, n, x, y);
      case (Obj(ks, fs), Obj(ls, gs)) => FieldsAlikeExactly(h, n, x, y);
      case _ =>
    }
  }

  lemma ItemsAlikeExactly(h: Heap, n: nat, x: Id, y: Id)
    requires Closed(h) && x in h && y in h && h[x].Arr? && h[y].Arr?
    ensures NodesAlikeTo(h, n, x, y)
       <==> HeadsMatch(h[x], h[y]) && forall i | 0 <= i < |Todo(h, x, y)| :: PendingAlike(h, n, Todo(h, x, y)[i])
  {
    var xs, ys := h[x].items, h[y].items;
    assert WellFormed(h, h[x]) && WellFormed(h, h[y]);
    if |xs| == |ys| {
      forall i | 0 <= i < |xs| ensures PendingAlike(h, n, Todo(h, x, y)[i]) <==> AlikeTo(h, n, xs[i], ys[i]) {
      }
    }
  }

  ghost predicate FieldAlike(h: Heap, n: nat, x: Id, y: Id, k: string)
    requires Closed(h) && x in h && y in h && h[x].Obj? && h[y].Obj? && k in h[x].fields
  {
    assert WellFormed(h, h[x]) && WellFormed(h, h[y]);
    k in h[y].fields && AlikeTo(h, n, h[x].fields[k], h[y].fields[k])
  }

  lemma FieldPending(h: Heap, n: nat, x: Id, y: Id, i: nat)
    requires Closed(h) && x in h && y in h && h[x].Obj? && h[y].Obj? && HeadsMatch(h[x], h[y])
    requires i < |h[x].keys|
    ensures h[x].keys[i] in h[x].fields && i < |Todo(h, x, y)|
    ensures PendingAlike(h, n, Todo(h, x, y)[i]) <==> FieldAlike(h, n, x, y, h[x].keys[i])
  {
    assert WellFormed(h, h[x]) && h[x].keys[i] in h[x].keys;
  }

  lemma PendingFieldsAlike(h: Heap, n: nat, x: Id, y: Id)
    requires Closed(h) && x in h && y in h && h[x].Obj? && h[y].Obj? && HeadsMatch(h[x], h[y])
    ensures (forall i | 0 <= i < |Todo(h, x, y)| :: PendingAlike(h, n, Todo(h, x, y)[i]))
       <==> forall k | k in h[x].fields :: FieldAlike(h, n, x, y, k)
  {
    var keys, todo := h[x].keys, Todo(h, x, y);
    assert WellFormed(h, h[x]);
    if forall i | 0 <= i < |todo| :: PendingAlike(h, n, todo[i]) {
      forall k | k in h[x].fields ensures FieldAlike(h, n, x, y, k) {
        var i :| 0 <= i < |keys| && keys[i] == k;
        FieldPending(h, n, x, y, i);
      }
    }
    if forall k | k in h[x].fields :: FieldAlike(h, n, x, y, k) {
      forall i | 0 <= i < |todo| ensures PendingAlike(h, n, todo[i]) {
        FieldPending(h, n, x, y, i);
      }
    }
  }

  lemma FieldsAlikeExactly(h: Heap, n: nat, x: Id, y: Id)
    requires Closed(h) && x in h && y in h && h[x].Obj? && h[y].Obj?
    ensures NodesAlikeTo(h, n, x, y)
       <==> HeadsMatch(h[x], h[y]) && forall i | 0 <= i < |Todo(h, x, y)| :: PendingAlike(h, n, Todo(h, x, y)[i])
  {
    var fs, gs := h[x].fields, h[y].fields;
    assert WellFormed(h, h[x]) && WellFormed(h, h[y]);
    SameKeys(h, h[x], h[y]);
    if HeadsMatch(h[x], h[y]) {
      PendingFieldsAlike(h, n, x, y);
      assert NodesAlikeTo(h, n, x, y)
        <==> fs.Keys == gs.Keys && forall k | k in fs :: FieldAlike(h, n, x, y, k);
    }
  }

  // ---------- an answer is right ----------

  predicate Linked(met: set<(Id, Id)>, a: Value, b: Value) {
    a == b || (a.Ref? && b.Ref? && (a.id, b.id) in met)
  }

  predicate PendingLinked(met: set<(Id, Id)>, p: Pending) {
    p.right.Some? && Linked(met, p.left, p.right.value)
  }

  predicate AllLinked(met: set<(Id, Id)>, todo: seq<Pending>) {
    forall i | 0 <= i < |todo| :: PendingLinked(met, todo[i])
  }

  /** The nodes match and their children lead to identical values or to pairs that were met. */
  ghost predicate Justified(h: Heap, met: set<(Id, Id)>, x: Id, y: Id)
    requires Closed(h)
  {
    x in h && y in h && HeadsMatch(h[x], h[y]) && AllLinked(met, Todo(h, x, y))
  }

  /** Every pair met is justified, but for those still being compared further up. */
  ghost predicate Progress(h: Heap, met: set<(Id, Id)>, open: set<(Id, Id)>)
    requires Closed(h)
  {
    forall p | p in met && p !in open :: Justified(h, met, p.0, p.1)
  }

  predicate Remembered(pairs: map<Id, Id>, met: set<(Id, Id)>) {
    forall x | x in pairs :: (x, pairs[x]) in met
  }

  /** Pairs that justify one another are alike, cycles or not. */
  lemma {:induction false} JustifiedAlike(h: Heap, met: set<(Id, Id)>, n: nat, a: Value, b: Value)
    requires Closed(h) && Progress(h, met, {}) && Resolves(h, a) && Resolves(h, b) && Linked(met, a, b)
    ensures AlikeTo(h, n, a, b)
    decreases n, 1
  {
    if a == b {
      AlikeItself(h, n, a);
    } else if n > 0 {
      assert Justified(h, met, a.id, b.id);
      NodesJustifiedAlike(h, met, n - 1, a.id, b.id);
    }
  }

  lemma {:induction false} NodesJustifiedAlike(h: Heap, met: set<(Id, Id)>, n: nat, x: Id, y: Id)
    requires Closed(h) && Progress(h, met, {}) && Justified(h, met, x, y)
    ensures NodesAlikeTo(h, n, x, y)
    decreases n, 2
  {
    var todo := Todo(h, x, y);
    forall i | 0 <= i < |todo| ensures BothResolve(h, todo[i]) && PendingAlike(h, n, todo[i]) {
      assert PendingLinked(met, todo[i]) && BothResolve(h, todo[i]);
      JustifiedAlike(h, met, n, todo[i].left, todo[i].right.value);
    }
    NodesAlikeExactly(h, n, x, y);
  }

  lemma MeetPair(h: Heap, met: set<(Id, Id)>, open: set<(Id, Id)>, x: Id, y: Id)
    requires Closed(h) && Progress(h, met, open)
    ensures Progress(h, met + {(x, y)}, open + {(x, y)})
  {
    var now := met + {(x, y)};
    forall p | p in now && p !in open + {(x, y)} ensures Justified(h, now, p.0, p.1) {
      assert Justified(h, met, p.0, p.1);
      var todo := Todo(h, p.0, p.1);
      forall i | 0 <= i < |todo| ensures PendingLinked(now, todo[i]) {
        assert PendingLinked(met, todo[i]);
      }
    }
  }

  lemma ClosePair(h: Heap, met: set<(Id, Id)>, open: set<(Id, Id)>, x: Id, y: Id)
    requires Closed(h) && Progress(h, met, open + {(x, y)}) && Justified(h, met, x, y)
    ensures Progress(h, met, open)
  {
    forall p | p in met && p !in open ensures Justified(h, met, p.0, p.1) {
      assert p != (x, y) ==> p !in open + {(x, y)};
    }
  }

  /** What a yes leaves: the pairs met justify one another, and the memo holds such pairs only. */
  ghost predicate Kept(h: Heap, outcome: Outcome, met: set<(Id, Id)>, open: set<(Id, Id)>)
    requires Closed(h)
  {
    Yes(outcome) ==> Progress(h, met, open) && Remembered(outcome.pairs, met)
  }

  predicate Yes(outcome: Outcome) {
    outcome.Answer? && outcome.equal
  }

  predicate No(outcome: Outcome) {
    outcome.Answer? && !outcome.equal
  }

  lemma {:induction false} YesIsJustified(h: Heap, depth: nat, a: Value, b: Value, pairs: map<Id, Id>,
                                          met: set<(Id, Id)>, open: set<(Id, Id)>) returns (now: set<(Id, Id)>)
    requires Closed(h) && Resolves(h, a) && Resolves(h, b)
    requires Remembered(pairs, met) && Progress(h, met, open)
    ensures var outcome := Compare(h, depth, a, b, pairs);
      met <= now && Kept(h, outcome, now, open) && (Yes(outcome) ==> Linked(now, a, b))
    decreases depth, 0, 0
  {
    now := met;
    if depth > 0 && a.Ref? && b.Ref? && a != b {
      var x, y := a.id, b.id;
      var objects := h[x].Obj? && h[y].Obj?;
      if !(objects && x in pairs && pairs[x] == y) && HeadsMatch(h[x], h[y]) {
        var noted := if objects then pairs[x := y] else pairs;
        MeetPair(h, met, open, x, y);
        now := AllJustified(h, depth - 1, Todo(h, x, y), noted, met + {(x, y)}, open + {(x, y)});
        if Yes(CompareAll(h, depth - 1, Todo(h, x, y), noted)) {
          assert Justified(h, now, x, y);
          ClosePair(h, now, open, x, y);
        }
      }
    }
  }

  lemma {:induction false} AllJustified(h: Heap, depth: nat, todo: seq<Pending>, pairs: map<Id, Id>,
                                        met: set<(Id, Id)>, open: set<(Id, Id)>) returns (now: set<(Id, Id)>)
    requires Closed(h) && AllResolve(h, todo)
    requires Remembered(pairs, met) && Progress(h, met, open)
    ensures var outcome := CompareAll(h, depth, todo, pairs);
      met <= now && Kept(h, outcome, now, open) && (Yes(outcome) ==> AllLinked(now, todo))
    decreases depth, 1, |todo|
  {
    now := met;
    if todo != [] && todo[0].right.Some? {
      assert BothResolve(h, todo[0]);
      now := YesIsJustified(h, depth, todo[0].left, todo[0].right.value, pairs, met, open);
      var outcome := Compare(h, depth, todo[0].left, todo[0].right.value, pairs);
      if Yes(outcome) {
        var soFar := now;
        now := AllJustified(h, depth, todo[1..], outcome.pairs, soFar, open);
        if Yes(CompareAll(h, depth, todo, pairs)) {
          forall i | 0 <= i < |todo| ensures PendingLinked(now, todo[i]) {
            assert i > 0 ==> todo[i] == todo[1..][i - 1];
          }
        }
      }
    }
  }

  ghost predicate SomeUnlike(h: Heap, todo: seq<Pending>)
    requires Closed(h) && AllResolve(h, todo)
  {
    exists i, n: nat :: 0 <= i < |todo| && BothResolve(h, todo[i]) && !PendingAlike(h, n, todo[i])
  }

  /** A no is right, whatever the memo holds. */
  lemma {:induction false} NoIsRight(h: Heap, depth: nat, a: Value, b: Value, pairs: map<Id, Id>)
    requires Closed(h) && Resolves(h, a) && Resolves(h, b) && No(Compare(h, depth, a, b, pairs))
    ensures !Alike(h, a, b)
    decreases depth, 0, 0
  {
    if a.P? || b.P? {
      assert !AlikeTo(h, 1, a, b);
    } else {
      var x, y := a.id, b.id;
      var n: nat := 0;
      if HeadsMatch(h[x], h[y]) {
        var todo := Todo(h, x, y);
        AllNoIsRight(h, depth - 1, todo, if h[x].Obj? then pairs[x := y] else pairs);
        var i, m: nat :| 0 <= i < |todo| && BothResolve(h, todo[i]) && !PendingAlike(h, m, todo[i]);
        n := m;
      }
      NodesAlikeExactly(h, n, x, y);
      assert !AlikeTo(h, n + 1, a, b);
    }
  }

  lemma {:induction false} AllNoIsRight(h: Heap, depth: nat, todo: seq<Pending>, pairs: map<Id, Id>)
    requires Closed(h) && AllResolve(h, todo) && No(CompareAll(h, depth, todo, pairs))
    ensures SomeUnlike(h, todo)
    decreases depth, 1, |todo|
  {
    assert BothResolve(h, todo[0]);
    if todo[0].right.None? {
      assert !PendingAlike(h, 0, todo[0]);
    } else {
      var outcome := Compare(h, depth, todo[0].left, todo[0].right.value, pairs);
      if No(outcome) {
        NoIsRight(h, depth, todo[0].left, todo[0].right.value, pairs);
        var n: nat :| !AlikeTo(h, n, todo[0].left, todo[0].right.value);
        assert !PendingAlike(h, n, todo[0]);
      } else {
        AllNoIsRight(h, depth, todo[1..], outcome.pairs);
        var i, n: nat :| 0 <= i < |todo[1..]| && BothResolve(h, todo[1..][i]) && !PendingAlike(h, n, todo[1..][i]);
        assert todo[i + 1] == todo[1..][i];
      }
    }
  }

  /** Whatever the graph, with or without cycles: an answer of a fresh comparison is right. */
  lemma AnswerIsRight(h: Heap, depth: nat, a: Value, b: Value)
    requires Closed(h) && Resolves(h, a) && Resolves(h, b)
    ensures var outcome := Compare(h, depth, a, b, map[]); outcome.Answer? ==> (outcome.equal <==> Alike(h, a, b))
  {
    var outcome := Compare(h, depth, a, b, map[]);
    if Yes(outcome) {
      var met := YesIsJustified(h, depth, a, b, map[], {}, {});
      forall n: nat ensures AlikeTo(h, n, a, b) {
        JustifiedAlike(h, met, n, a, b);
      }
    } else if No(outcome) {
      NoIsRight(h, depth, a, b, map[]);
    }
  }

  // ---------- a comparison of a finite value ends ----------

  /** The values a node refers to, in the order in which they are compared. */
  ghost function Children(h: Heap, x: Id): (children: seq<Value>)
    requires Closed(h) && x in h
    ensures forall i | 0 <= i < |children| :: Resolves(h, children[i])
  {
    assert WellFormed(h, h[x]);
    match h[x]
    case Arr(items) => items
    case Obj(keys, fields) => seq(|keys|, i requires 0 <= i < |keys| => fields[keys[i]])
    case _ => []
  }

  lemma TodoIsChildren(h: Heap, x: Id, y: Id)
    requires Closed(h) && x in h && y in h && HeadsMatch(h[x], h[y])
    ensures |Todo(h, x, y)| == |Children(h, x)|
    ensures forall i | 0 <= i < |Todo(h, x, y)| :: Todo(h, x, y)[i].left == Children(h, x)[i]
  {
    assert WellFormed(h, h[x]);
  }

  /** Every path of references from the value is shorter than this. */
  ghost predicate Within(h: Heap, n: nat, v: Value)
    requires Closed(h) && Resolves(h, v)
  {
    v.P? || (n > 0 && forall i | 0 <= i < |Children(h, v.id)| :: Within(h, n - 1, Children(h, v.id)[i]))
  }

  /** No path of references from the value goes on for ever: it is on no cycle and leads to none. */
  ghost predicate Finite(h: Heap, v: Value)
    requires Closed(h) && Resolves(h, v)
  {
    exists n: nat :: Within(h, n, v)
  }

  lemma {:induction false} FiniteEnds(h: Heap, n: nat, depth: nat, a: Value, b: Value, pairs: map<Id, Id>)
    requires Closed(h) && Resolves(h, a) && Resolves(h, b) && Within(h, n, a) && n < depth
    ensures Compare(h, depth, a, b, pairs).Answer?
    decreases depth, 0, 0
  {
    if a.Ref? && b.Ref? && HeadsMatch(h[a.id], h[b.id]) {
      TodoIsChildren(h, a.id, b.id);
      AllFiniteEnd(h, n - 1, depth - 1, Todo(h, a.id, b.id), if h[a.id].Obj? then pairs[a.id := b.id] else pairs);
    }
  }

  lemma {:induction false} AllFiniteEnd(h: Heap, n: nat, depth: nat, todo: seq<Pending>, pairs: map<Id, Id>)
    requires Closed(h) && AllResolve(h, todo) && n < depth
    requires forall i | 0 <= i < |todo| :: BothResolve(h, todo[i]) && Within(h, n, todo[i].left)
    ensures CompareAll(h, depth, todo, pairs).Answer?
    decreases depth, 1, |todo|
  {
    if todo != [] && todo[0].right.Some? {
      assert BothResolve(h, todo[0]);
      FiniteEnds(h, n, depth, todo[0].left, todo[0].right.value, pairs);
      var outcome := Compare(h, depth, todo[0].left, todo[0].right.value, pairs);
      if Yes(outcome) {
        AllFiniteEnd(h, n, depth, todo[1..], outcome.pairs);
      }
    }
  }

  /**
   * The comparison as callers make it, with a fresh memo: an answer says whether the two unfoldings are
   * the same, and there is one whenever the stack is deeper than the first value.
   */
  method DeepEqual(h: Heap, a: Value, b: Value, depth: nat) returns (equal: Option<bool>)
    requires Closed(h) && Resolves(h, a) && Resolves(h, b)
    ensures equal.Some? ==> (equal.value <==> Alike(h, a, b))
    ensures forall n: nat :: Within(h, n, a) && n < depth ==> equal.Some?
  {
    var seen := new SeenMap();
    equal := Equal(h, a, b, seen, depth);
    AnswerIsRight(h, depth, a, b);
    forall n: nat | Within(h, n, a) && n < depth ensures Compare(h, depth, a, b, map[]).Answer? {
      FiniteEnds(h, n, depth, a, b, map[]);
    }
  }
}
