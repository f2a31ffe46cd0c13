/**
 * Deep equality and cycles: the comparisons of a value with its equals all end exactly when it is on no
 * cycle and leads to none. Otherwise there is a graph of copies of it on which the memo never helps.
 */
module DeepEqualCycles {
  import opened Prelude
  import opened DeepEqual

  // ---------- a comparison that cannot end ----------

  /** Where the copies of the nodes go: so many layers of them, behind all nodes there are. */
  datatype Layers = Layers(base: nat, count: nat) {
    function Copy(x: Id, j: nat): Id {
      base + x * count + j
    }

    function Up(j: nat): nat {
      if j + 1 < count then j + 1 else 0
    }

    /** The layer `t` steps on. */
    function After(j: nat, t: nat): nat
      decreases t
    {
      if t == 0 then j else After(Up(j), t - 1)
    }
  }

  lemma CopyDecodes(c: Layers, x: Id, j: nat)
    requires j < c.count
    ensures c.Copy(x, j) >= c.base
    ensures (c.Copy(x, j) - c.base) / c.count == x && (c.Copy(x, j) - c.base) % c.count == j
  {
    DivideSum(x, c.count, j);
  }

  lemma SmallerSum(q: nat, m: nat, x: nat, r: nat, d: nat)
    requires q < x && m < d
    ensures q * d + m < x * d + r
  {
    assert (q + 1) * d == q * d + d;
    TimesGrows(q + 1, x, d);
  }

  lemma TimesGrows(q: nat, x: nat, d: nat)
    requires q <= x
    ensures q * d <= x * d
  {
  }

  lemma DivideSum(x: nat, d: nat, r: nat)
    requires r < d
    ensures (x * d + r) / d == x && (x * d + r) % d == r
  {
    var n := x * d + r;
    var q, m := n / d, n % d;
    assert n == q * d + m;
    if q < x {
      SmallerSum(q, m, x, r, d);
    } else if x < q {
      SmallerSum(x, r, q, m, d);
    }
  }

  lemma {:induction false} AfterWraps(c: Layers, j: nat, t: nat)
    requires j < c.count && t <= c.count
    ensures c.After(j, t) == if j + t < c.count then j + t else j + t - c.count
    decreases t
  {
    if t > 0 {
      AfterWraps(c, c.Up(j), t - 1);
    }
  }

  function CopyValue(c: Layers, v: Value, j: nat): Value {
    if v.P? then v else Ref(c.Copy(v.id, j))
  }

  /** A copied node refers to the next layer. */
  function CopyNode(c: Layers, n: Node, j: nat): Node {
    match n
    case Arr(items) => Arr(seq(|items|, i requires 0 <= i < |items| => CopyValue(c, items[i], j)))
    case Obj(keys, fields) => Obj(keys, map k | k in fields :: CopyValue(c, fields[k], j))
    case _ => n
  }

  /** The graph beside layers of copies of it. */
  ghost function Cover(h: Heap, c: Layers): Heap
    requires c.count > 0
  {
    var copies := set x, j | x in h && 0 <= j < c.count :: c.Copy(x, j);
    map id | id in h.Keys + copies ::
      if id in h then h[id]
      else
        var at := id - c.base;
        if at >= 0 && at / c.count in h then CopyNode(c, h[at / c.count], c.Up(at % c.count)) else Date(0)
  }

  ghost predicate Fits(h: Heap, c: Layers) {
    Closed(h) && c.count > |h| && forall x | x in h :: x < c.base
  }

  lemma Covers(h: Heap, c: Layers, x: Id, j: nat)
    requires Fits(h, c) && x in h && j < c.count
    ensures x in Cover(h, c) && Cover(h, c)[x] == h[x]
    ensures c.Copy(x, j) in Cover(h, c) && c.Copy(x, j) !in h
    ensures Cover(h, c)[c.Copy(x, j)] == CopyNode(c, h[x], c.Up(j))
  {
    CopyDecodes(c, x, j);
  }

  lemma CoverCloses(h: Heap, c: Layers)
    requires Fits(h, c)
    ensures Closed(Cover(h, c))
  {
    var g := Cover(h, c);
    forall id | id in g ensures WellFormed(g, g[id]) {
      if id in h {
        OldNodeCloses(h, c, id);
      } else {
        var x, j: nat :| x in h && 0 <= j < c.count && id == c.Copy(x, j);
        Covers(h, c, x, j);
        CopyCloses(h, c, x, c.Up(j));
      }
    }
  }

  lemma OldNodeCloses(h: Heap, c: Layers, x: Id)
    requires Fits(h, c) && x in h
    ensures WellFormed(Cover(h, c), h[x])
  {
    assert WellFormed(h, h[x]);
  }

  lemma ValueResolves(h: Heap, c: Layers, v: Value, j: nat)
    requires Fits(h, c) && Resolves(h, v) && j < c.count
    ensures Resolves(Cover(h, c), v) && Resolves(Cover(h, c), CopyValue(c, v, j))
  {
    if v.Ref? {
      Covers(h, c, v.id, j);
    }
  }

  lemma CopyCloses(h: Heap, c: Layers, x: Id, j: nat)
    requires Fits(h, c) && x in h && j < c.count
    ensures WellFormed(Cover(h, c), CopyNode(c, h[x], j))
  {
    assert WellFormed(h, h[x]);
    match h[x] {
      case Arr(items) =>
        forall i | 0 <= i < |items| ensures Resolves(Cover(h, c), CopyValue(c, items[i], j)) {
          ValueResolves(h, c, items[i], j);
        }
      case Obj(keys, fields) =>
        forall k | k in fields ensures Resolves(Cover(h, c), CopyValue(c, fields[k], j)) {
          ValueResolves(h, c, fields[k], j);
        }
      case _ =>
    }
  }

  function CopyTodo(c: Layers, vs: seq<Value>, j: nat): seq<Pending> {
    seq(|vs|, i requires 0 <= i < |vs| => Pending(vs[i], Some(CopyValue(c, vs[i], j))))
  }

  /** Comparing a node with its copy means comparing its children with theirs, one layer on. */
  lemma TodoOfCopy(h: Heap, c: Layers, x: Id, j: nat)
    requires Fits(h, c) && x in h && j < c.count
    ensures Closed(Cover(h, c)) && x in Cover(h, c) && c.Copy(x, j) in Cover(h, c)
    ensures HeadsMatch(Cover(h, c)[x], Cover(h, c)[c.Copy(x, j)])
    ensures Todo(Cover(h, c), x, c.Copy(x, j)) == CopyTodo(c, Children(h, x), c.Up(j))
  {
    CoverCloses(h, c);
    Covers(h, c, x, j);
    assert WellFormed(h, h[x]);
  }

  /** A copy unfolds to the same. */
  lemma {:induction false} AlikeCopy(h: Heap, c: Layers, n: nat, v: Value, j: nat)
    requires Fits(h, c) && Resolves(h, v) && j < c.count
    ensures Closed(Cover(h, c)) && Resolves(Cover(h, c), v) && Resolves(Cover(h, c), CopyValue(c, v, j))
    ensures AlikeTo(Cover(h, c), n, v, CopyValue(c, v, j))
  {
    CoverCloses(h, c);
    ValueResolves(h, c, v, j);
    if n > 0 && v.Ref? {
      var g, x, y := Cover(h, c), v.id, c.Copy(v.id, j);
      TodoOfCopy(h, c, x, j);
      var todo := Todo(g, x, y);
      forall i | 0 <= i < |todo| ensures BothResolve(g, todo[i]) && PendingAlike(g, n - 1, todo[i]) {
        AlikeCopy(h, c, n - 1, Children(h, x)[i], c.Up(j));
      }
      NodesAlikeExactly(g, n - 1, x, y);
    }
  }

  // ---------- endless values ----------

  ghost predicate Extends(g: Heap, h: Heap) {
    forall id | id in h :: id in g && g[id] == h[id]
  }

  lemma SameChildren(h: Heap, g: Heap, x: Id)
    requires Closed(h) && Closed(g) && Extends(g, h) && x in h
    ensures Children(g, x) == Children(h, x)
  {
  }

  /** A larger graph leaves the depth of a value as it is. */
  lemma {:induction false} WithinExtends(h: Heap, g: Heap, n: nat, v: Value)
    requires Closed(h) && Closed(g) && Extends(g, h) && Resolves(h, v)
    ensures Within(h, n, v) <==> Within(g, n, v)
  {
    if v.Ref? && n > 0 {
      SameChildren(h, g, v.id);
      forall i | 0 <= i < |Children(h, v.id)|
        ensures Within(h, n - 1, Children(h, v.id)[i]) <==> Within(g, n - 1, Children(g, v.id)[i])
      {
        WithinExtends(h, g, n - 1, Children(h, v.id)[i]);
      }
    }
  }

  lemma {:induction false} WithinMore(h: Heap, n: nat, m: nat, v: Value)
    requires Closed(h) && Resolves(h, v) && Within(h, n, v) && n <= m
    ensures Within(h, m, v)
    decreases n
  {
    if v.Ref? {
      forall i | 0 <= i < |Children(h, v.id)| ensures Within(h, m - 1, Children(h, v.id)[i]) {
        WithinMore(h, n - 1, m - 1, Children(h, v.id)[i]);
      }
    }
  }

  ghost predicate AllIn(h: Heap, vs: seq<Value>) {
    forall i | 0 <= i < |vs| :: Resolves(h, vs[i])
  }

  lemma {:induction false} CommonBound(h: Heap, vs: seq<Value>) returns (n: nat)
    requires Closed(h) && AllIn(h, vs) && forall i | 0 <= i < |vs| :: Finite(h, vs[i])
    ensures forall i | 0 <= i < |vs| :: Within(h, n, vs[i])
  {
    n := 0;
    if vs != [] {
      var k := |vs| - 1;
      var m := CommonBound(h, vs[..k]);
      assert Finite(h, vs[k]);
      var own: nat :| Within(h, own, vs[k]);
      n := if m < own then own else m;
      forall i | 0 <= i < |vs| ensures Within(h, n, vs[i]) {
        if i < k {
          assert vs[..k][i] == vs[i];
          WithinMore(h, m, n, vs[i]);
        } else {
          WithinMore(h, own, n, vs[i]);
        }
      }
    }
  }

  ghost predicate Endless(h: Heap, x: Id)
    requires Closed(h)
  {
    x in h && !Finite(h, Ref(x))
  }

  ghost function FirstEndless(h: Heap, vs: seq<Value>): nat
    requires Closed(h) && AllIn(h, vs)
  {
    if vs == [] || !Finite(h, vs[0]) then 0 else 1 + FirstEndless(h, vs[1..])
  }

  lemma {:induction false} FirstEndlessFound(h: Heap, vs: seq<Value>)
    requires Closed(h) && AllIn(h, vs) && exists i :: 0 <= i < |vs| && !Finite(h, vs[i])
    ensures FirstEndless(h, vs) < |vs| && !Finite(h, vs[FirstEndless(h, vs)])
  {
    var i :| 0 <= i < |vs| && !Finite(h, vs[i]);
    if Finite(h, vs[0]) {
      assert vs[1..][i - 1] == vs[i];
      FirstEndlessFound(h, vs[1..]);
    }
  }

  lemma EndlessHasChild(h: Heap, x: Id)
    requires Closed(h) && Endless(h, x)
    ensures var vs := Children(h, x); var k := FirstEndless(h, vs);
      k < |vs| && !Finite(h, vs[k]) && vs[k].Ref? && Endless(h, vs[k].id)
  {
    var vs := Children(h, x);
    if forall i | 0 <= i < |vs| :: Finite(h, vs[i]) {
      var n := CommonBound(h, vs);
      assert Within(h, n + 1, Ref(x));
    }
    FirstEndlessFound(h, vs);
    var v := vs[FirstEndless(h, vs)];
    assert v.P? ==> Within(h, 0, v);
  }

  /** The child an endless comparison goes into. */
  ghost function Next(h: Heap, x: Id): (next: Id)
    requires Closed(h) && Endless(h, x)
    ensures Endless(h, next)
  {
    EndlessHasChild(h, x);
    Children(h, x)[FirstEndless(h, Children(h, x))].id
  }

  ghost function Path(h: Heap, x: Id, t: nat): (y: Id)
    requires Closed(h) && Endless(h, x)
    ensures Endless(h, y)
    decreases t
  {
    if t == 0 then x else Path(h, Next(h, x), t - 1)
  }

  lemma {:induction false} PathFurther(h: Heap, x: Id, s: nat, t: nat)
    requires Closed(h) && Endless(h, x)
    ensures Path(h, Path(h, x, s), t) == Path(h, x, s + t)
    decreases s
  {
    if s > 0 {
      PathFurther(h, Next(h, x), s - 1, t);
    }
  }

  ghost predicate FirstAt(h: Heap, x: Id, t: nat, y: Id)
    requires Closed(h) && Endless(h, x)
  {
    Path(h, x, t) == y && forall s: nat | s < t :: Path(h, x, s) != y
  }

  lemma {:induction false} DistinctFit(s: seq<Id>, all: set<Id>)
    requires forall i, j | 0 <= i < j < |s| :: s[i] != s[j]
    requires forall i | 0 <= i < |s| :: s[i] in all
    ensures |s| <= |all|
  {
    if s != [] {
      var n := |s| - 1;
      forall i | 0 <= i < n ensures s[..n][i] in all - {s[n]} {
        assert s[i] != s[n];
      }
      DistinctFit(s[..n], all - {s[n]});
    }
  }

  /** On the way back to a node every node comes once, so the way is no longer than the graph has nodes. */
  lemma ReturnIsShort(h: Heap, x: Id, t: nat)
    requires Closed(h) && Endless(h, x) && FirstAt(h, Next(h, x), t, x)
    ensures t + 1 <= |h|
  {
    var way := seq(t + 1, i requires 0 <= i < t + 1 => Path(h, x, i));
    forall i, j | 0 <= i < j < |way| ensures way[i] != way[j] {
      if way[i] == way[j] {
        var rest := t + 1 - j;
        PathFurther(h, x, i, rest);
        PathFurther(h, x, j, rest);
      }
    }
    forall i | 0 <= i < |way| ensures way[i] in h.Keys {
      assert Endless(h, way[i]);
    }
    DistinctFit(way, h.Keys);
  }

  // ---------- the memo never helps ----------

  /** No object ahead on the path is remembered with the copy it will meet there first. */
  ghost predicate NoneAhead(h: Heap, c: Layers, pairs: map<Id, Id>, x: Id, j: nat)
    requires Closed(h) && Endless(h, x)
  {
    forall y, t: nat | y in pairs && y in h && h[y].Obj? && FirstAt(h, x, t, y) :: pairs[y] != c.Copy(y, c.After(j, t))
  }

  lemma StepAhead(h: Heap, c: Layers, pairs: map<Id, Id>, x: Id, j: nat)
    requires Fits(h, c) && Endless(h, x) && j < c.count && NoneAhead(h, c, pairs, x, j)
    ensures NoneAhead(h, c, if h[x].Obj? then pairs[x := c.Copy(x, j)] else pairs, Next(h, x), c.Up(j))
  {
    var noted, next := if h[x].Obj? then pairs[x := c.Copy(x, j)] else pairs, Next(h, x);
    forall y, t: nat | y in noted && y in h && h[y].Obj? && FirstAt(h, next, t, y)
      ensures noted[y] != c.Copy(y, c.After(c.Up(j), t))
    {
      assert c.After(j, t + 1) == c.After(c.Up(j), t);
      if y == x {
        ReturnIsShort(h, x, t);
        AfterWraps(c, j, t + 1);
      } else {
        LaterFirst(h, x, t, y);
      }
    }
  }

  lemma LaterFirst(h: Heap, x: Id, t: nat, y: Id)
    requires Closed(h) && Endless(h, x) && y != x && FirstAt(h, Next(h, x), t, y)
    ensures FirstAt(h, x, t + 1, y)
  {
    forall s: nat | s < t + 1 ensures Path(h, x, s) != y {
      assert s > 0 ==> Path(h, x, s) == Path(h, Next(h, x), s - 1);
    }
  }

  ghost predicate SameOnEndless(h: Heap, p: map<Id, Id>, q: map<Id, Id>)
    requires Closed(h)
  {
    forall y | Endless(h, y) :: (y in p <==> y in q) && (y in p ==> p[y] == q[y])
  }

  /** Comparing a finite value leaves what is remembered of endless ones. */
  lemma {:induction false} FiniteKeeps(h: Heap, g: Heap, n: nat, depth: nat, a: Value, b: Value, pairs: map<Id, Id>)
    requires Closed(h) && Closed(g) && Extends(g, h) && Resolves(h, a) && Resolves(g, b) && Within(h, n, a)
    requires Yes(Compare(g, depth, a, b, pairs))
    ensures SameOnEndless(h, pairs, Compare(g, depth, a, b, pairs).pairs)
    decreases depth, 0, 0
  {
    if a.Ref? && b.Ref? && a != b && HeadsMatch(g[a.id], g[b.id]) {
      var x, y := a.id, b.id;
      var todo := Todo(g, x, y);
      TodoIsChildren(g, x, y);
      SameChildren(h, g, x);
      var objects := h[x].Obj?;
      if !(objects && x in pairs && pairs[x] == y) {
        assert Finite(h, Ref(x));
        AllFiniteKeep(h, g, n - 1, depth - 1, todo, if objects then pairs[x := y] else pairs);
      }
    }
  }

  lemma {:induction false} AllFiniteKeep(h: Heap, g: Heap, n: nat, depth: nat, todo: seq<Pending>, pairs: map<Id, Id>)
    requires Closed(h) && Closed(g) && Extends(g, h) && AllResolve(g, todo)
    requires forall i | 0 <= i < |todo| :: Resolves(h, todo[i].left) && Within(h, n, todo[i].left)
    requires Yes(CompareAll(g, depth, todo, pairs))
    ensures SameOnEndless(h, pairs, CompareAll(g, depth, todo, pairs).pairs)
    decreases depth, 1, |todo|
  {
    if todo != [] {
      assert BothResolve(g, todo[0]);
      FiniteKeeps(h, g, n, depth, todo[0].left, todo[0].right.value, pairs);
      var outcome := Compare(g, depth, todo[0].left, todo[0].right.value, pairs);
      AllFiniteKeep(h, g, n, depth, todo[1..], outcome.pairs);
    }
  }

  /** An endless value never gets through a comparison with its copy. */
  lemma {:induction false} NeverEnds(h: Heap, c: Layers, depth: nat, x: Id, j: nat, pairs: map<Id, Id>)
    requires Fits(h, c) && Endless(h, x) && j < c.count && NoneAhead(h, c, pairs, x, j)
    ensures Closed(Cover(h, c)) && x in Cover(h, c) && c.Copy(x, j) in Cover(h, c)
    ensures Compare(Cover(h, c), depth, Ref(x), Ref(c.Copy(x, j)), pairs) == Exhausted
    decreases depth, 0, 0
  {
    TodoOfCopy(h, c, x, j);
    Covers(h, c, x, j);
    if depth > 0 {
      assert FirstAt(h, x, 0, x);
      EndlessHasChild(h, x);
      StepAhead(h, c, pairs, x, j);
      ChildNeverEnds(h, c, depth - 1, Children(h, x), c.Up(j),
                     if h[x].Obj? then pairs[x := c.Copy(x, j)] else pairs, Next(h, x));
    }
  }

  lemma {:induction false} ChildNeverEnds(h: Heap, c: Layers, depth: nat, vs: seq<Value>, j: nat,
                                          pairs: map<Id, Id>, next: Id)
    requires Fits(h, c) && AllIn(h, vs) && j < c.count && Endless(h, next) && NoneAhead(h, c, pairs, next, j)
    requires FirstEndless(h, vs) < |vs| && vs[FirstEndless(h, vs)] == Ref(next)
    ensures Closed(Cover(h, c)) && AllResolve(Cover(h, c), CopyTodo(c, vs, j))
    ensures CompareAll(Cover(h, c), depth, CopyTodo(c, vs, j), pairs) == Exhausted
    decreases depth, 1, |vs|
  {
    var g, todo := Cover(h, c), CopyTodo(c, vs, j);
    CoverCloses(h, c);
    forall i | 0 <= i < |todo| ensures BothResolve(g, todo[i]) {
      ValueResolves(h, c, vs[i], j);
    }
    assert BothResolve(g, todo[0]);
    if !Finite(h, vs[0]) {
      NeverEnds(h, c, depth, next, j, pairs);
    } else {
      var outcome := Compare(g, depth, vs[0], CopyValue(c, vs[0], j), pairs);
      CopyIsNoNo(h, c, depth, vs[0], j, pairs);
      if Yes(outcome) {
        var n: nat :| Within(h, n, vs[0]);
        CoverExtends(h, c);
        FiniteKeeps(h, g, n, depth, vs[0], CopyValue(c, vs[0], j), pairs);
        AheadKeeps(h, c, pairs, outcome.pairs, next, j);
        assert todo[1..] == CopyTodo(c, vs[1..], j);
        ChildNeverEnds(h, c, depth, vs[1..], j, outcome.pairs, next);
      }
    }
  }

  lemma CoverExtends(h: Heap, c: Layers)
    requires Fits(h, c)
    ensures Extends(Cover(h, c), h)
  {
  }

  lemma CopyIsNoNo(h: Heap, c: Layers, depth: nat, v: Value, j: nat, pairs: map<Id, Id>)
    requires Fits(h, c) && Resolves(h, v) && j < c.count
    requires Closed(Cover(h, c)) && Resolves(Cover(h, c), v) && Resolves(Cover(h, c), CopyValue(c, v, j))
    ensures !No(Compare(Cover(h, c), depth, v, CopyValue(c, v, j), pairs))
  {
    if No(Compare(Cover(h, c), depth, v, CopyValue(c, v, j), pairs)) {
      NoIsRight(Cover(h, c), depth, v, CopyValue(c, v, j), pairs);
      var n: nat :| !AlikeTo(Cover(h, c), n, v, CopyValue(c, v, j));
      AlikeCopy(h, c, n, v, j);
    }
  }

  lemma AheadKeeps(h: Heap, c: Layers, p: map<Id, Id>, q: map<Id, Id>, x: Id, j: nat)
    requires Closed(h) && Endless(h, x) && NoneAhead(h, c, p, x, j) && SameOnEndless(h, p, q)
    ensures NoneAhead(h, c, q, x, j)
  {
    forall y, t: nat | y in q && y in h && h[y].Obj? && FirstAt(h, x, t, y)
      ensures q[y] != c.Copy(y, c.After(j, t))
    {
      assert Endless(h, y);
    }
  }

  // ---------- when every comparison ends ----------

  ghost predicate Ends(g: Heap, a: Value, b: Value)
    requires Closed(g) && Resolves(g, a) && Resolves(g, b)
  {
    exists depth: nat :: Compare(g, depth, a, b, map[]).Answer?
  }

  /** A value of the same unfolding, in a graph that may hold more. */
  ghost predicate Counterpart(h: Heap, g: Heap, a: Value, b: Value) {
    Closed(g) && Extends(g, h) && Resolves(g, a) && Resolves(g, b) && Alike(g, a, b)
  }

  lemma {:induction false} SomeBase(s: set<Id>) returns (base: nat)
    ensures forall x | x in s :: x < base
  {
    if s == {} {
      base := 0;
    } else {
      var x := SomeMember(s);
      var rest := SomeBase(s - {x});
      base := if rest <= x then x + 1 else rest;
      forall y | y in s ensures y < base {
        assert y == x || y in s - {x};
      }
    }
  }

  /**
   Cycle detection, exactly: the comparisons of a value with the values equal to it all end when the
   value is on no cycle and leads to none, and only then.
   */
  lemma EndsExactly(h: Heap, a: Value)
    requires Closed(h) && Resolves(h, a)
    ensures Finite(h, a) <==> forall g, b | Counterpart(h, g, a, b) :: Ends(g, a, b)
  {
    if Finite(h, a) {
      var n: nat :| Within(h, n, a);
      forall g, b | Counterpart(h, g, a, b) ensures Ends(g, a, b) {
        WithinExtends(h, g, n, a);
        FiniteEnds(g, n, n + 1, a, b, map[]);
      }
    } else {
      assert a.P? ==> Within(h, 0, a);
      var base := SomeBase(h.Keys);
      var c := Layers(base, |h| + 1);
      var g, b := Cover(h, c), CopyValue(c, a, 0);
      CoverCloses(h, c);
      CoverExtends(h, c);
      ValueResolves(h, c, a, 0);
      forall n: nat ensures AlikeTo(g, n, a, b) {
        AlikeCopy(h, c, n, a, 0);
      }
      forall depth: nat ensures Compare(g, depth, a, b, map[]) == Exhausted {
        NeverEnds(h, c, depth, a.id, 0, map[]);
      }
      assert Counterpart(h, g, a, b) && !Ends(g, a, b);
    }
  }

  /** On a cycle the memo may still end a comparison: two objects that each hold themselves. */
  lemma SelfLoopsEnd(depth: nat)
    requires depth >= 2
    ensures var h: Heap := map[0 := Obj(["self"], map["self" := Ref(0)]), 1 := Obj(["self"], map["self" := Ref(1)])];
      && Closed(h) && !Finite(h, Ref(0))
      && Compare(h, depth, Ref(0), Ref(1), map[]) == Answer(true, map[0 := 1])
  {
    var h: Heap := map[0 := Obj(["self"], map["self" := Ref(0)]), 1 := Obj(["self"], map["self" := Ref(1)])];
    assert Closed(h);
    var todo := Todo(h, 0, 1);
    assert todo == [Pending(Ref(0), Some(Ref(1)))];
    assert Compare(h, depth - 1, Ref(0), Ref(1), map[0 := 1]) == Answer(true, map[0 := 1]);
    assert CompareAll(h, depth - 1, todo, map[0 := 1]) == Answer(true, map[0 := 1]) by {
      assert todo[1..] == [];
    }
    var none: map<Id, Id> := map[];
    assert none[0 := 1] == map[0 := 1];
    forall n: nat ensures !Within(h, n, Ref(0)) {
      SelfLoopEndless(h, n);
    }
  }

  lemma {:induction false} SelfLoopEndless(h: Heap, n: nat)
    requires Closed(h) && 0 in h && h[0] == Obj(["self"], map["self" := Ref(0)])
    ensures !Within(h, n, Ref(0))
  {
    assert Children(h, 0)[0] == Ref(0);
    if n > 0 {
      SelfLoopEndless(h, n - 1);
    }
  }
}
