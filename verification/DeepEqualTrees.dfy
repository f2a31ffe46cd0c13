/** On finite values deep equality is equality of the trees they unfold to. */
module DeepEqualTrees {
  import opened DeepEqual

  // ---------- finite values are trees ----------

  datatype Tree =
    | Leaf(prim: Prim)
    | DateTree(time: int)
    | RegExpTree(source: string)
    | ArrTree(items: seq<Tree>)
    | ObjTree(fields: map<string, Tree>)

  lemma FieldIsChild(h: Heap, x: Id, k: string) returns (i: nat)
    requires Closed(h) && x in h && h[x].Obj? && k in h[x].fields
    ensures i < |Children(h, x)| && Children(h, x)[i] == h[x].fields[k]
  {
    assert WellFormed(h, h[x]);
    i :| 0 <= i < |h[x].keys| && h[x].keys[i] == k;
  }

  lemma FieldWithin(h: Heap, n: nat, x: Id, k: string)
    requires Closed(h) && x in h && h[x].Obj? && k in h[x].fields && Within(h, n + 1, Ref(x))
    ensures Resolves(h, h[x].fields[k]) && Within(h, n, h[x].fields[k])
  {
    assert WellFormed(h, h[x]);
    var i := FieldIsChild(h, x, k);
    assert Within(h, n, Children(h, x)[i]);
  }

  ghost function Unfold(h: Heap, n: nat, v: Value): Tree
    requires Closed(h) && Resolves(h, v) && Within(h, n, v)
  {
    match v
    case P(p) => Leaf(p)
    case Ref(x) =>
      assert WellFormed(h, h[x]);
      match h[x]
      case Date(t) => DateTree(t)
      case RegExp(s) => RegExpTree(s)
      case Arr(items) => ArrTree(seq(|items|, i requires 0 <= i < |items| =>
        assert Within(h, n - 1, Children(h, x)[i]); Unfold(h, n - 1, items[i])))
      case Obj(_, fields) => ObjTree(map k | k in fields :: FieldWithin(h, n - 1, x, k); Unfold(h, n - 1, fields[k]))
  }

  lemma FieldTree(h: Heap, n: nat, x: Id, k: string)
    requires Closed(h) && x in h && h[x].Obj? && Within(h, n, Ref(x)) && k in h[x].fields
    ensures Resolves(h, h[x].fields[k]) && n > 0 && Within(h, n - 1, h[x].fields[k])
    ensures var tree := Unfold(h, n, Ref(x));
      tree.ObjTree? && k in tree.fields && tree.fields[k] == Unfold(h, n - 1, h[x].fields[k])
  {
    FieldWithin(h, n - 1, x, k);
  }

  lemma ItemTree(h: Heap, n: nat, x: Id, i: nat)
    requires Closed(h) && x in h && h[x].Arr? && Within(h, n, Ref(x)) && i < |h[x].items|
    ensures Resolves(h, h[x].items[i]) && n > 0 && Within(h, n - 1, h[x].items[i])
    ensures var tree := Unfold(h, n, Ref(x));
      tree.ArrTree? && |tree.items| == |h[x].items| && tree.items[i] == Unfold(h, n - 1, h[x].items[i])
  {
    assert Children(h, x)[i] == h[x].items[i];
  }

  /** What one depth of looking has to do with the whole trees. */
  ghost predicate TreesAgree(h: Heap, m: nat, n: nat, a: Value, b: Value)
    requires Closed(h) && Resolves(h, a) && Resolves(h, b) && Within(h, n, a) && Within(h, n, b)
  {
    && (Unfold(h, n, a) == Unfold(h, n, b) ==> AlikeTo(h, m, a, b))
    && (m > n && AlikeTo(h, m, a, b) ==> Unfold(h, n, a) == Unfold(h, n, b))
  }

  lemma {:induction false} TreesAgreeAt(h: Heap, m: nat, n: nat, a: Value, b: Value)
    requires Closed(h) && Resolves(h, a) && Resolves(h, b) && Within(h, n, a) && Within(h, n, b)
    ensures TreesAgree(h, m, n, a, b)
    decreases m, 4
  {
    if m > 0 && a.Ref? && b.Ref? {
      assert AlikeTo(h, m, a, b) == NodesAlikeTo(h, m - 1, a.id, b.id);
      if h[a.id].Arr? && h[b.id].Arr? {
        ItemTreesAgree(h, m, n, a.id, b.id);
      } else if h[a.id].Obj? && h[b.id].Obj? {
        FieldTreesAgree(h, m, n, a.id, b.id);
      }
    }
  }

  ghost predicate SameItemTree(h: Heap, n: nat, x: Id, y: Id, i: nat)
    requires Closed(h) && x in h && y in h && Within(h, n, Ref(x)) && Within(h, n, Ref(y))
    requires h[x].Arr? && h[y].Arr? && i < |h[x].items| && i < |h[y].items|
  {
    ItemTree(h, n, x, i);
    ItemTree(h, n, y, i);
    Unfold(h, n - 1, h[x].items[i]) == Unfold(h, n - 1, h[y].items[i])
  }

  lemma ArrTreesEqual(h: Heap, n: nat, x: Id, y: Id)
    requires Closed(h) && x in h && y in h && Within(h, n, Ref(x)) && Within(h, n, Ref(y))
    requires h[x].Arr? && h[y].Arr?
    ensures Unfold(h, n, Ref(x)) == Unfold(h, n, Ref(y))
       <==> |h[x].items| == |h[y].items| && forall i | 0 <= i < |h[x].items| :: SameItemTree(h, n, x, y, i)
  {
    var s, t := Unfold(h, n, Ref(x)).items, Unfold(h, n, Ref(y)).items;
    assert |s| == |h[x].items| && |t| == |h[y].items|;
    if |s| == |t| {
      forall i | 0 <= i < |s| ensures s[i] == t[i] <==> SameItemTree(h, n, x, y, i) {
        ItemTree(h, n, x, i);
        ItemTree(h, n, y, i);
      }
      assert s == t <==> forall i | 0 <= i < |s| :: s[i] == t[i];
    }
  }

  lemma {:induction false} ItemTreesAgree(h: Heap, m: nat, n: nat, x: Id, y: Id)
    requires Closed(h) && x in h && y in h && Within(h, n, Ref(x)) && Within(h, n, Ref(y))
    requires m > 0 && h[x].Arr? && h[y].Arr?
    ensures TreesAgree(h, m, n, Ref(x), Ref(y))
    decreases m, 1
  {
    var xs, ys := h[x].items, h[y].items;
    ArrTreesEqual(h, n, x, y);
    assert AlikeTo(h, m, Ref(x), Ref(y)) == NodesAlikeTo(h, m - 1, x, y);
    if |xs| == |ys| {
      forall i | 0 <= i < |xs|
        ensures Resolves(h, xs[i]) && Resolves(h, ys[i])
        ensures SameItemTree(h, n, x, y, i) ==> AlikeTo(h, m - 1, xs[i], ys[i])
        ensures m > n && AlikeTo(h, m - 1, xs[i], ys[i]) ==> SameItemTree(h, n, x, y, i)
      {
        ItemTree(h, n, x, i);
        ItemTree(h, n, y, i);
        TreesAgreeAt(h, m - 1, n - 1, xs[i], ys[i]);
      }
    }
  }

  ghost predicate SameFieldTree(h: Heap, n: nat, x: Id, y: Id, k: string)
    requires Closed(h) && x in h && y in h && Within(h, n, Ref(x)) && Within(h, n, Ref(y))
    requires h[x].Obj? && h[y].Obj? && k in h[x].fields && k in h[y].fields
  {
    FieldTree(h, n, x, k);
    FieldTree(h, n, y, k);
    Unfold(h, n - 1, h[x].fields[k]) == Unfold(h, n - 1, h[y].fields[k])
  }

  lemma TreeKeys(h: Heap, n: nat, x: Id)
    requires Closed(h) && x in h && Within(h, n, Ref(x)) && h[x].Obj?
    ensures Unfold(h, n, Ref(x)).ObjTree? && Unfold(h, n, Ref(x)).fields.Keys == h[x].fields.Keys
  {
  }

  lemma TreeFieldSame(h: Heap, n: nat, x: Id, y: Id, s: map<string, Tree>, t: map<string, Tree>, k: string)
    requires Closed(h) && x in h && y in h && Within(h, n, Ref(x)) && Within(h, n, Ref(y))
    requires h[x].Obj? && h[y].Obj? && k in h[x].fields && k in h[y].fields
    requires Unfold(h, n, Ref(x)) == ObjTree(s) && Unfold(h, n, Ref(y)) == ObjTree(t)
    ensures k in s && k in t && (s[k] == t[k] <==> SameFieldTree(h, n, x, y, k))
  {
    FieldTree(h, n, x, k);
    FieldTree(h, n, y, k);
  }

  lemma MapsEqual<A, B>(s: map<A, B>, t: map<A, B>)
    requires s.Keys == t.Keys
    ensures s == t <==> forall k | k in s :: s[k] == t[k]
  {
  }

  ghost predicate SameFieldTrees(h: Heap, n: nat, x: Id, y: Id)
    requires Closed(h) && x in h && y in h && Within(h, n, Ref(x)) && Within(h, n, Ref(y))
    requires h[x].Obj? && h[y].Obj?
  {
    h[x].fields.Keys == h[y].fields.Keys && forall k | k in h[x].fields :: SameFieldTree(h, n, x, y, k)
  }

  ghost predicate FieldsAlike(h: Heap, m: nat, x: Id, y: Id)
    requires Closed(h) && x in h && y in h && h[x].Obj? && h[y].Obj?
  {
    h[x].fields.Keys == h[y].fields.Keys && forall k | k in h[x].fields :: FieldAlike(h, m, x, y, k)
  }

  lemma ObjTreesEqual(h: Heap, n: nat, x: Id, y: Id)
    requires Closed(h) && x in h && y in h && Within(h, n, Ref(x)) && Within(h, n, Ref(y))
    requires h[x].Obj? && h[y].Obj?
    ensures Unfold(h, n, Ref(x)) == Unfold(h, n, Ref(y)) <==> SameFieldTrees(h, n, x, y)
  {
    TreeKeys(h, n, x);
    TreeKeys(h, n, y);
    var s, t := Unfold(h, n, Ref(x)).fields, Unfold(h, n, Ref(y)).fields;
    if s.Keys == t.Keys {
      forall k | k in s ensures s[k] == t[k] <==> SameFieldTree(h, n, x, y, k) {
        TreeFieldSame(h, n, x, y, s, t, k);
      }
      MapsEqual(s, t);
    }
  }

  lemma NodesByField(h: Heap, m: nat, x: Id, y: Id)
    requires Closed(h) && x in h && y in h && h[x].Obj? && h[y].Obj?
    ensures AlikeTo(h, m + 1, Ref(x), Ref(y)) <==> FieldsAlike(h, m, x, y)
  {
    assert AlikeTo(h, m + 1, Ref(x), Ref(y)) == NodesAlikeTo(h, m, x, y);
  }

  lemma {:induction false} FieldTreesAgree(h: Heap, m: nat, n: nat, x: Id, y: Id)
    requires Closed(h) && x in h && y in h && Within(h, n, Ref(x)) && Within(h, n, Ref(y))
    requires m > 0 && h[x].Obj? && h[y].Obj?
    ensures TreesAgree(h, m, n, Ref(x), Ref(y))
    decreases m, 3
  {
    FieldsAgree(h, m, n, x, y);
    if Unfold(h, n, Ref(x)) == Unfold(h, n, Ref(y)) {
      SameTreesAlike(h, m, n, x, y);
    } else if m > n && AlikeTo(h, m, Ref(x), Ref(y)) {
      AlikeSameTrees(h, m, n, x, y);
    }
  }

  lemma SameTreesAlike(h: Heap, m: nat, n: nat, x: Id, y: Id)
    requires Closed(h) && x in h && y in h && Within(h, n, Ref(x)) && Within(h, n, Ref(y))
    requires m > 0 && h[x].Obj? && h[y].Obj? && Unfold(h, n, Ref(x)) == Unfold(h, n, Ref(y))
    requires SameFieldTrees(h, n, x, y) ==> FieldsAlike(h, m - 1, x, y)
    ensures AlikeTo(h, m, Ref(x), Ref(y))
  {
    ObjTreesEqual(h, n, x, y);
    NodesByField(h, m - 1, x, y);
  }

  lemma AlikeSameTrees(h: Heap, m: nat, n: nat, x: Id, y: Id)
    requires Closed(h) && x in h && y in h && Within(h, n, Ref(x)) && Within(h, n, Ref(y))
    requires m > 0 && h[x].Obj? && h[y].Obj? && AlikeTo(h, m, Ref(x), Ref(y))
    requires FieldsAlike(h, m - 1, x, y) ==> SameFieldTrees(h, n, x, y)
    ensures Unfold(h, n, Ref(x)) == Unfold(h, n, Ref(y))
  {
    ObjTreesEqual(h, n, x, y);
    NodesByField(h, m - 1, x, y);
  }

  lemma {:induction false} FieldsAgree(h: Heap, m: nat, n: nat, x: Id, y: Id)
    requires Closed(h) && x in h && y in h && Within(h, n, Ref(x)) && Within(h, n, Ref(y))
    requires m > 0 && h[x].Obj? && h[y].Obj?
    ensures SameFieldTrees(h, n, x, y) ==> FieldsAlike(h, m - 1, x, y)
    ensures m > n && FieldsAlike(h, m - 1, x, y) ==> SameFieldTrees(h, n, x, y)
    decreases m, 1
  {
    if h[x].fields.Keys == h[y].fields.Keys {
      forall k | k in h[x].fields
        ensures SameFieldTree(h, n, x, y, k) ==> FieldAlike(h, m - 1, x, y, k)
        ensures m > n && FieldAlike(h, m - 1, x, y, k) ==> SameFieldTree(h, n, x, y, k)
      {
        FieldTreeAgrees(h, m, n, x, y, k);
      }
    }
  }

  lemma {:induction false} FieldTreeAgrees(h: Heap, m: nat, n: nat, x: Id, y: Id, k: string)
    requires Closed(h) && x in h && y in h && Within(h, n, Ref(x)) && Within(h, n, Ref(y))
    requires m > 0 && h[x].Obj? && h[y].Obj? && k in h[x].fields && k in h[y].fields
    ensures SameFieldTree(h, n, x, y, k) ==> FieldAlike(h, m - 1, x, y, k)
    ensures m > n && FieldAlike(h, m - 1, x, y, k) ==> SameFieldTree(h, n, x, y, k)
    decreases m, 0
  {
    FieldTree(h, n, x, k);
    FieldTree(h, n, y, k);
    TreesAgreeAt(h, m - 1, n - 1, h[x].fields[k], h[y].fields[k]);
  }

  /** Finite values are alike exactly when they unfold to one tree. */
  lemma AlikeIsTreeEquality(h: Heap, n: nat, a: Value, b: Value)
    requires Closed(h) && Resolves(h, a) && Resolves(h, b) && Within(h, n, a) && Within(h, n, b)
    ensures Alike(h, a, b) <==> Unfold(h, n, a) == Unfold(h, n, b)
  {
    if Unfold(h, n, a) == Unfold(h, n, b) {
      forall m: nat ensures AlikeTo(h, m, a, b) {
        TreesAgreeAt(h, m, n, a, b);
      }
    }
    TreesAgreeAt(h, n + 1, n, a, b);
  }
}
