/** Sums over sequences and the stable sort the source takes from its library. */
module Sums {

  function Sum<A>(f: A -> int, s: seq<A>): int {
    if s == [] then 0 else Sum(f, s[..|s| - 1]) + f(s[|s| - 1])
  }

  lemma SumAppend<A>(f: A -> int, s: seq<A>, x: A)
    ensures Sum(f, s + [x]) == Sum(f, s) + f(x)
  {
    assert (s + [x])[..|s|] == s;
  }

  lemma {:induction false} SumConcat<A>(f: A -> int, s: seq<A>, t: seq<A>)
    ensures Sum(f, s + t) == Sum(f, s) + Sum(f, t)
    decreases |t|
  {
    if t == [] {
      assert s + t == s;
    } else {
      var n := |t| - 1;
      SumConcat(f, s, t[..n]);
      SumAppend(f, s + t[..n], t[n]);
      assert s + t == s + t[..n] + [t[n]];
    }
  }

  lemma {:induction false} SumSame<A>(f: A -> int, g: A -> int, s: seq<A>)
    requires forall i | 0 <= i < |s| :: f(s[i]) == g(s[i])
    ensures Sum(f, s) == Sum(g, s)
  {
    if s != [] {
      SumSame(f, g, s[..|s| - 1]);
    }
  }

  lemma {:induction false} SumZero<A>(f: A -> int, s: seq<A>)
    requires forall i | 0 <= i < |s| :: f(s[i]) == 0
    ensures Sum(f, s) == 0
  {
    if s != [] {
      SumZero(f, s[..|s| - 1]);
    }
  }

  lemma SumUpdate<A>(f: A -> int, s: seq<A>, k: nat, x: A)
    requires k < |s|
    ensures Sum(f, s[k := x]) == Sum(f, s) - f(s[k]) + f(x)
  {
    assert s == s[..k] + ([s[k]] + s[k + 1..]);
    assert s[k := x] == s[..k] + ([x] + s[k + 1..]);
    SumConcat(f, s[..k], [s[k]] + s[k + 1..]);
    SumConcat(f, s[..k], [x] + s[k + 1..]);
    SumConcat(f, [s[k]], s[k + 1..]);
    SumConcat(f, [x], s[k + 1..]);
    SumAppend(f, [], s[k]);
    SumAppend(f, [], x);
    assert [] + [s[k]] == [s[k]] && [] + [x] == [x];
  }

  /** A sum does not depend on the order. */
  lemma {:induction false} SumOfPermutation<A>(f: A -> int, s: seq<A>, t: seq<A>)
    requires multiset(s) == multiset(t)
    ensures Sum(f, s) == Sum(f, t)
    decreases |s|
  {
    if s == [] {
      assert |multiset(t)| == 0;
    } else {
      var n, x := |s| - 1, s[|s| - 1];
      assert x in multiset(s);
      var k :| 0 <= k < |t| && t[k] == x;
      var rest := t[..k] + t[k + 1..];
      assert s == s[..n] + [x];
      assert t == t[..k] + [x] + t[k + 1..];
      assert multiset(s[..n]) == multiset(s) - multiset{x};
      assert multiset(rest) == multiset(t) - multiset{x};
      SumOfPermutation(f, s[..n], rest);
      SumConcat(f, t[..k], t[k + 1..]);
      SumConcat(f, t[..k] + [x], t[k + 1..]);
      SumAppend(f, t[..k], x);
    }
  }

  // ---------- sorting ----------

  ghost predicate TotalPreorder<A(!new)>(le: (A, A) -> bool) {
    && (forall x, y :: le(x, y) || le(y, x))
    && (forall x, y, z :: le(x, y) && le(y, z) ==> le(x, z))
  }

  predicate Sorted<A>(le: (A, A) -> bool, s: seq<A>) {
    forall i, j | 0 <= i < j < |s| :: le(s[i], s[j])
  }

  function Insert<A>(le: (A, A) -> bool, s: seq<A>, x: A): seq<A> {
    if s == [] || le(s[|s| - 1], x) then s + [x]
    else Insert(le, s[..|s| - 1], x) + [s[|s| - 1]]
  }

  /** Stable: equal elements keep their order. */
  function SortBy<A>(le: (A, A) -> bool, s: seq<A>): seq<A> {
    if s == [] then [] else Insert(le, SortBy(le, s[..|s| - 1]), s[|s| - 1])
  }

  lemma {:induction false} InsertPermutes<A>(le: (A, A) -> bool, s: seq<A>, x: A)
    ensures multiset(Insert(le, s, x)) == multiset(s) + multiset{x}
  {
    if !(s == [] || le(s[|s| - 1], x)) {
      InsertPermutes(le, s[..|s| - 1], x);
      assert s == s[..|s| - 1] + [s[|s| - 1]];
    }
  }

  lemma {:induction false} SortPermutes<A>(le: (A, A) -> bool, s: seq<A>)
    ensures multiset(SortBy(le, s)) == multiset(s)
  {
    if s != [] {
      SortPermutes(le, s[..|s| - 1]);
      InsertPermutes(le, SortBy(le, s[..|s| - 1]), s[|s| - 1]);
      assert s == s[..|s| - 1] + [s[|s| - 1]];
    }
  }

  lemma {:induction false} InsertSorts<A(!new)>(le: (A, A) -> bool, s: seq<A>, x: A)
    requires TotalPreorder(le) && Sorted(le, s)
    ensures Sorted(le, Insert(le, s, x))
  {
    if s == [] || le(s[|s| - 1], x) {
      forall i | 0 <= i < |s| ensures le(s[i], x) {
        assert i < |s| - 1 ==> le(s[i], s[|s| - 1]);
      }
    } else {
      var n, front := |s| - 1, Insert(le, s[..|s| - 1], x);
      InsertSorts(le, s[..n], x);
      InsertPermutes(le, s[..n], x);
      forall i | 0 <= i < |front| ensures le(front[i], s[n]) {
        assert front[i] in multiset(front);
        if front[i] != x {
          assert front[i] in multiset(s[..n]);
          var k :| 0 <= k < n && s[k] == front[i];
        } else {
          assert le(x, s[n]);
        }
      }
      assert Insert(le, s, x) == front + [s[n]];
    }
  }

  lemma {:induction false} SortSorts<A(!new)>(le: (A, A) -> bool, s: seq<A>)
    requires TotalPreorder(le)
    ensures Sorted(le, SortBy(le, s))
  {
    if s != [] {
      SortSorts(le, s[..|s| - 1]);
      InsertSorts(le, SortBy(le, s[..|s| - 1]), s[|s| - 1]);
    }
  }

  lemma SameElements<A>(s: seq<A>, t: seq<A>)
    requires multiset(s) == multiset(t)
    ensures |s| == |t|
    ensures forall x :: x in s <==> x in t
  {
    assert |multiset(s)| == |multiset(t)|;
    forall x ensures x in s <==> x in t {
      assert x in multiset(s) <==> x in multiset(t);
    }
  }

  /** Sorting has one result when no two different elements tie. */
  lemma {:induction false} SortedUnique<A>(le: (A, A) -> bool, s: seq<A>, t: seq<A>)
    requires multiset(s) == multiset(t) && Sorted(le, s) && Sorted(le, t)
    requires forall x, y :: x in s && y in s && le(x, y) && le(y, x) ==> x == y
    ensures s == t
    decreases |s|
  {
    SameElements(s, t);
    if s != [] {
      var front, last := s[..|s| - 1], s[|s| - 1];
      LastAgrees(le, s, t);
      assert s == front + [last];
      assert t == t[..|t| - 1] + [last];
      assert multiset(front) + multiset{last} == multiset(t[..|t| - 1]) + multiset{last};
      assert multiset(front) == multiset(t[..|t| - 1]) by {
        SameRest(multiset(front), multiset(t[..|t| - 1]), last);
      }
      forall x | x in front ensures x in s {
      }
      SortedUnique(le, front, t[..|t| - 1]);
    }
  }

  lemma SameRest<A>(x: multiset<A>, y: multiset<A>, a: A)
    requires x + multiset{a} == y + multiset{a}
    ensures x == y
  {
    assert x == x + multiset{a} - multiset{a};
    assert y == y + multiset{a} - multiset{a};
  }

  lemma LastAgrees<A>(le: (A, A) -> bool, s: seq<A>, t: seq<A>)
    requires s != [] && |t| == |s| && Sorted(le, s) && Sorted(le, t)
    requires forall x :: x in s <==> x in t
    requires forall x, y :: x in s && y in s && le(x, y) && le(y, x) ==> x == y
    ensures s[|s| - 1] == t[|t| - 1]
  {
    var n := |s| - 1;
    assert s[n] in t && t[n] in s;
    var i :| 0 <= i < |t| && t[i] == s[n];
    var j :| 0 <= j < |s| && s[j] == t[n];
    if i < n && j < n {
      assert le(t[i], t[n]) && le(s[j], s[n]);
    }
  }

  lemma {:induction false} CountOfDistinct<A>(s: seq<A>, x: A)
    requires forall i, j | 0 <= i < j < |s| :: s[i] != s[j]
    ensures multiset(s)[x] == if x in s then 1 else 0
  {
    if s != [] {
      var n := |s| - 1;
      CountOfDistinct(s[..n], x);
      assert s == s[..n] + [s[n]];
    }
  }

  lemma DistinctPermute<A>(s: seq<A>, t: seq<A>)
    requires forall i, j | 0 <= i < j < |s| :: s[i] != s[j]
    requires forall i, j | 0 <= i < j < |t| :: t[i] != t[j]
    requires forall x :: x in s <==> x in t
    ensures multiset(s) == multiset(t)
  {
    forall x ensures multiset(s)[x] == multiset(t)[x] {
      CountOfDistinct(s, x);
      CountOfDistinct(t, x);
    }
  }

  lemma CountTwice<A>(s: seq<A>, i: nat, j: nat)
    requires i < j < |s| && s[i] == s[j]
    ensures multiset(s)[s[i]] >= 2
  {
    assert s == s[..j] + [s[j]] + s[j + 1..];
    assert s[..j][i] in multiset(s[..j]);
  }
}
