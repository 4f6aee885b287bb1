/** Python's stable sort, by a relation that says which of two elements has to come first. */
module Sorting {
  function Insert<T(!new)>(x: T, sorted: seq<T>, first: (T, T) -> bool): seq<T> {
    if sorted == [] || !first(x, sorted[|sorted| - 1]) then sorted + [x]
    else Insert(x, sorted[..|sorted| - 1], first) + [sorted[|sorted| - 1]]
  }

  function Sort<T(!new)>(xs: seq<T>, first: (T, T) -> bool): seq<T> {
    if xs == [] then [] else Insert(xs[|xs| - 1], Sort(xs[..|xs| - 1], first), first)
  }

  /** Nothing stands before an element that has to come first. */
  ghost predicate InOrder<T(!new)>(xs: seq<T>, first: (T, T) -> bool) {
    forall i, j :: 0 <= i < j < |xs| ==> !first(xs[j], xs[i])
  }

  /** Having to come first is a strict order of classes of equal elements. */
  ghost predicate Ranks<T(!new)>(first: (T, T) -> bool) {
    && (forall a, b :: first(a, b) ==> !first(b, a))
    && (forall a, b, c :: !first(b, a) && !first(c, b) ==> !first(c, a))
  }

  function Filter<T>(xs: seq<T>, p: T -> bool): seq<T> {
    if xs == [] then [] else Filter(xs[..|xs| - 1], p) + if p(xs[|xs| - 1]) then [xs[|xs| - 1]] else []
  }

  lemma {:induction false} InsertKeeps<T(!new)>(x: T, sorted: seq<T>, first: (T, T) -> bool)
    ensures multiset(Insert(x, sorted, first)) == multiset(sorted) + multiset{x}
  {
    if sorted != [] && first(x, sorted[|sorted| - 1]) {
      InsertKeeps(x, sorted[..|sorted| - 1], first);
      assert sorted == sorted[..|sorted| - 1] + [sorted[|sorted| - 1]];
    }
  }

  /** Sorting rearranges: nothing is lost or added. */
  lemma {:induction false} SortKeeps<T(!new)>(xs: seq<T>, first: (T, T) -> bool)
    ensures multiset(Sort(xs, first)) == multiset(xs) && |Sort(xs, first)| == |xs|
    ensures forall x :: x in Sort(xs, first) <==> x in xs
  {
    if xs != [] {
      var before, last := xs[..|xs| - 1], xs[|xs| - 1];
      SortKeeps(before, first);
      InsertKeeps(last, Sort(before, first), first);
      assert xs == before + [last];
    }
    SameElements(Sort(xs, first), xs);
  }

  lemma SameElements<T(!new)>(a: seq<T>, b: seq<T>)
    requires multiset(a) == multiset(b)
    ensures |a| == |b| && forall x :: x in a <==> x in b
  {
    assert |a| == |multiset(a)| && |b| == |multiset(b)|;
    forall x ensures x in a <==> x in b { assert (x in a <==> x in multiset(a)) && (x in b <==> x in multiset(b)); }
  }

  lemma {:induction false} InsertOrders<T(!new)>(x: T, sorted: seq<T>, first: (T, T) -> bool)
    requires Ranks(first) && InOrder(sorted, first)
    ensures InOrder(Insert(x, sorted, first), first)
  {
    if sorted != [] {
      var n := |sorted| - 1;
      if first(x, sorted[n]) {
        var inserted := Insert(x, sorted[..n], first);
        InsertOrders(x, sorted[..n], first);
        InsertKeeps(x, sorted[..n], first);
        forall y | y in inserted ensures !first(sorted[n], y) {
          assert y in multiset(inserted);
          assert y == x || y in sorted[..n];
        }
        LastInOrder(inserted, sorted[n], first);
      } else {
        forall y | y in sorted ensures !first(x, y) {
          var i :| 0 <= i < |sorted| && sorted[i] == y;
          assert i == n || !first(sorted[n], y);
        }
        LastInOrder(sorted, x, first);
      }
    }
  }

  lemma LastInOrder<T(!new)>(xs: seq<T>, last: T, first: (T, T) -> bool)
    requires InOrder(xs, first) && forall y :: y in xs ==> !first(last, y)
    ensures InOrder(xs + [last], first)
  {
    forall i, j | 0 <= i < j < |xs| + 1 ensures !first((xs + [last])[j], (xs + [last])[i]) {
      if j == |xs| { assert xs[i] in xs; }
    }
  }

  lemma {:induction false} SortOrders<T(!new)>(xs: seq<T>, first: (T, T) -> bool)
    requires Ranks(first)
    ensures InOrder(Sort(xs, first), first)
  {
    if xs != [] {
      SortOrders(xs[..|xs| - 1], first);
      InsertOrders(xs[|xs| - 1], Sort(xs[..|xs| - 1], first), first);
    }
  }

  lemma {:induction false} FilterAppend<T>(xs: seq<T>, x: T, p: T -> bool)
    ensures Filter(xs + [x], p) == Filter(xs, p) + if p(x) then [x] else []
  {
    assert (xs + [x])[..|xs|] == xs;
  }

  lemma {:induction false} InsertIsStable<T(!new)>(x: T, sorted: seq<T>, first: (T, T) -> bool, p: T -> bool)
    requires forall a, b :: p(a) && p(b) ==> !first(a, b)
    ensures Filter(Insert(x, sorted, first), p) == Filter(sorted, p) + if p(x) then [x] else []
  {
    if sorted == [] || !first(x, sorted[|sorted| - 1]) {
      FilterAppend(sorted, x, p);
    } else {
      var before, last := sorted[..|sorted| - 1], sorted[|sorted| - 1];
      InsertIsStable(x, before, first, p);
      FilterAppend(Insert(x, before, first), last, p);
    }
  }

  /** Elements of which none has to come before another stay in their order. */
  lemma {:induction false} SortIsStable<T(!new)>(xs: seq<T>, first: (T, T) -> bool, p: T -> bool)
    requires forall a, b :: p(a) && p(b) ==> !first(a, b)
    ensures Filter(Sort(xs, first), p) == Filter(xs, p)
  {
    if xs != [] {
      SortIsStable(xs[..|xs| - 1], first, p);
      InsertIsStable(xs[|xs| - 1], Sort(xs[..|xs| - 1], first), first, p);
    }
  }

  ghost predicate Distinct<T(!new)>(xs: seq<T>) {
    forall i, j :: 0 <= i < j < |xs| ==> xs[i] != xs[j]
  }

  lemma {:induction false} DistinctMeansOnce<T(!new)>(xs: seq<T>)
    ensures Distinct(xs) <==> forall x :: multiset(xs)[x] <= 1
  {
    if xs != [] {
      var n := |xs| - 1;
      DistinctMeansOnce(xs[..n]);
      assert xs == xs[..n] + [xs[n]];
      if Distinct(xs[..n]) {
        if xs[n] in xs[..n] {
          assert multiset(xs)[xs[n]] >= 2;
          assert !Distinct(xs);
        } else {
          assert xs[n] !in multiset(xs[..n]);
        }
      } else {
        var i, j :| 0 <= i < j < n && xs[..n][i] == xs[..n][j];
        assert xs[i] == xs[j];
        var x :| multiset(xs[..n])[x] > 1;
        assert multiset(xs)[x] > 1;
      }
    }
  }

  /** Rearranging different elements leaves them different. */
  lemma SortKeepsDistinct<T(!new)>(xs: seq<T>, first: (T, T) -> bool)
    requires Distinct(xs)
    ensures Distinct(Sort(xs, first))
  {
    SortKeeps(xs, first);
    DistinctMeansOnce(xs);
    DistinctMeansOnce(Sort(xs, first));
  }

  function Elements<T(!new)>(xs: seq<T>): (s: set<T>)
    ensures forall x :: x in s <==> x in xs
  {
    if xs == [] then {}
    else
      assert xs == xs[..|xs| - 1] + [xs[|xs| - 1]];
      Elements(xs[..|xs| - 1]) + {xs[|xs| - 1]}
  }

  lemma {:induction false} DistinctCounts<T(!new)>(xs: seq<T>)
    requires Distinct(xs)
    ensures |Elements(xs)| == |xs|
  {
    if xs != [] { DistinctCounts(xs[..|xs| - 1]); }
  }

  /** No two different elements of the list are equal in the order. */
  ghost predicate Separates<T(!new)>(xs: seq<T>, first: (T, T) -> bool) {
    forall x, y :: x in xs && y in xs ==> x == y || first(x, y) || first(y, x)
  }

  lemma SameLast<T(!new)>(a: seq<T>, b: seq<T>, first: (T, T) -> bool)
    requires Separates(a, first) && InOrder(a, first) && InOrder(b, first) && a != [] && b != []
    requires forall x :: x in a <==> x in b
    ensures a[|a| - 1] == b[|b| - 1]
  {
    var x, y := a[|a| - 1], b[|b| - 1];
    assert x in b && y in a;
    var i :| 0 <= i < |b| && b[i] == x;
    var j :| 0 <= j < |a| && a[j] == y;
    assert i == |b| - 1 || !first(y, x);
    assert j == |a| - 1 || !first(x, y);
  }

  lemma WithoutLast<T(!new)>(a: seq<T>, first: (T, T) -> bool)
    requires a != [] && Distinct(a) && InOrder(a, first)
    ensures Distinct(a[..|a| - 1]) && InOrder(a[..|a| - 1], first)
    ensures forall x :: x in a[..|a| - 1] <==> x in a && x != a[|a| - 1]
  {
    var n := |a| - 1;
    assert a == a[..n] + [a[n]];
  }

  /** Where no two different elements are equal, there is only one order. */
  lemma {:induction false} OrderIsUnique<T(!new)>(a: seq<T>, b: seq<T>, first: (T, T) -> bool)
    requires Separates(a, first) && InOrder(a, first) && InOrder(b, first) && Distinct(a) && Distinct(b)
    requires forall x :: x in a <==> x in b
    ensures a == b
  {
    assert b == [] || b[0] in a;
    if a != [] {
      assert a[0] in b;
      SameLast(a, b, first);
      WithoutLast(a, first);
      WithoutLast(b, first);
      var c, d := a[..|a| - 1], b[..|b| - 1];
      forall x ensures x in c <==> x in d { assert (x in c <==> x in a && x != a[|a| - 1]) && (x in d <==> x in b && x != b[|b| - 1]); }
      OrderIsUnique(c, d, first);
      assert a == a[..|a| - 1] + [a[|a| - 1]];
    }
  }
}
