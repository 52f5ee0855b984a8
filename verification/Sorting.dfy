/** Sorting by a comparison: the one algorithm that stands for `std::stable_sort` and `std::sort`,
    and what it does for any comparison that is a strict weak order on the elements sorted. */
module Sorting {
  import opened Seqs

  ghost predicate WeakOrderOn<T(!new)>(lt: (T, T) -> bool, dom: set<T>) {
    && (forall x {:trigger lt(x, x)} :: x in dom ==> !lt(x, x))
    && (forall x, y, z {:trigger lt(x, y), lt(y, z)} ::
          x in dom && y in dom && z in dom && lt(x, y) && lt(y, z) ==> lt(x, z))
    && (forall x, y, z {:trigger lt(x, z), lt(x, y)} {:trigger lt(x, z), lt(y, z)} ::
          x in dom && y in dom && z in dom && lt(x, z) ==> lt(x, y) || lt(y, z))
  }

  ghost predicate Within<T>(xs: seq<T>, dom: set<T>) {
    forall x :: x in xs ==> x in dom
  }

  ghost predicate SortedBy<T>(lt: (T, T) -> bool, xs: seq<T>) {
    forall i, j :: 0 <= i < j < |xs| ==> !lt(xs[j], xs[i])
  }

  /** A new element goes before the first element that it precedes. */
  function Inserted<T>(lt: (T, T) -> bool, sorted: seq<T>, x: T): (r: seq<T>)
    ensures |r| == |sorted| + 1
  {
    if sorted == [] then [x]
    else if lt(x, sorted[0]) then [x] + sorted
    else [sorted[0]] + Inserted(lt, sorted[1..], x)
  }

  function StableSorted<T>(lt: (T, T) -> bool, xs: seq<T>): (r: seq<T>)
    ensures |r| == |xs|
  {
    if xs == [] then [] else Inserted(lt, StableSorted(lt, xs[..|xs| - 1]), xs[|xs| - 1])
  }

  ghost function Select<T>(xs: seq<T>, p: T -> bool): seq<T> {
    if xs == [] then [] else (if p(xs[0]) then [xs[0]] else []) + Select(xs[1..], p)
  }

  lemma {:induction false} InsertedPermutes<T>(lt: (T, T) -> bool, sorted: seq<T>, x: T)
    ensures multiset(Inserted(lt, sorted, x)) == multiset(sorted) + multiset{x}
    ensures forall y :: y in Inserted(lt, sorted, x) <==> y in sorted || y == x
  {
    if sorted != [] {
      assert sorted == [sorted[0]] + sorted[1..];
      if !lt(x, sorted[0]) {
        InsertedPermutes(lt, sorted[1..], x);
      }
    }
  }

  lemma SortedCons<T>(lt: (T, T) -> bool, x: T, xs: seq<T>)
    requires SortedBy(lt, xs) && forall y :: y in xs ==> !lt(y, x)
    ensures SortedBy(lt, [x] + xs)
  {
    var s := [x] + xs;
    forall i, j | 0 <= i < j < |s| ensures !lt(s[j], s[i]) {
      assert s[j] == xs[j - 1] && (i > 0 ==> s[i] == xs[i - 1]);
    }
  }

  lemma SortedHead<T>(lt: (T, T) -> bool, xs: seq<T>)
    requires SortedBy(lt, xs) && xs != []
    ensures SortedBy(lt, xs[1..]) && forall y :: y in xs[1..] ==> !lt(y, xs[0])
  {
  }

  lemma NothingBelow<T(!new)>(lt: (T, T) -> bool, dom: set<T>, x: T, xs: seq<T>)
    requires WeakOrderOn(lt, dom) && Within(xs, dom) && x in dom
    requires SortedBy(lt, xs) && xs != [] && lt(x, xs[0])
    ensures forall y :: y in xs ==> !lt(y, x) && lt(x, y)
  {
    SortedHead(lt, xs);
    assert xs[0] in dom;
    forall y | y in xs ensures !lt(y, x) && lt(x, y) {
      assert y == xs[0] || y in xs[1..];
      assert !lt(y, xs[0]) && !lt(x, x);
    }
  }

  lemma {:induction false} InsertedSorted<T(!new)>(lt: (T, T) -> bool, dom: set<T>, sorted: seq<T>, x: T)
    requires WeakOrderOn(lt, dom) && Within(sorted, dom) && x in dom
    requires SortedBy(lt, sorted)
    ensures SortedBy(lt, Inserted(lt, sorted, x))
  {
    if sorted != [] {
      if lt(x, sorted[0]) {
        NothingBelow(lt, dom, x, sorted);
        SortedCons(lt, x, sorted);
      } else {
        SortedHead(lt, sorted);
        InsertedSorted(lt, dom, sorted[1..], x);
        InsertedPermutes(lt, sorted[1..], x);
        SortedCons(lt, sorted[0], Inserted(lt, sorted[1..], x));
      }
    }
  }

  function OneIf<T>(c: bool, x: T): seq<T> {
    if c then [x] else []
  }

  lemma SelectCons<T>(x: T, xs: seq<T>, p: T -> bool)
    ensures Select([x] + xs, p) == OneIf(p(x), x) + Select(xs, p)
  {
    assert ([x] + xs)[1..] == xs;
  }

  lemma {:induction false} InsertedStable<T(!new)>(lt: (T, T) -> bool, dom: set<T>, sorted: seq<T>, x: T, p: T -> bool)
    requires WeakOrderOn(lt, dom) && Within(sorted, dom) && x in dom
    requires SortedBy(lt, sorted)
    requires forall y, z :: y in dom && z in dom && p(y) && p(z) ==> !lt(y, z)
    ensures Select(Inserted(lt, sorted, x), p) == Select(sorted, p) + OneIf(p(x), x)
  {
    if sorted == [] {
      SelectCons(x, [], p);
      assert [x] + [] == [x];
    } else if lt(x, sorted[0]) {
      SelectCons(x, sorted, p);
      if p(x) {
        NothingBelow(lt, dom, x, sorted);
        SelectNone(sorted, p);
      }
    } else {
      var head, tail := sorted[0], sorted[1..];
      SortedHead(lt, sorted);
      InsertedStable(lt, dom, tail, x, p);
      SelectCons(head, Inserted(lt, tail, x), p);
      Assoc(OneIf(p(head), head), Select(tail, p), OneIf(p(x), x));
    }
  }

  lemma {:induction false} SelectNone<T>(xs: seq<T>, p: T -> bool)
    requires forall x :: x in xs ==> !p(x)
    ensures Select(xs, p) == []
  {
    if xs != [] { SelectNone(xs[1..], p); }
  }

  lemma {:induction false} SelectSnoc<T>(xs: seq<T>, x: T, p: T -> bool)
    ensures Select(xs + [x], p) == Select(xs, p) + OneIf(p(x), x)
  {
    if xs == [] {
      SelectCons(x, [], p);
      assert xs + [x] == [x] + [];
    } else {
      Assoc([xs[0]], xs[1..], [x]);
      assert [xs[0]] + xs[1..] == xs;
      SelectCons(xs[0], xs[1..] + [x], p);
      SelectSnoc(xs[1..], x, p);
      Assoc(OneIf(p(xs[0]), xs[0]), Select(xs[1..], p), OneIf(p(x), x));
    }
  }

  lemma {:induction false} StableSortedPermutes<T>(lt: (T, T) -> bool, xs: seq<T>)
    ensures multiset(StableSorted(lt, xs)) == multiset(xs)
    ensures forall y :: y in StableSorted(lt, xs) <==> y in xs
  {
    if xs != [] {
      var front := xs[..|xs| - 1];
      assert xs == front + [xs[|xs| - 1]];
      StableSortedPermutes(lt, front);
      InsertedPermutes(lt, StableSorted(lt, front), xs[|xs| - 1]);
    }
  }

  /** On a strict weak order the result is sorted. */
  lemma {:induction false} StableSortedSorts<T(!new)>(lt: (T, T) -> bool, dom: set<T>, xs: seq<T>)
    requires WeakOrderOn(lt, dom) && Within(xs, dom)
    ensures SortedBy(lt, StableSorted(lt, xs))
  {
    if xs != [] {
      var front, last := xs[..|xs| - 1], xs[|xs| - 1];
      StableSortedSorts(lt, dom, front);
      StableSortedPermutes(lt, front);
      InsertedSorted(lt, dom, StableSorted(lt, front), last);
    }
  }

  /** Elements that do not precede one another keep the order they came in. */
  lemma {:induction false} StableSortedStable<T(!new)>(lt: (T, T) -> bool, dom: set<T>, xs: seq<T>, p: T -> bool)
    requires WeakOrderOn(lt, dom) && Within(xs, dom)
    requires forall y, z :: y in dom && z in dom && p(y) && p(z) ==> !lt(y, z)
    ensures Select(StableSorted(lt, xs), p) == Select(xs, p)
  {
    if xs != [] {
      var front, last := xs[..|xs| - 1], xs[|xs| - 1];
      assert xs == front + [last];
      StableSortedStable(lt, dom, front, p);
      StableSortedSorts(lt, dom, front);
      StableSortedPermutes(lt, front);
      InsertedStable(lt, dom, StableSorted(lt, front), last, p);
      SelectSnoc(front, last, p);
    }
  }

  /** Only the comparisons of a later element with an earlier one matter. */
  lemma {:induction false} SameComparisons<T>(lt: (T, T) -> bool, lt': (T, T) -> bool, xs: seq<T>)
    requires forall i, j :: 0 <= i < j < |xs| ==> lt(xs[j], xs[i]) == lt'(xs[j], xs[i])
    ensures StableSorted(lt, xs) == StableSorted(lt', xs)
  {
    if xs != [] {
      var front, last := xs[..|xs| - 1], xs[|xs| - 1];
      SameComparisons(lt, lt', front);
      StableSortedPermutes(lt, front);
      forall y | y in StableSorted(lt, front) ensures lt(last, y) == lt'(last, y) {
        assert y in multiset(StableSorted(lt, front)) && y in multiset(front);
        var i :| 0 <= i < |front| && front[i] == y;
        assert xs[i] == y;
      }
      SameInserted(lt, lt', StableSorted(lt, front), last);
    }
  }

  lemma {:induction false} SameInserted<T>(lt: (T, T) -> bool, lt': (T, T) -> bool, sorted: seq<T>, x: T)
    requires forall y :: y in sorted ==> lt(x, y) == lt'(x, y)
    ensures Inserted(lt, sorted, x) == Inserted(lt', sorted, x)
  {
    if sorted != [] {
      SameInserted(lt, lt', sorted[1..], x);
    }
  }

  lemma RemoveAt<T>(xs: seq<T>, j: nat)
    requires j < |xs|
    ensures multiset(xs[..j] + xs[j + 1..]) == multiset(xs) - multiset{xs[j]}
  {
    assert xs == xs[..j] + [xs[j]] + xs[j + 1..];
  }

  function Map<T, U>(f: T -> U, xs: seq<T>): (r: seq<U>)
    ensures |r| == |xs|
    ensures forall i :: 0 <= i < |xs| ==> r[i] == f(xs[i])
  {
    seq(|xs|, i requires 0 <= i < |xs| => f(xs[i]))
  }

  lemma MapRemoveAt<T, U>(f: T -> U, xs: seq<T>, j: nat)
    requires j < |xs|
    ensures multiset(Map(f, xs)) == multiset(Map(f, xs[..j] + xs[j + 1..])) + multiset{f(xs[j])}
  {
    var ys := Map(f, xs);
    RemoveAt(ys, j);
    assert Map(f, xs[..j] + xs[j + 1..]) == ys[..j] + ys[j + 1..];
    assert ys[j] in multiset(ys);
  }

  lemma SameElements<T>(xs: seq<T>, ys: seq<T>) returns (j: nat)
    requires xs != [] && multiset(xs) == multiset(ys)
    ensures j < |ys| && ys[j] == xs[0]
    ensures multiset(xs[1..]) == multiset(ys[..j] + ys[j + 1..])
  {
    assert xs[0] in multiset(ys);
    j :| 0 <= j < |ys| && ys[j] == xs[0];
    RemoveAt(ys, j);
    assert xs == [xs[0]] + xs[1..];
  }

  lemma {:induction false} MapPermutes<T, U>(f: T -> U, xs: seq<T>, ys: seq<T>)
    requires multiset(xs) == multiset(ys)
    ensures multiset(Map(f, xs)) == multiset(Map(f, ys))
    decreases |xs|
  {
    if xs == [] {
      assert |ys| == |multiset(ys)| == 0;
      assert Map(f, xs) == Map(f, ys);
    } else {
      var j := SameElements(xs, ys);
      MapRemoveAt(f, xs, 0);
      assert xs[..0] + xs[1..] == xs[1..];
      MapRemoveAt(f, ys, j);
      MapPermutes(f, xs[1..], ys[..j] + ys[j + 1..]);
    }
  }

  lemma InsertPast<T>(lt: (T, T) -> bool, xs: seq<T>, x: T, k: nat)
    requires k < |xs| && !lt(x, xs[k])
    ensures xs[..k] + Inserted(lt, xs[k..], x) == xs[..k + 1] + Inserted(lt, xs[k + 1..], x)
  {
    assert xs[k..][1..] == xs[k + 1..];
  }

  lemma InsertHere<T>(lt: (T, T) -> bool, xs: seq<T>, x: T, k: nat)
    requires k <= |xs| && (k == |xs| || lt(x, xs[k]))
    ensures Inserted(lt, xs[k..], x) == [x] + xs[k..]
  {
  }

  lemma SortStep<T>(lt: (T, T) -> bool, xs: seq<T>, part: seq<T>, n: nat)
    requires n < |xs| && part == StableSorted(lt, xs[..n]) + xs[n..]
    ensures Inserted(lt, part[..n], part[n]) + part[n + 1..] == StableSorted(lt, xs[..n + 1]) + xs[n + 1..]
  {
    var done := StableSorted(lt, xs[..n]);
    assert part[..n] == done && part[n] == xs[n] && part[n + 1..] == xs[n + 1..];
    assert xs[..n + 1][..n] == xs[..n];
  }

  /** The position of the first element that `x` precedes. */
  method Place<T>(lt: (T, T) -> bool, sorted: seq<T>, x: T) returns (k: nat)
    ensures k <= |sorted| && Inserted(lt, sorted, x) == sorted[..k] + [x] + sorted[k..]
  {
    k := 0;
    while k < |sorted| && !lt(x, sorted[k])
      invariant k <= |sorted|
      invariant Inserted(lt, sorted, x) == sorted[..k] + Inserted(lt, sorted[k..], x)
    {
      InsertPast(lt, sorted, x, k);
      k := k + 1;
    }
    InsertHere(lt, sorted, x, k);
    Assoc(sorted[..k], [x], sorted[k..]);
  }

  /** A vector that is sorted in place, from front to back. */
  class Vector<T> {
    var elems: seq<T>

    constructor (xs: seq<T>)
      ensures elems == xs
    {
      elems := xs;
    }

    /** Moves the element at `n` to its place among the sorted ones before it. */
    method InsertAt(lt: (T, T) -> bool, n: nat)
      requires n < |elems|
      modifies this
      ensures elems == Inserted(lt, old(elems)[..n], old(elems)[n]) + old(elems)[n + 1..]
    {
      var sorted, x := elems[..n], elems[n];
      var k := Place(lt, sorted, x);
      elems := sorted[..k] + [x] + sorted[k..] + elems[n + 1..];
    }

    method Sort(lt: (T, T) -> bool)
      modifies this
      ensures elems == StableSorted(lt, old(elems))
    {
      var n := 0;
      while n < |elems|
        invariant n <= |elems| == |old(elems)|
        invariant elems == StableSorted(lt, old(elems)[..n]) + old(elems)[n..]
        decreases |old(elems)| - n
      {
        SortStep(lt, old(elems), elems, n);
        InsertAt(lt, n);
        n := n + 1;
      }
      assert old(elems)[..n] == old(elems);
    }
  }
}
