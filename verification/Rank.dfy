/** Ranking: candidates are sorted by a vector of features, column by column, each in its direction. */
module Rank {
  import opened Json
  import opened Numbers
  import opened Options
  import opened Pointer
  import opened Sorting

  /** A feature is a number or null. */
  type Features = seq<Option<real>>

  /** The sort expressions of a rule, evaluated on an item. */
  type SortBy = Value -> Option<Features>

  /** A ranked item: its service, the name that goes into the result, its features, and the item itself. */
  datatype Candidate = Candidate(service: string, name: string, features: Features, item: Value)

  function Number(f: Option<real>): real {
    if f.Some? then f.value else 0.0
  }

  /** `Compare::operator()` from column `i` on: two nulls end the comparison, one null counts as zero. */
  predicate Precedes(desc: seq<bool>, a: Features, b: Features, i: nat)
    requires |a| == |b| == |desc|
    decreases |desc| - i
  {
    if i >= |desc| || (a[i].None? && b[i].None?) then false
    else if Number(a[i]) < Number(b[i]) then !desc[i]
    else if Number(a[i]) > Number(b[i]) then desc[i]
    else Precedes(desc, a, b, i + 1)
  }

  method Compare(desc: seq<bool>, a: Features, b: Features) returns (less: bool)
    requires |a| == |b| == |desc|
    ensures less == Precedes(desc, a, b, 0)
  {
    for i := 0 to |a|
      invariant Precedes(desc, a, b, 0) == Precedes(desc, a, b, i)
    {
      if a[i].None? && b[i].None? {
        return false;
      } else if a[i].None? {
        if 0.0 < b[i].value { return !desc[i]; } else if 0.0 > b[i].value { return desc[i]; }
      } else if b[i].None? {
        if a[i].value < 0.0 { return !desc[i]; } else if a[i].value > 0.0 { return desc[i]; }
      } else {
        if a[i].value < b[i].value { return !desc[i]; } else if a[i].value > b[i].value { return desc[i]; }
      }
    }
    return false;
  }

  /** A null against a number counts as zero, on either side. */
  lemma NullCountsAsZero(desc: seq<bool>, a: Features, b: Features, i: nat)
    requires |a| == |b| == |desc| && i < |desc| && a[i].None? && b[i].Some?
    ensures Precedes(desc, a, b, i) ==
      if b[i].value > 0.0 then !desc[i] else if b[i].value < 0.0 then desc[i] else Precedes(desc, a, b, i + 1)
    ensures Precedes(desc, b, a, i) ==
      if b[i].value < 0.0 then !desc[i] else if b[i].value > 0.0 then desc[i] else Precedes(desc, b, a, i + 1)
  {
  }

  /** The two vectors have nulls in the same columns. */
  predicate SameNulls(a: Features, b: Features) {
    |a| == |b| && forall i :: 0 <= i < |a| ==> a[i].None? == b[i].None?
  }

  /** The first column in which two vectors decide: before it they agree and have no nulls. */
  ghost predicate DecidesAt(desc: seq<bool>, a: Features, b: Features, i: nat)
    requires |a| == |b| == |desc|
  {
    && i < |desc| && a[i].Some? && b[i].Some? && a[i] != b[i]
    && forall k :: 0 <= k < i ==> a[k].Some? && a[k] == b[k]
  }

  /** The comparison is the lexicographic one, each column in its own direction, up to a null column. */
  lemma {:induction false} PrecedesIsLexicographic(desc: seq<bool>, a: Features, b: Features, i: nat)
    requires |desc| == |a| && SameNulls(a, b) && i <= |desc|
    requires forall k :: 0 <= k < i ==> a[k].Some? && a[k] == b[k]
    ensures Precedes(desc, a, b, i) <==>
      exists j :: i <= j < |desc| && DecidesAt(desc, a, b, j) && (a[j].value > b[j].value) == desc[j]
    decreases |desc| - i
  {
    if i < |desc| && a[i].Some? {
      if a[i] == b[i] {
        PrecedesIsLexicographic(desc, a, b, i + 1);
      } else {
        assert DecidesAt(desc, a, b, i);
      }
    }
  }

  lemma {:induction false} PrecedesIrreflexive(desc: seq<bool>, a: Features, i: nat)
    requires |a| == |desc|
    ensures !Precedes(desc, a, a, i)
    decreases |desc| - i
  {
    if i < |desc| { PrecedesIrreflexive(desc, a, i + 1); }
  }

  lemma {:induction false} PrecedesTransitive(desc: seq<bool>, a: Features, b: Features, c: Features, i: nat)
    requires |desc| == |a| && SameNulls(a, b) && SameNulls(b, c)
    ensures Precedes(desc, a, b, i) && Precedes(desc, b, c, i) ==> Precedes(desc, a, c, i)
    ensures Precedes(desc, a, c, i) ==> Precedes(desc, a, b, i) || Precedes(desc, b, c, i)
    decreases |desc| - i
  {
    if i < |desc| { PrecedesTransitive(desc, a, b, c, i + 1); }
  }

  /** Every column is null in all candidates or in none. */
  ghost predicate Uniform(desc: seq<bool>, xs: set<Candidate>) {
    && (forall x :: x in xs ==> |x.features| == |desc|)
    && (forall x, y :: x in xs && y in xs ==> SameNulls(x.features, y.features))
  }

  function Less(desc: seq<bool>): (Candidate, Candidate) -> bool {
    (x: Candidate, y: Candidate) =>
      |x.features| == |y.features| == |desc| && Precedes(desc, x.features, y.features, 0)
  }

  /** On uniform columns the comparison is a strict weak order. */
  lemma UniformIsWeakOrder(desc: seq<bool>, xs: set<Candidate>)
    requires Uniform(desc, xs)
    ensures WeakOrderOn(Less(desc), xs)
  {
    var lt := Less(desc);
    forall x | x in xs ensures !lt(x, x) { PrecedesIrreflexive(desc, x.features, 0); }
    forall x, y, z | x in xs && y in xs && z in xs
      ensures (lt(x, y) && lt(y, z) ==> lt(x, z)) && (lt(x, z) ==> lt(x, y) || lt(y, z))
    {
      PrecedesTransitive(desc, x.features, y.features, z.features, 0);
    }
  }

  /** In particular, uniform columns leave no two candidates stopped that compare differently. */
  lemma UniformIsAlike(desc: seq<bool>, xs: set<Candidate>)
    requires Uniform(desc, xs)
    ensures StoppedAlike(desc, xs)
  {
    UniformIsWeakOrder(desc, xs);
    WeakOrderExactly(desc, xs);
  }

  /** A column with a null in some candidates only makes the comparison intransitive. */
  lemma MixedNullsBreakOrder()
    ensures exists a: Features, b: Features, c: Features, desc: seq<bool> ::
      && |a| == |b| == |c| == |desc|
      && Precedes(desc, a, b, 0) && Precedes(desc, b, c, 0) && !Precedes(desc, a, c, 0)
  {
    var a, b, c: Features, desc := [None, Some(0.0)], [Some(0.0), Some(1.0)], [None, Some(2.0)], [false, false];
    assert Precedes(desc, a, b, 1) && Precedes(desc, b, c, 1);
    assert Precedes(desc, a, b, 0) && Precedes(desc, b, c, 0) && !Precedes(desc, a, c, 0);
  }

  // ---- exactly when the comparison orders ----

  /** The lexicographic comparison with null as zero, from column `i` on. */
  predicate Lexical(desc: seq<bool>, a: Features, b: Features, i: nat)
    requires |a| == |b| == |desc|
    decreases |desc| - i
  {
    if i >= |desc| then false
    else if Number(a[i]) < Number(b[i]) then !desc[i]
    else if Number(a[i]) > Number(b[i]) then desc[i]
    else Lexical(desc, a, b, i + 1)
  }

  /** From column `i` on: a column is null in both, and all columns before it tie as numbers. */
  predicate StoppedFrom(a: Features, b: Features, i: nat)
    requires |a| == |b|
    decreases |a| - i
  {
    i < |a| && ((a[i].None? && b[i].None?) || (Number(a[i]) == Number(b[i]) && StoppedFrom(a, b, i + 1)))
  }

  lemma {:induction false} StoppedIs(a: Features, b: Features, i: nat)
    requires |a| == |b|
    ensures StoppedFrom(a, b, i) <==>
      exists j :: i <= j < |a| && a[j].None? && b[j].None? && forall k :: i <= k < j ==> Number(a[k]) == Number(b[k])
    decreases |a| - i
  {
    if i < |a| { StoppedIs(a, b, i + 1); }
  }

  /** The comparison is the lexicographic one on pairs that no common null stops. */
  lemma {:induction false} PrecedesOrStopped(desc: seq<bool>, a: Features, b: Features, i: nat)
    requires |a| == |b| == |desc|
    ensures Precedes(desc, a, b, i) <==> Lexical(desc, a, b, i) && !StoppedFrom(a, b, i)
    decreases |desc| - i
  {
    if i < |desc| { PrecedesOrStopped(desc, a, b, i + 1); }
  }

  lemma {:induction false} StoppedSymmetric(a: Features, b: Features, i: nat)
    requires |a| == |b|
    ensures StoppedFrom(a, b, i) <==> StoppedFrom(b, a, i)
    decreases |a| - i
  {
    if i < |a| { StoppedSymmetric(a, b, i + 1); }
  }

  lemma {:induction false} LexicalOrder(desc: seq<bool>, a: Features, b: Features, c: Features, i: nat)
    requires |a| == |b| == |c| == |desc|
    ensures !Lexical(desc, a, a, i) && !(Lexical(desc, a, b, i) && Lexical(desc, b, a, i))
    ensures Lexical(desc, a, b, i) && Lexical(desc, b, c, i) ==> Lexical(desc, a, c, i)
    ensures Lexical(desc, a, c, i) ==> Lexical(desc, a, b, i) || Lexical(desc, b, c, i)
    decreases |desc| - i
  {
    if i < |desc| { LexicalOrder(desc, a, b, c, i + 1); }
  }

  ghost predicate FullWidth(desc: seq<bool>, xs: set<Candidate>) {
    forall x :: x in xs ==> |x.features| == |desc|
  }

  /** Two candidates compare with `z` in the same way. */
  predicate Alike(desc: seq<bool>, x: Candidate, y: Candidate, z: Candidate) {
    Less(desc)(x, z) == Less(desc)(y, z) && Less(desc)(z, x) == Less(desc)(z, y)
  }

  predicate Stopped(x: Candidate, y: Candidate) {
    |x.features| == |y.features| && StoppedFrom(x.features, y.features, 0)
  }

  /** Candidates that a common null stops compare alike with every candidate. */
  ghost predicate StoppedAlike(desc: seq<bool>, xs: set<Candidate>) {
    forall x, y, z :: x in xs && y in xs && z in xs && Stopped(x, y) ==> Alike(desc, x, y, z)
  }

  lemma LessIs(desc: seq<bool>, x: Candidate, y: Candidate)
    requires |x.features| == |y.features| == |desc|
    ensures Less(desc)(x, y) <==> Lexical(desc, x.features, y.features, 0) && !Stopped(x, y)
    ensures Stopped(x, y) <==> Stopped(y, x)
  {
    PrecedesOrStopped(desc, x.features, y.features, 0);
    StoppedSymmetric(x.features, y.features, 0);
  }

  lemma AlikeOrders(desc: seq<bool>, xs: set<Candidate>, x: Candidate, y: Candidate, z: Candidate)
    requires FullWidth(desc, xs) && StoppedAlike(desc, xs) && x in xs && y in xs && z in xs
    ensures var lt := Less(desc);
      !lt(x, x) && (lt(x, y) && lt(y, z) ==> lt(x, z)) && (lt(x, z) ==> lt(x, y) || lt(y, z))
  {
    LessIs(desc, x, x);
    LessIs(desc, x, y);
    LessIs(desc, y, z);
    LessIs(desc, z, y);
    LessIs(desc, x, z);
    LexicalOrder(desc, x.features, y.features, z.features, 0);
    LexicalOrder(desc, y.features, z.features, y.features, 0);
    assert Stopped(x, z) ==> Alike(desc, x, z, y);
    assert Stopped(x, y) ==> Alike(desc, x, y, z);
    assert Stopped(y, z) ==> Alike(desc, y, z, x);
  }

  /** The comparison is a strict weak order on the candidates exactly when any two that a common null
      stops compare alike with all of them. */
  lemma WeakOrderExactly(desc: seq<bool>, xs: set<Candidate>)
    requires FullWidth(desc, xs)
    ensures WeakOrderOn(Less(desc), xs) <==> StoppedAlike(desc, xs)
  {
    var lt := Less(desc);
    if StoppedAlike(desc, xs) {
      forall x, y, z | x in xs && y in xs && z in xs
        ensures !lt(x, x) && (lt(x, y) && lt(y, z) ==> lt(x, z)) && (lt(x, z) ==> lt(x, y) || lt(y, z))
      {
        AlikeOrders(desc, xs, x, y, z);
      }
    }
    if WeakOrderOn(lt, xs) {
      forall x, y, z | x in xs && y in xs && z in xs && Stopped(x, y) ensures Alike(desc, x, y, z) {
        LessIs(desc, x, y);
        LessIs(desc, y, x);
        assert lt(x, z) ==> lt(x, y) || lt(y, z);
        assert lt(y, z) ==> lt(y, x) || lt(x, z);
        assert lt(z, x) ==> lt(z, y) || lt(y, x);
        assert lt(z, y) ==> lt(z, x) || lt(x, y);
      }
    }
  }

  // ---- the rank rule ----

  class RankConfig {
    var order: map<string, int>
    var desc: seq<bool>

    constructor ()
      ensures order == map[] && desc == []
    {
      order, desc := map[], [];
    }

    /** `groups` are the `order` entries, each split at its commas. */
    method Init(groups: seq<seq<string>>, sortByDesc: seq<bool>)
      requires order == map[] && desc == []
      modifies this
      ensures order == Priorities(groups, |groups|)
      ensures desc == (if order == map[] then [] else [true]) + sortByDesc
    {
      for i := 0 to |groups|
        invariant order == Priorities(groups[..i], |groups|) && desc == []
      {
        var group := groups[i];
        assert groups[..i + 1][..i] == groups[..i];
        for j := 0 to |group|
          invariant order == AddGroup(Priorities(groups[..i], |groups|), group[..j], |groups| - i) && desc == []
        {
          assert group[..j + 1][..j] == group[..j];
          if group[j] !in order {
            order := order[group[j] := |groups| - i];
          }
        }
        assert group[..|group|] == group;
      }
      assert groups[..|groups|] == groups;
      if |order| != 0 {
        desc := desc + [true];
      }
      for i := 0 to |sortByDesc|
        invariant order == Priorities(groups, |groups|)
        invariant desc == (if order == map[] then [] else [true]) + sortByDesc[..i]
      {
        desc := desc + [sortByDesc[i]];
      }
      assert sortByDesc[..|sortByDesc|] == sortByDesc;
    }

    /** The features of one candidate, or of the elements of an array. */
    method Collect(name: string, backend: seq<Member>, sortBy: SortBy) returns (found: seq<Candidate>)
      ensures found == OneCandidate(name, backend, order, |desc|, sortBy)
    {
      found := [];
      if !HasMember(backend, name) {
        return;
      }
      var base := if |order| != 0 && name in order then [Some(order[name] as real)] else [];
      var item := Get(backend, name);
      if item.Array? {
        for j := 0 to |item.items|
          invariant found == Elements(name, base, item.items[..j], |desc|, sortBy)
        {
          assert item.items[..j + 1][..j] == item.items[..j];
          var f := sortBy(item.items[j]);
          if f.None? {
            continue;
          }
          if |base + f.value| == |desc| {
            found := found + [Candidate(name, name + "/" + Digits(j), base + f.value, item.items[j])];
          }
        }
        assert item.items[..|item.items|] == item.items;
      } else {
        var f := sortBy(item);
        if f.Some? && |base + f.value| == |desc| {
          found := [Candidate(name, name, base + f.value, item)];
        }
      }
    }

    /** Collects the features of every candidate, sorts, and lists the names. */
    method Run(candidates: seq<string>, backend: seq<Member>, sortBy: SortBy)
      returns (result: seq<string>, ranked: seq<Candidate>)
      ensures result == Map((c: Candidate) => c.name, ranked)
      ensures multiset(ranked) == multiset(Eligible(candidates, backend, order, |desc|, sortBy))
      ensures WeakOrderOn(Less(desc), set c | c in ranked) ==> SortedBy(Less(desc), ranked)
    {
      var features := [];
      for i := 0 to |candidates|
        invariant features == Eligible(candidates[..i], backend, order, |desc|, sortBy)
      {
        assert candidates[..i + 1][..i] == candidates[..i];
        var found := Collect(candidates[i], backend, sortBy);
        features := features + found;
      }
      assert candidates[..|candidates|] == candidates;
      ranked := SortFeatures(features);
      result := ListNames(ranked);
    }

    method ListNames(ranked: seq<Candidate>) returns (result: seq<string>)
      ensures result == Map((c: Candidate) => c.name, ranked)
    {
      result := [];
      for i := 0 to |ranked|
        invariant result == Map((c: Candidate) => c.name, ranked[..i])
      {
        result := result + [ranked[i].name];
      }
      assert ranked[..|ranked|] == ranked;
    }

    method SortFeatures(features: seq<Candidate>) returns (ranked: seq<Candidate>)
      ensures multiset(ranked) == multiset(features)
      ensures WeakOrderOn(Less(desc), set c | c in ranked) ==> SortedBy(Less(desc), ranked)
    {
      var vector := new Vector(features);
      vector.Sort(Less(desc));
      ranked := vector.elems;
      StableSortedPermutes(Less(desc), features);
      if WeakOrderOn(Less(desc), set c | c in ranked) {
        StableSortedSorts(Less(desc), (set c | c in ranked), features);
      }
    }
  }

  function AddGroup(m: map<string, int>, names: seq<string>, priority: int): map<string, int> {
    if names == [] then m
    else
      var m', name := AddGroup(m, names[..|names| - 1], priority), names[|names| - 1];
      if name in m' then m' else m'[name := priority]
  }

  function Priorities(groups: seq<seq<string>>, size: nat): map<string, int> {
    if groups == [] then map[]
    else
      var n := |groups| - 1;
      AddGroup(Priorities(groups[..n], size), groups[n], size - n)
  }

  function Base(order: map<string, int>, name: string): Features {
    if order != map[] && name in order then [Some(order[name] as real)] else []
  }

  function Elements(name: string, base: Features, items: seq<Value>, width: nat, sortBy: SortBy): seq<Candidate> {
    if items == [] then []
    else
      var n := |items| - 1;
      var f := sortBy(items[n]);
      Elements(name, base, items[..n], width, sortBy) +
      if f.Some? && |base + f.value| == width
      then [Candidate(name, name + "/" + Digits(n), base + f.value, items[n])] else []
  }

  function OneCandidate(name: string, backend: seq<Member>, order: map<string, int>, width: nat, sortBy: SortBy)
    : seq<Candidate>
  {
    if !HasMember(backend, name) then []
    else
      var item, base := Get(backend, name), Base(order, name);
      if item.Array? then Elements(name, base, item.items, width, sortBy)
      else
        var f := sortBy(item);
        if f.Some? && |base + f.value| == width then [Candidate(name, name, base + f.value, item)] else []
  }

  /** The candidates and elements that have a full vector of features. */
  function Eligible(names: seq<string>, backend: seq<Member>, order: map<string, int>, width: nat, sortBy: SortBy)
    : seq<Candidate>
  {
    if names == [] then []
    else
      Eligible(names[..|names| - 1], backend, order, width, sortBy) +
      OneCandidate(names[|names| - 1], backend, order, width, sortBy)
  }

  /** Where a candidate comes from: an item that is not an array, or an element of one. */
  ghost predicate Comes(c: Candidate, backend: seq<Member>, order: map<string, int>, width: nat, sortBy: SortBy)
  {
    && HasMember(backend, c.service) && sortBy(c.item).Some? && |c.features| == width
    && c.features == Base(order, c.service) + sortBy(c.item).value
    && (var item := Get(backend, c.service);
        if item.Array? then exists j :: 0 <= j < |item.items| && IsElement(c, item.items, j)
        else c.item == item && c.name == c.service)
  }

  ghost predicate IsElement(c: Candidate, items: seq<Value>, j: nat)
    requires j < |items|
  {
    c.item == items[j] && c.name == c.service + "/" + Digits(j)
  }

  /** A candidate made of element `j` with a full vector of features. */
  ghost predicate FromElement(c: Candidate, name: string, base: Features, items: seq<Value>, width: nat, sortBy: SortBy,
                              j: nat)
    requires j < |items|
  {
    && c.service == name && sortBy(c.item).Some? && c.features == base + sortBy(c.item).value
    && |c.features| == width && IsElement(c, items, j)
  }

  lemma LastElement(name: string, base: Features, items: seq<Value>, width: nat, sortBy: SortBy, c: Candidate)
    requires items != []
    ensures c in Elements(name, base, items, width, sortBy) <==>
      || c in Elements(name, base, items[..|items| - 1], width, sortBy)
      || FromElement(c, name, base, items, width, sortBy, |items| - 1)
  {
  }

  lemma {:induction false} ElementsAre(name: string, base: Features, items: seq<Value>, width: nat, sortBy: SortBy,
                                       c: Candidate)
    ensures c in Elements(name, base, items, width, sortBy) <==>
      exists j :: 0 <= j < |items| && FromElement(c, name, base, items, width, sortBy, j)
  {
    if items != [] {
      var n := |items| - 1;
      ElementsAre(name, base, items[..n], width, sortBy, c);
      assert forall j :: 0 <= j < n ==>
        (FromElement(c, name, base, items[..n], width, sortBy, j) <==> FromElement(c, name, base, items, width, sortBy, j));
      LastElement(name, base, items, width, sortBy, c);
    }
  }

  lemma {:induction false} OneCandidateIs(name: string, backend: seq<Member>, order: map<string, int>, width: nat,
                                          sortBy: SortBy, c: Candidate)
    ensures c in OneCandidate(name, backend, order, width, sortBy) <==>
      c.service == name && Comes(c, backend, order, width, sortBy)
  {
    if HasMember(backend, name) && Get(backend, name).Array? {
      var items, base := Get(backend, name).items, Base(order, name);
      ElementsAre(name, base, items, width, sortBy, c);
      if c.service == name && Comes(c, backend, order, width, sortBy) {
        var j :| 0 <= j < |items| && IsElement(c, items, j);
        assert FromElement(c, name, base, items, width, sortBy, j);
      }
    }
  }

  /** The eligible candidates are exactly the items and elements that come with a full vector. */
  lemma {:induction false} EligibleIs(names: seq<string>, backend: seq<Member>, order: map<string, int>, width: nat,
                                        sortBy: SortBy, c: Candidate)
    ensures c in Eligible(names, backend, order, width, sortBy) <==>
      c.service in names && Comes(c, backend, order, width, sortBy)
  {
    if names != [] {
      var n := |names| - 1;
      assert names == names[..n] + [names[n]];
      EligibleIs(names[..n], backend, order, width, sortBy, c);
      OneCandidateIs(names[n], backend, order, width, sortBy, c);
    }
  }

  lemma ElementNames(name: string, j: nat, n: nat)
    ensures name + "/" + Digits(j) == name + "/" + Digits(n) ==> j == n
  {
    assert (name + "/" + Digits(j))[|name| + 1..] == Digits(j);
    assert (name + "/" + Digits(n))[|name| + 1..] == Digits(n);
    assert Decimal(Digits(j)) == j && Decimal(Digits(n)) == n;
  }

  lemma NotThatElement(name: string, base: Features, items: seq<Value>, width: nat, sortBy: SortBy, c: Candidate)
    requires items != [] && c.name == name + "/" + Digits(|items| - 1)
    ensures c !in Elements(name, base, items[..|items| - 1], width, sortBy)
  {
    var n := |items| - 1;
    ElementsAre(name, base, items[..n], width, sortBy, c);
    forall j | 0 <= j < n ensures !FromElement(c, name, base, items[..n], width, sortBy, j) {
      ElementNames(name, j, n);
    }
  }

  /** No element of an array comes up twice. */
  lemma {:induction false} ElementsOnce(name: string, base: Features, items: seq<Value>, width: nat, sortBy: SortBy,
                                        c: Candidate)
    ensures multiset(Elements(name, base, items, width, sortBy))[c] <= 1
  {
    if items != [] {
      ElementsOnce(name, base, items[..|items| - 1], width, sortBy, c);
      if c.name == name + "/" + Digits(|items| - 1) { NotThatElement(name, base, items, width, sortBy, c); }
    }
  }

  lemma OneCount(name: string, backend: seq<Member>, order: map<string, int>, width: nat, sortBy: SortBy, c: Candidate)
    ensures multiset(OneCandidate(name, backend, order, width, sortBy))[c] ==
      if c.service == name && Comes(c, backend, order, width, sortBy) then 1 else 0
  {
    var one := OneCandidate(name, backend, order, width, sortBy);
    OneCandidateIs(name, backend, order, width, sortBy, c);
    OneAtMost(name, backend, order, width, sortBy, c);
    assert c in one <==> multiset(one)[c] > 0;
  }

  /** What comes from a service is there as often as the service is a candidate. */
  lemma {:induction false} EligibleCount(names: seq<string>, backend: seq<Member>, order: map<string, int>, width: nat,
                                         sortBy: SortBy, c: Candidate)
    ensures multiset(Eligible(names, backend, order, width, sortBy))[c] ==
      if Comes(c, backend, order, width, sortBy) then multiset(names)[c.service] else 0
  {
    if names != [] {
      var front, last := names[..|names| - 1], names[|names| - 1];
      EligibleCount(front, backend, order, width, sortBy, c);
      OneCount(last, backend, order, width, sortBy, c);
      SnocCount(names, c.service);
    }
  }

  lemma SnocCount(names: seq<string>, name: string)
    requires names != []
    ensures var front, last := names[..|names| - 1], names[|names| - 1];
      multiset(names)[name] == multiset(front)[name] + if name == last then 1 else 0
  {
    assert names == names[..|names| - 1] + [names[|names| - 1]];
  }

  lemma OneAtMost(name: string, backend: seq<Member>, order: map<string, int>, width: nat, sortBy: SortBy, c: Candidate)
    ensures multiset(OneCandidate(name, backend, order, width, sortBy))[c] <= 1
  {
    if HasMember(backend, name) && Get(backend, name).Array? {
      ElementsOnce(name, Base(order, name), Get(backend, name).items, width, sortBy, c);
    }
  }

  /** The group a name is in: the first `order` entry that lists it. */
  function GroupOf(groups: seq<seq<string>>, name: string): (i: nat)
    ensures i <= |groups| && (i < |groups| ==> name in groups[i])
    ensures forall k :: 0 <= k < i ==> name !in groups[k]
  {
    if groups == [] || name in groups[0] then 0 else 1 + GroupOf(groups[1..], name)
  }

  lemma {:induction false} AddGroupAdds(m: map<string, int>, names: seq<string>, priority: int)
    ensures AddGroup(m, names, priority).Keys == m.Keys + set n | n in names
    ensures forall n :: n in m ==> AddGroup(m, names, priority)[n] == m[n]
    ensures forall n :: n in names && n !in m ==> AddGroup(m, names, priority)[n] == priority
  {
    if names != [] {
      var front := names[..|names| - 1];
      AddGroupAdds(m, front, priority);
      assert names == front + [names[|names| - 1]];
    }
  }

  lemma {:induction false} PriorityIsGroup(groups: seq<seq<string>>, size: nat, name: string)
    ensures name in Priorities(groups, size) <==> GroupOf(groups, name) < |groups|
    ensures name in Priorities(groups, size) ==> Priorities(groups, size)[name] == size - GroupOf(groups, name)
  {
    if groups != [] {
      var n := |groups| - 1;
      PriorityIsGroup(groups[..n], size, name);
      AddGroupAdds(Priorities(groups[..n], size), groups[n], size - n);
    }
  }

  /** The outcome of `RankConfig.Run`, from its configuration. */
  ghost predicate RankOutcome(groups: seq<seq<string>>, sortByDesc: seq<bool>, names: seq<string>, backend: seq<Member>,
                              sortBy: SortBy, desc: seq<bool>, ranked: seq<Candidate>)
  {
    var order := Priorities(groups, |groups|);
    && desc == (if order == map[] then [] else [true]) + sortByDesc
    && multiset(ranked) == multiset(Eligible(names, backend, order, |desc|, sortBy))
    && (WeakOrderOn(Less(desc), set c | c in ranked) ==> SortedBy(Less(desc), ranked))
    && (forall item :: sortBy(item).Some? ==> |sortBy(item).value| == |sortByDesc|)
  }

  /** A rank rule, set up and run; the sort expressions give as many features as there are directions. */
  method RankAll(groups: seq<seq<string>>, sortByDesc: seq<bool>, names: seq<string>, backend: seq<Member>,
                 sortBy: SortBy)
    returns (result: seq<string>, desc: seq<bool>, ranked: seq<Candidate>)
    requires forall item :: sortBy(item).Some? ==> |sortBy(item).value| == |sortByDesc|
    ensures RankOutcome(groups, sortByDesc, names, backend, sortBy, desc, ranked)
    ensures result == Map((c: Candidate) => c.name, ranked)
  {
    var config := new RankConfig();
    config.Init(groups, sortByDesc);
    desc := config.desc;
    result, ranked := config.Run(names, backend, sortBy);
  }

  /** With different candidate names, exactly what comes from them is ranked, each once. */
  lemma RankedOnce(groups: seq<seq<string>>, sortByDesc: seq<bool>, names: seq<string>, backend: seq<Member>,
                   sortBy: SortBy, desc: seq<bool>, ranked: seq<Candidate>, c: Candidate)
    requires RankOutcome(groups, sortByDesc, names, backend, sortBy, desc, ranked)
    requires forall i, j :: 0 <= i < j < |names| ==> names[i] != names[j]
    ensures multiset(ranked)[c] ==
      if c.service in names && Comes(c, backend, Priorities(groups, |groups|), |desc|, sortBy) then 1 else 0
  {
    EligibleCount(names, backend, Priorities(groups, |groups|), |desc|, sortBy, c);
    NamedOnce(names, c.service);
  }

  lemma {:induction false} NamedOnce(names: seq<string>, name: string)
    requires forall i, j :: 0 <= i < j < |names| ==> names[i] != names[j]
    ensures multiset(names)[name] == if name in names then 1 else 0
  {
    if names != [] {
      assert names == [names[0]] + names[1..];
      NamedOnce(names[1..], name);
    }
  }

  lemma {:induction false} DecidesPrecedes(desc: seq<bool>, a: Features, b: Features, k: nat, i: nat)
    requires |a| == |b| == |desc| && DecidesAt(desc, a, b, k) && i <= k
    ensures Precedes(desc, a, b, i) <==> (a[k].value > b[k].value) == desc[k]
    decreases k - i
  {
    if i < k { DecidesPrecedes(desc, a, b, k, i + 1); }
  }

  lemma RankedInOrder(groups: seq<seq<string>>, sortByDesc: seq<bool>, names: seq<string>, backend: seq<Member>,
                      sortBy: SortBy, desc: seq<bool>, ranked: seq<Candidate>, i: nat, j: nat)
    requires RankOutcome(groups, sortByDesc, names, backend, sortBy, desc, ranked)
    requires StoppedAlike(desc, set c | c in ranked) && i < j < |ranked|
    ensures |ranked[i].features| == |ranked[j].features| == |desc| && !Less(desc)(ranked[j], ranked[i])
  {
    var order := Priorities(groups, |groups|);
    forall c | c in ranked ensures |c.features| == |desc| {
      assert c in multiset(ranked);
      EligibleIs(names, backend, order, |desc|, sortBy, c);
    }
    WeakOrderExactly(desc, set c | c in ranked);
  }

  /** Whenever the comparison orders the candidates: in the first column where two ranked candidates
      differ the earlier one has the value that the direction of the column prefers, and unless a common
      null stops them the later one is not lexicographically before the earlier, null counting as zero. */
  lemma {:induction false} RankingIsSorted(groups: seq<seq<string>>, sortByDesc: seq<bool>, names: seq<string>,
                                           backend: seq<Member>, sortBy: SortBy, desc: seq<bool>,
                                           ranked: seq<Candidate>, i: nat, j: nat)
    requires RankOutcome(groups, sortByDesc, names, backend, sortBy, desc, ranked)
    requires StoppedAlike(desc, set c | c in ranked) && i < j < |ranked|
    ensures |ranked[i].features| == |ranked[j].features| == |desc|
    ensures forall k :: 0 <= k < |desc| && DecidesAt(desc, ranked[i].features, ranked[j].features, k) ==>
      (ranked[i].features[k].value > ranked[j].features[k].value) == desc[k]
    ensures !Stopped(ranked[i], ranked[j]) ==> !Lexical(desc, ranked[j].features, ranked[i].features, 0)
  {
    var a, b := ranked[i], ranked[j];
    RankedInOrder(groups, sortByDesc, names, backend, sortBy, desc, ranked, i, j);
    LessIs(desc, b, a);
    forall k | 0 <= k < |desc| && DecidesAt(desc, a.features, b.features, k)
      ensures (a.features[k].value > b.features[k].value) == desc[k]
    {
      assert DecidesAt(desc, b.features, a.features, k);
      DecidesPrecedes(desc, b.features, a.features, k, 0);
    }
  }

  /** An earlier `order` entry always comes first, whatever the sort expressions say. */
  lemma {:induction false} OrderGroupsComeFirst(groups: seq<seq<string>>, sortByDesc: seq<bool>, names: seq<string>,
                                                backend: seq<Member>, sortBy: SortBy, desc: seq<bool>,
                                                ranked: seq<Candidate>, i: nat, j: nat)
    requires RankOutcome(groups, sortByDesc, names, backend, sortBy, desc, ranked)
    requires Priorities(groups, |groups|) != map[]
    requires StoppedAlike(desc, set c | c in ranked) && i < j < |ranked|
    ensures GroupOf(groups, ranked[i].service) <= GroupOf(groups, ranked[j].service) < |groups|
  {
    var order, a, b := Priorities(groups, |groups|), ranked[i], ranked[j];
    assert a in multiset(ranked) && b in multiset(ranked);
    EligibleIs(names, backend, order, |desc|, sortBy, a);
    EligibleIs(names, backend, order, |desc|, sortBy, b);
    FirstColumn(groups, a.service, a.features, sortBy(a.item).value);
    FirstColumn(groups, b.service, b.features, sortBy(b.item).value);
    RankedInOrder(groups, sortByDesc, names, backend, sortBy, desc, ranked, i, j);
  }

  /** With `order` entries the first feature is the priority of the group. */
  lemma FirstColumn(groups: seq<seq<string>>, service: string, features: Features, sorted: Features)
    requires features == Base(Priorities(groups, |groups|), service) + sorted && |features| == 1 + |sorted|
    ensures GroupOf(groups, service) < |groups|
    ensures features[0] == Some((|groups| - GroupOf(groups, service)) as real)
  {
    PriorityIsGroup(groups, |groups|, service);
  }

  // ---- names in the result ----

  predicate PlainName(name: string) {
    name != "" && Verbatim(name)
  }

  lemma OneToken(name: string)
    requires PlainName(name)
    ensures Tokens(name) == Some([name])
  {
    VerbatimTokens(name, "");
    assert Normalized(name) == "/" + name && ("/" + name)[1..] == name;
    AllUnescaped([name]);
  }

  lemma TwoTokens(name: string, rest: string)
    requires PlainName(name) && PlainName(rest)
    ensures Tokens(name + "/" + rest) == Some([name, rest])
  {
    var path := name + "/" + rest;
    VerbatimTokens(name, rest);
    VerbatimTokens(rest, "");
    assert Normalized(path) == "/" + path && ("/" + path)[1..] == path;
    assert Split(path) == [name, rest];
    AllUnescaped([name, rest]);
  }

  /** Reading a ranked name as a path in the backend map gives exactly the item that was ranked. */
  lemma {:induction false} RankedNameResolves(names: seq<string>, backend: seq<Member>, order: map<string, int>, width: nat,
                           sortBy: SortBy, c: Candidate)
    requires c in Eligible(names, backend, order, width, sortBy)
    requires PlainName(c.service)
    requires forall m :: m in backend && m.value.Array? ==> |m.value.items| <= INVALID_INDEX
    ensures GetByPath(Object(backend), c.name) == Some(c.item)
  {
    EligibleIs(names, backend, order, width, sortBy, c);
    var item := Get(backend, c.service);
    assert backend[Position(backend, c.service)] in backend;
    if item.Array? {
      var j :| 0 <= j < |item.items| && IsElement(c, item.items, j);
      TwoTokens(c.service, Digits(j));
      IndexOfDigits(j);
      TwoStepGet(backend, c.service, Digits(j));
    } else {
      OneToken(c.service);
      OneStepGet(backend, c.service);
    }
  }

  lemma OneStepGet(backend: seq<Member>, name: string)
    requires HasMember(backend, name)
    ensures GetAt(Object(backend), [name]) == Some(Get(backend, name))
  {
    assert [name][1..] == [];
  }

  lemma TwoStepGet(backend: seq<Member>, name: string, index: string)
    requires HasMember(backend, name) && Get(backend, name).Array?
    requires Index(index).Some? && Index(index).value < |Get(backend, name).items|
    ensures GetAt(Object(backend), [name, index]) == Some(Get(backend, name).items[Index(index).value])
  {
    var item := Get(backend, name);
    assert [name, index][1..] == [index] && [index][1..] == [];
    assert GetAt(item, [index]) == GetAt(item.items[Index(index).value], []);
    assert GetAt(Object(backend), [name, index]) == GetAt(item, [index]);
  }
}
