/** The array operators `-`, `|` and `&`, computed with a hash set of encoded elements. */
module SetOps {
  import opened Json
  import opened Seqs

  type Encoding = Value -> string

  function Codes(xs: seq<Value>, enc: Encoding): set<string> {
    set x | x in xs :: enc(x)
  }

  /** The elements whose code is neither in `seen` nor the code of an earlier element. */
  function Fresh(xs: seq<Value>, seen: set<string>, enc: Encoding): seq<Value> {
    if xs == [] then []
    else
      var front, x := xs[..|xs| - 1], xs[|xs| - 1];
      Fresh(front, seen, enc) + if enc(x) in seen + Codes(front, enc) then [] else [x]
  }

  /** The other elements. */
  function Repeats(xs: seq<Value>, seen: set<string>, enc: Encoding): seq<Value> {
    if xs == [] then []
    else
      var front, x := xs[..|xs| - 1], xs[|xs| - 1];
      Repeats(front, seen, enc) + if enc(x) in seen + Codes(front, enc) then [x] else []
  }

  lemma CodesConcat(xs: seq<Value>, ys: seq<Value>, enc: Encoding)
    ensures Codes(xs + ys, enc) == Codes(xs, enc) + Codes(ys, enc)
  {
    forall x | x in xs || x in ys ensures x in xs + ys {}
  }

  lemma CodesSnoc(xs: seq<Value>, x: Value, enc: Encoding)
    ensures Codes(xs + [x], enc) == Codes(xs, enc) + {enc(x)}
  {
    CodesConcat(xs, [x], enc);
    assert x in [x];
  }

  lemma Snoc(xs: seq<Value>, i: nat, enc: Encoding)
    requires i < |xs|
    ensures xs[..i + 1][..i] == xs[..i] && xs[..i + 1][i] == xs[i]
    ensures Codes(xs[..i + 1], enc) == Codes(xs[..i], enc) + {enc(xs[i])}
  {
    assert xs[..i + 1] == xs[..i] + [xs[i]];
    CodesSnoc(xs[..i], xs[i], enc);
  }

  lemma TakeOne(xs: seq<Value>, i: nat, seen: set<string>, enc: Encoding)
    requires i < |xs|
    ensures var isNew := enc(xs[i]) !in seen + Codes(xs[..i], enc);
      && Fresh(xs[..i + 1], seen, enc) == Fresh(xs[..i], seen, enc) + (if isNew then [xs[i]] else [])
      && Repeats(xs[..i + 1], seen, enc) == Repeats(xs[..i], seen, enc) + (if isNew then [] else [xs[i]])
  {
    Snoc(xs, i, enc);
  }

  method Difference(l: seq<Value>, r: seq<Value>, enc: Encoding) returns (value: seq<Value>)
    ensures value == Fresh(l, Codes(r, enc), enc)
  {
    value := [];
    var hash := {};
    for i := 0 to |r|
      invariant hash == Codes(r[..i], enc)
    {
      Snoc(r, i, enc);
      hash := hash + {enc(r[i])};
    }
    assert r[..|r|] == r;
    for i := 0 to |l|
      invariant hash == Codes(r, enc) + Codes(l[..i], enc)
      invariant value == Fresh(l[..i], Codes(r, enc), enc)
    {
      Snoc(l, i, enc);
      TakeOne(l, i, Codes(r, enc), enc);
      if enc(l[i]) !in hash {
        value := value + [l[i]];
      }
      hash := hash + {enc(l[i])};
    }
    assert l[..|l|] == l;
  }

  /** What one of the two operators takes from the right operand. */
  function Taken(union: bool, xs: seq<Value>, seen: set<string>, enc: Encoding): seq<Value> {
    if union then Fresh(xs, seen, enc) else Repeats(xs, seen, enc)
  }

  lemma TakeNext(base: seq<Value>, union: bool, xs: seq<Value>, i: nat, seen: set<string>, enc: Encoding)
    requires i < |xs|
    ensures base + Taken(union, xs[..i + 1], seen, enc) ==
      base + Taken(union, xs[..i], seen, enc) +
      if (enc(xs[i]) !in seen + Codes(xs[..i], enc)) == union then [xs[i]] else []
  {
    var now := if (enc(xs[i]) !in seen + Codes(xs[..i], enc)) == union then [xs[i]] else [];
    TakeOne(xs, i, seen, enc);
    Assoc(base, Taken(union, xs[..i], seen, enc), now);
  }

  lemma SeenNext(seen: set<string>, xs: seq<Value>, i: nat, enc: Encoding)
    requires i < |xs|
    ensures seen + Codes(xs[..i + 1], enc) == seen + Codes(xs[..i], enc) + {enc(xs[i])}
  {
    Snoc(xs, i, enc);
  }

  /** The operators `|` (`union`) and `&`, which share one pair of loops. */
  method PipeOrAmp(union: bool, l: seq<Value>, r: seq<Value>, enc: Encoding) returns (value: seq<Value>)
    ensures union ==> value == Fresh(l, {}, enc) + Fresh(r, Codes(l, enc), enc)
    ensures !union ==> value == Repeats(r, Codes(l, enc), enc)
  {
    value := [];
    var hash := {};
    for i := 0 to |l|
      invariant hash == Codes(l[..i], enc)
      invariant value == if union then Fresh(l[..i], {}, enc) else []
    {
      Snoc(l, i, enc);
      TakeOne(l, i, {}, enc);
      if enc(l[i]) !in hash && union {
        value := value + [l[i]];
      }
      hash := hash + {enc(l[i])};
    }
    assert l[..|l|] == l;
    ghost var base, seen := value, hash;
    for i := 0 to |r|
      invariant hash == seen + Codes(r[..i], enc)
      invariant value == base + Taken(union, r[..i], seen, enc)
    {
      SeenNext(seen, r, i, enc);
      TakeNext(base, union, r, i, seen, enc);
      if (enc(r[i]) !in hash) == union {
        value := value + [r[i]];
      }
      hash := hash + {enc(r[i])};
    }
    assert r[..|r|] == r;
  }

  // ---- what the operators mean ----

  predicate Distinct(xs: seq<Value>, enc: Encoding) {
    forall i, j :: 0 <= i < j < |xs| ==> enc(xs[i]) != enc(xs[j])
  }

  /** The codes of elements that repeat an earlier one. */
  function Repeated(xs: seq<Value>, enc: Encoding): set<string> {
    set i, j | 0 <= i < j < |xs| && enc(xs[i]) == enc(xs[j]) :: enc(xs[j])
  }

  lemma {:induction false} FreshCodes(xs: seq<Value>, seen: set<string>, enc: Encoding)
    ensures Codes(Fresh(xs, seen, enc), enc) == Codes(xs, enc) - seen
  {
    if xs != [] {
      var n := |xs| - 1;
      var f := Fresh(xs[..n], seen, enc);
      FreshCodes(xs[..n], seen, enc);
      Snoc(xs, n, enc);
      assert xs[..n + 1] == xs;
      if enc(xs[n]) !in seen + Codes(xs[..n], enc) {
        CodesSnoc(f, xs[n], enc);
        assert Fresh(xs, seen, enc) == f + [xs[n]];
      } else {
        assert Fresh(xs, seen, enc) == f;
      }
    }
  }

  lemma {:induction false} FreshDistinct(xs: seq<Value>, seen: set<string>, enc: Encoding)
    ensures Distinct(Fresh(xs, seen, enc), enc)
  {
    if xs != [] {
      var front := xs[..|xs| - 1];
      var f := Fresh(front, seen, enc);
      FreshDistinct(front, seen, enc);
      FreshCodes(front, seen, enc);
      assert forall i :: 0 <= i < |f| ==> enc(f[i]) in Codes(f, enc);
    }
  }

  lemma {:induction false} RepeatsCodes(xs: seq<Value>, seen: set<string>, enc: Encoding)
    ensures Codes(Repeats(xs, seen, enc), enc) == Codes(xs, enc) * seen + Repeated(xs, enc)
  {
    if xs != [] {
      var front, x := xs[..|xs| - 1], xs[|xs| - 1];
      assert xs == front + [x];
      RepeatsCodes(front, seen, enc);
      CodesSnoc(front, x, enc);
      RepeatedSnoc(front, x, enc);
      if enc(x) in seen + Codes(front, enc) {
        CodesSnoc(Repeats(front, seen, enc), x, enc);
        assert Repeats(xs, seen, enc) == Repeats(front, seen, enc) + [x];
      } else {
        assert Repeats(xs, seen, enc) == Repeats(front, seen, enc);
      }
    }
  }

  lemma RepeatedSnoc(xs: seq<Value>, x: Value, enc: Encoding)
    ensures Repeated(xs + [x], enc) == Repeated(xs, enc) + (if enc(x) in Codes(xs, enc) then {enc(x)} else {})
  {
    var ys := xs + [x];
    if y :| y in xs && enc(y) == enc(x) {
      var i :| 0 <= i < |xs| && xs[i] == y;
      assert enc(ys[i]) == enc(ys[|xs|]);
    }
    forall c | c in Repeated(xs, enc) ensures c in Repeated(ys, enc) {
      var i, j :| 0 <= i < j < |xs| && enc(xs[i]) == enc(xs[j]) && enc(xs[j]) == c;
      assert enc(ys[i]) == enc(ys[j]) && enc(ys[j]) == c;
    }
  }

  /** The union has every code once, in the order of first occurrence in the operands one after the other. */
  lemma UnionMeaning(l: seq<Value>, r: seq<Value>, enc: Encoding)
    ensures Fresh(l, {}, enc) + Fresh(r, Codes(l, enc), enc) == Fresh(l + r, {}, enc)
    ensures Codes(Fresh(l + r, {}, enc), enc) == Codes(l, enc) + Codes(r, enc)
    ensures Distinct(Fresh(l + r, {}, enc), enc)
  {
    FreshCodes(l + r, {}, enc);
    FreshDistinct(l + r, {}, enc);
    CodesConcat(l, r, enc);
    TakenConcat(true, l, r, {}, enc);
    assert {} + Codes(l, enc) == Codes(l, enc);
  }

  function TakenLast(union: bool, xs: seq<Value>, x: Value, seen: set<string>, enc: Encoding): seq<Value> {
    if (enc(x) !in seen + Codes(xs, enc)) == union then [x] else []
  }

  lemma TakenSnoc(union: bool, xs: seq<Value>, x: Value, seen: set<string>, enc: Encoding)
    ensures Taken(union, xs + [x], seen, enc) == Taken(union, xs, seen, enc) + TakenLast(union, xs, x, seen, enc)
  {
    assert (xs + [x])[..|xs|] == xs;
  }

  lemma SeenConcat(seen: set<string>, l: seq<Value>, r: seq<Value>, enc: Encoding)
    ensures seen + Codes(l + r, enc) == seen + Codes(l, enc) + Codes(r, enc)
  {
    CodesConcat(l, r, enc);
  }

  /** What is taken from two lists one after the other: first from the one, then, with its codes seen,
      from the other. */
  lemma {:induction false} TakenConcat(union: bool, l: seq<Value>, r: seq<Value>, seen: set<string>, enc: Encoding)
    ensures Taken(union, l + r, seen, enc) == Taken(union, l, seen, enc) + Taken(union, r, seen + Codes(l, enc), enc)
    decreases |r|
  {
    if r == [] {
      assert l + r == l;
    } else {
      var front, x, seen' := r[..|r| - 1], r[|r| - 1], seen + Codes(l, enc);
      assert r == front + [x];
      Assoc(l, front, [x]);
      SeenConcat(seen, l, front, enc);
      calc {
        Taken(union, l + r, seen, enc);
        { TakenSnoc(union, l + front, x, seen, enc); }
        Taken(union, l + front, seen, enc) + TakenLast(union, front, x, seen', enc);
        { TakenConcat(union, l, front, seen, enc); }
        Taken(union, l, seen, enc) + Taken(union, front, seen', enc) + TakenLast(union, front, x, seen', enc);
        { Assoc(Taken(union, l, seen, enc), Taken(union, front, seen', enc), TakenLast(union, front, x, seen', enc)); }
        Taken(union, l, seen, enc) + (Taken(union, front, seen', enc) + TakenLast(union, front, x, seen', enc));
        { TakenSnoc(union, front, x, seen', enc); }
        Taken(union, l, seen, enc) + Taken(union, r, seen', enc);
      }
    }
  }

  /** Whether the element at `i` is taken depends on the elements before it alone, and what is taken
      keeps the order of the list. */
  lemma TakenAt(union: bool, xs: seq<Value>, seen: set<string>, enc: Encoding, i: nat)
    requires i < |xs|
    ensures var isNew := enc(xs[i]) !in seen + Codes(xs[..i], enc);
      Taken(union, xs, seen, enc) ==
        Taken(union, xs[..i], seen, enc) + (if isNew == union then [xs[i]] else []) +
        Taken(union, xs[i + 1..], seen + Codes(xs[..i + 1], enc), enc)
  {
    assert xs[..i + 1] + xs[i + 1..] == xs && xs[..i + 1] == xs[..i] + [xs[i]];
    TakenConcat(union, xs[..i + 1], xs[i + 1..], seen, enc);
    TakenSnoc(union, xs[..i], xs[i], seen, enc);
  }

  /** The codes of `l & r` are the common ones exactly when every code repeated in `r` is also in `l`;
      under the same condition `l - r` and `l & r` split the codes of `l` in two. */
  lemma {:induction false} IntersectionMeaning(l: seq<Value>, r: seq<Value>, enc: Encoding)
    ensures var both, rest := Codes(Repeats(r, Codes(l, enc), enc), enc), Codes(Fresh(l, Codes(r, enc), enc), enc);
      && (both == Codes(l, enc) * Codes(r, enc) <==> Repeated(r, enc) <= Codes(l, enc))
      && (both + rest == Codes(l, enc) && both !! rest <==> Repeated(r, enc) <= Codes(l, enc))
      && rest == Codes(l, enc) - Codes(r, enc)
      && Distinct(Fresh(l, Codes(r, enc), enc), enc)
  {
    RepeatsCodes(r, Codes(l, enc), enc);
    FreshCodes(l, Codes(r, enc), enc);
    FreshDistinct(l, Codes(r, enc), enc);
    assert Repeated(r, enc) <= Codes(r, enc);
  }

  /** Each right operand element goes to exactly one of the two operators. */
  lemma {:induction false} FreshAndRepeatsPartition(xs: seq<Value>, seen: set<string>, enc: Encoding)
    ensures multiset(Fresh(xs, seen, enc)) + multiset(Repeats(xs, seen, enc)) == multiset(xs)
  {
    if xs != [] {
      assert xs == xs[..|xs| - 1] + [xs[|xs| - 1]];
      FreshAndRepeatsPartition(xs[..|xs| - 1], seen, enc);
    }
  }
}
