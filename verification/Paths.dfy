/** What a write leaves of the rest of a document: members and elements, and what a name does to an array. */
module Paths {
  import opened Json
  import opened Options
  import opened Pointer

  predicate NoDash(path: seq<string>) {
    forall i :: 0 <= i < |path| ==> path[i] != "-"
  }

  /** Two tokens are the same, or refer to different members and elements. */
  predicate Told(t: string, u: string) {
    t == u || Index(t).None? || Index(t) != Index(u)
  }

  predicate AllTold(p: seq<string>, q: seq<string>) {
    forall i :: 0 <= i < |p| && i < |q| ==> Told(p[i], q[i])
  }

  /** The member or element that one token refers to. */
  function Sub(v: Value, token: string): (r: Option<Value>)
  {
    match v
    case Object(ms) => if HasMember(ms, token) then Some(Get(ms, token)) else None
    case Array(items) =>
      var i := Index(token);
      if i.Some? && i.value < |items| then Some(items[i.value]) else None
    case _ => None
  }

  function SubOrNull(v: Value, token: string): Value {
    if Sub(v, token).Some? then Sub(v, token).value else Null
  }

  function AtOrNull(v: Value, path: seq<string>): Value {
    if GetAt(v, path).Some? then GetAt(v, path).value else Null
  }

  lemma GetBySub(v: Value, path: seq<string>)
    requires path != []
    ensures GetAt(v, path) == if Sub(v, path[0]).Some? then GetAt(Sub(v, path[0]).value, path[1..]) else None
  {
  }

  lemma {:induction false} GetSum(v: Value, p: seq<string>, q: seq<string>)
    ensures GetAt(v, p + q) == if GetAt(v, p).Some? then GetAt(GetAt(v, p).value, q) else None
  {
    if p == [] {
      assert p + q == q;
    } else {
      assert (p + q)[0] == p[0] && (p + q)[1..] == p[1..] + q;
      GetBySub(v, p + q);
      GetBySub(v, p);
      if Sub(v, p[0]).Some? { GetSum(Sub(v, p[0]).value, p[1..], q); }
    }
  }

  lemma MemberSet(ms: seq<Member>, t: string, x: Value, u: string)
    ensures var v := Object(if HasMember(ms, t) then AssignMember(ms, t, x) else AddMember(ms, t, x));
      Sub(v, u) == if u == t then Some(x) else Sub(Object(ms), u)
  {
    var ms' := if HasMember(ms, t) then AssignMember(ms, t, x) else AddMember(ms, t, x);
    assert |ms| <= |ms'|;
    if u == t {
      PositionIs(ms', t, Position(ms, t));
    } else if HasMember(ms, u) {
      PositionIs(ms', u, Position(ms, u));
    } else {
      assert forall i :: 0 <= i < |ms'| ==> ms'[i].name != u;
    }
  }

  /** Writing `w` over `v` one level down, at `t`, by a value `x` there: the written token, and any other. A name
      turns an array into an object, and an index can fill up an array with nulls. */
  ghost predicate OneSet(v: Value, w: Value, t: string, x: Value, u: string) {
    && Sub(w, t) == Some(x)
    && (u != t && Sub(v, u).None? ==> Sub(w, u) == None || (Sub(w, u) == Some(Null) && Index(u).Some?))
    && (u != t && Sub(v, u).Some? ==> Sub(w, u) == if v.Array? && Index(t).None? then None else Sub(v, u))
    && (u != t && v.Array? && Index(t).None? ==> Sub(w, u) == None)
    && (Index(t).None? || v.Object? ==> w.Object?)
    && (Index(t).Some? && !v.Object? ==> w.Array?)
  }

  lemma SetOne(v: Value, path: seq<string>, x: Value, u: string)
    requires path != [] && path[0] != "-"
    requires Told(u, path[0])
    ensures OneSet(v, SetAt(v, path, x), path[0], SetAt(SubOrNull(v, path[0]), path[1..], x), u)
  {
    var t, c := path[0], Container(v, path[0]);
    var y := SetAt(SubOrNull(v, t), path[1..], x);
    if c.Object? {
      MemberOne(v, c.members, t, y, u);
    } else {
      ItemOne(v, t, Index(t).value, y, u);
    }
  }

  lemma MemberOne(v: Value, ms: seq<Member>, t: string, y: Value, u: string)
    requires Container(v, t) == Object(ms)
    ensures OneSet(v, Object(if HasMember(ms, t) then AssignMember(ms, t, y) else AddMember(ms, t, y)), t, y, u)
  {
    MemberSet(ms, t, y, t);
    MemberSet(ms, t, y, u);
  }

  lemma ItemOne(v: Value, t: string, i: nat, y: Value, u: string)
    requires !v.Object? && Index(t) == Some(i) && Told(u, t)
    ensures OneSet(v, Array(Padded(if v.Array? then v.items else [], i + 1)[i := y]), t, y, u)
  {
    ItemSet(if v.Array? then v.items else [], t, i, y, u);
  }

  lemma ItemSet(items: seq<Value>, t: string, i: nat, x: Value, u: string)
    requires Index(t) == Some(i) && Told(u, t)
    ensures var w := Array(Padded(items, i + 1)[i := x]);
      && Sub(w, t) == Some(x)
      && (u != t ==> Sub(w, u) == Sub(Array(Padded(items, i + 1)), u))
      && (u != t && Sub(Array(items), u).Some? ==> Sub(w, u) == Sub(Array(items), u))
      && (u != t && Sub(Array(items), u).None? ==> Sub(w, u) == None || (Sub(w, u) == Some(Null) && Index(u).Some?))
  {
  }

  /** At and above the written path. */
  lemma {:induction false} SetReads(v: Value, q: seq<string>, x: Value, p: seq<string>)
    requires NoDash(q) && p <= q
    ensures GetAt(SetAt(v, q, x), p) == Some(SetAt(AtOrNull(v, p), q[|p|..], x))
    decreases |p|
  {
    if p == [] {
      assert q[|p|..] == q;
    } else {
      PrefixTail(p, q);
      SetOne(v, q, x, q[0]);
      SetReads(SubOrNull(v, q[0]), q[1..], x, p[1..]);
      GetBySub(SetAt(v, q, x), p);
      GetBySub(v, p);
      assert q[1..][|p[1..]|..] == q[|p|..];
      NullHasNone(p[1..]);
    }
  }

  lemma NullHasNone(p: seq<string>)
    ensures AtOrNull(Null, p) == Null
  {
  }

  /** The number of leading tokens that two paths share. */
  function Fork(p: seq<string>, q: seq<string>): (n: nat)
    ensures n <= |p| && n <= |q| && p[..n] == q[..n]
    ensures n < |p| && n < |q| ==> p[n] != q[n]
  {
    if p == [] || q == [] || p[0] != q[0] then 0
    else
      var n := Fork(p[1..], q[1..]);
      assert p[..n + 1] == [p[0]] + p[1..][..n] && q[..n + 1] == [q[0]] + q[1..][..n];
      n + 1
  }

  lemma ForkApart(p: seq<string>, q: seq<string>)
    requires Apart(p, q)
    ensures Fork(p, q) < |p| && Fork(p, q) < |q|
  {
    assert p[..|p|] == p && q[..|q|] == q;
  }

  /** The write makes an object of the array through which `p` goes. */
  ghost predicate Wipes(v: Value, q: seq<string>, p: seq<string>) {
    && Fork(p, q) < |q| && Index(q[Fork(p, q)]).None?
    && GetAt(v, p[..Fork(p, q)]).Some? && GetAt(v, p[..Fork(p, q)]).value.Array?
  }

  /** A value beside the written path stays as it is or is lost with the array that holds it, and nothing but
      null appears. */
  ghost predicate Beside(v: Value, q: seq<string>, x: Value, p: seq<string>) {
    var before, after := GetAt(v, p), GetAt(SetAt(v, q, x), p);
    && (before.Some? ==> after == if Wipes(v, q, p) then None else before)
    && (before.None? ==> after == None || (after == Some(Null) && p != [] && Index(p[|p| - 1]).Some?))
  }

  lemma {:induction false} SetBeside(v: Value, q: seq<string>, x: Value, p: seq<string>)
    requires NoDash(q) && Apart(p, q) && AllTold(p, q)
    ensures Beside(v, q, x, p)
    decreases |p|
  {
    if p[0] == q[0] {
      PrefixTail(p, q);
      PrefixTail(q, p);
      TailsTold(p, q);
      SetBeside(SubOrNull(v, q[0]), q[1..], x, p[1..]);
      BesideBelow(v, q, x, p);
    } else {
      BesideHere(v, q, x, p);
    }
  }

  lemma TailsTold(p: seq<string>, q: seq<string>)
    requires p != [] && q != [] && AllTold(p, q) && NoDash(q)
    ensures AllTold(p[1..], q[1..]) && NoDash(q[1..])
  {
    forall i | 0 <= i < |p| - 1 && i < |q| - 1 ensures Told(p[1..][i], q[1..][i]) { assert Told(p[i + 1], q[i + 1]); }
  }

  lemma BesideHere(v: Value, q: seq<string>, x: Value, p: seq<string>)
    requires p != [] && q != [] && q[0] != "-" && p[0] != q[0] && Told(p[0], q[0])
    ensures Beside(v, q, x, p)
  {
    SetOne(v, q, x, p[0]);
    GetBySub(SetAt(v, q, x), p);
    GetBySub(v, p);
    WipesHere(v, q, p);
    AtOrNone(p[1..]);
  }

  lemma BesideBelow(v: Value, q: seq<string>, x: Value, p: seq<string>)
    requires p != [] && q != [] && q[0] != "-" && p[0] == q[0] && p[1..] != []
    requires Beside(SubOrNull(v, q[0]), q[1..], x, p[1..])
    ensures Beside(v, q, x, p)
  {
    SetOne(v, q, x, q[0]);
    GetBySub(SetAt(v, q, x), p);
    GetBySub(v, p);
    if Sub(v, q[0]).Some? { WipesBelow(v, q, p); }
    AtOrNone(p[1..]);
  }

  lemma WipesHere(v: Value, q: seq<string>, p: seq<string>)
    requires p != [] && q != [] && p[0] != q[0]
    ensures Wipes(v, q, p) <==> Index(q[0]).None? && v.Array?
  {
    assert p[..0] == [];
  }

  lemma AtOrNone(p: seq<string>)
    ensures GetAt(Null, p) == if p == [] then Some(Null) else None
  {
  }

  lemma WipesBelow(v: Value, q: seq<string>, p: seq<string>)
    requires p != [] && q != [] && p[0] == q[0] && Sub(v, p[0]).Some?
    ensures Wipes(v, q, p) <==> Wipes(Sub(v, p[0]).value, q[1..], p[1..])
  {
    var n := Fork(p[1..], q[1..]);
    assert p[..n + 1][1..] == p[1..][..n] && p[..n + 1][0] == p[0];
    GetBySub(v, p[..n + 1]);
  }
}
