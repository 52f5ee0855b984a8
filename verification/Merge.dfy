/** `merge_json_objects`: the recursive deep merge that joins configuration, backend maps and outputs. */
module Merge {
  import opened Json
  import opened Options

  /** A mutable place that holds a JSON value, as a reference to a rapidjson value does. */
  class Slot {
    var value: Value

    constructor (v: Value)
      ensures value == v
    {
      value := v;
    }
  }

  /** The member list left by merging the members `from`, in order, into `to`. */
  function Merged(to: seq<Member>, from: seq<Member>): seq<Member>
    decreases from
  {
    if from == [] then to else Merged(MergedOne(to, from[0]), from[1..])
  }

  function MergedOne(to: seq<Member>, m: Member): seq<Member>
    decreases m
  {
    if !HasMember(to, m.name) then
      AddMember(to, m.name, m.value)
    else if Get(to, m.name).Object? && m.value.Object? then
      AssignMember(to, m.name, Object(Merged(Get(to, m.name).members, m.value.members)))
    else
      AddMember(EraseMember(to, m.name), m.name, m.value)
  }

  lemma {:induction false} MergedSnoc(to: seq<Member>, from: seq<Member>, m: Member)
    ensures Merged(to, from + [m]) == MergedOne(Merged(to, from), m)
    decreases |from|
  {
    if from == [] {
      assert from + [m] == [m];
    } else {
      assert (from + [m])[1..] == from[1..] + [m];
      MergedSnoc(MergedOne(to, from[0]), from[1..], m);
    }
  }

  /** A member that is replaced goes to the end; one that is merged keeps its place. */
  lemma WhereMembersGo(x: Value, y: Value, z: Value)
    ensures Merged([Member("a", x), Member("b", y)], [Member("a", z)]) ==
      if x.Object? && z.Object? then [Member("a", Object(Merged(x.members, z.members))), Member("b", y)]
      else [Member("b", y), Member("a", z)]
  {
    var to, from := [Member("a", x), Member("b", y)], [Member("a", z)];
    assert Position(to, "a") == 0 && from[1..] == [];
    assert Merged(to, from) == Merged(MergedOne(to, from[0]), []);
    assert EraseMember(to, "a") == [Member("b", y)];
  }

  method MergeJsonObjects(to: Slot, from: Value) returns (ret: int)
    modifies to
    ensures ret == if old(to.value).Object? && from.Object? then 0 else -1
    ensures ret == 0 ==> to.value == Object(Merged(old(to.value).members, from.members))
    ensures ret != 0 ==> to.value == old(to.value)
    decreases from
  {
    if !to.value.Object? || !from.Object? {
      return -1;
    }
    ghost var before := to.value.members;
    for i := 0 to |from.members|
      invariant to.value == Object(Merged(before, from.members[..i]))
    {
      var key, value := from.members[i].name, from.members[i].value;
      assert from.members[..i + 1] == from.members[..i] + [from.members[i]];
      MergedSnoc(before, from.members[..i], from.members[i]);
      var members := to.value.members;
      if HasMember(members, key) {
        if Get(members, key).Object? && value.Object? {
          var inner := new Slot(Get(members, key));
          var _ := MergeJsonObjects(inner, value);
          to.value := Object(AssignMember(members, key, inner.value));
        } else {
          to.value := Object(AddMember(EraseMember(members, key), key, value));
        }
      } else {
        to.value := Object(AddMember(members, key, value));
      }
    }
    assert from.members[..|from.members|] == from.members;
    return 0;
  }

  // ---- the same operation on trees, where the order of members is forgotten ----

  ghost function MergeTree(a: Tree, b: Tree): Tree
    decreases b
  {
    if a.Node? && b.Node? then
      Node(map k | k in a.m.Keys + b.m.Keys ::
             if k !in b.m then a.m[k] else if k in a.m then MergeTree(a.m[k], b.m[k]) else b.m[k])
    else b
  }

  ghost function MergeMap(a: map<string, Tree>, b: map<string, Tree>): (r: map<string, Tree>)
    ensures r.Keys == a.Keys + b.Keys
    ensures forall k :: k in b && k in a ==> r[k] == MergeTree(a[k], b[k])
    ensures forall k :: k in b && k !in a ==> r[k] == b[k]
    ensures forall k :: k !in b && k in a ==> r[k] == a[k]
  {
    MergeTree(Node(a), Node(b)).m
  }

  lemma MergeMapOne(a: map<string, Tree>, name: string, t: Tree)
    ensures MergeMap(a, map[name := t]) == a[name := if name in a then MergeTree(a[name], t) else t]
  {
  }

  lemma {:induction false} MergeOneView(to: seq<Member>, m: Member)
    requires DupFreeMembers(to) && DupFree(m.value)
    ensures DupFreeMembers(MergedOne(to, m))
    ensures ViewMembers(MergedOne(to, m)) == MergeMap(ViewMembers(to), map[m.name := View(m.value)])
    decreases m
  {
    ViewLookup(to, m.name);
    MergeMapOne(ViewMembers(to), m.name, View(m.value));
    if !HasMember(to, m.name) {
      ViewAdd(to, m.name, m.value);
      DupFreeAdd(to, m.name, m.value);
    } else if Get(to, m.name).Object? && m.value.Object? {
      MergeNested(to, m);
    } else {
      MergeReplaced(to, m);
    }
  }

  lemma MergeReplaced(to: seq<Member>, m: Member)
    requires DupFreeMembers(to) && DupFree(m.value) && HasMember(to, m.name)
    ensures var r := AddMember(EraseMember(to, m.name), m.name, m.value);
      DupFreeMembers(r) && ViewMembers(r) == ViewMembers(to)[m.name := View(m.value)]
  {
    var kept := EraseMember(to, m.name);
    ViewErase(to, m.name);
    LookupErase(to, m.name, m.name);
    ViewAdd(kept, m.name, m.value);
    DupFreeAdd(kept, m.name, m.value);
  }

  lemma {:induction false} MergeNested(to: seq<Member>, m: Member)
    requires DupFreeMembers(to) && DupFree(m.value)
    requires HasMember(to, m.name) && Get(to, m.name).Object? && m.value.Object?
    ensures DupFreeMembers(MergedOne(to, m))
    ensures ViewMembers(MergedOne(to, m)) ==
            ViewMembers(to)[m.name := MergeTree(View(Get(to, m.name)), View(m.value))]
    decreases m, 0
  {
    var inner := Get(to, m.name).members;
    MergeView(inner, m.value.members);
    ViewAssign(to, m.name, Object(Merged(inner, m.value.members)));
  }

  /** Merging one member and then the rest, on maps. */
  lemma MergeMapFirst(a: map<string, Tree>, name: string, t: Tree, rest: map<string, Tree>)
    requires name !in rest
    ensures MergeMap(MergeMap(a, map[name := t]), rest) == MergeMap(a, rest[name := t])
  {
    var l, r := MergeMap(MergeMap(a, map[name := t]), rest), MergeMap(a, rest[name := t]);
    assert l.Keys == r.Keys;
    forall k | k in l ensures l[k] == r[k] {}
  }

  /** The list operation computes the tree operation, and keeps names unique. */
  lemma {:induction false} MergeView(to: seq<Member>, from: seq<Member>)
    requires DupFreeMembers(to) && DupFreeMembers(from)
    ensures DupFreeMembers(Merged(to, from))
    ensures ViewMembers(Merged(to, from)) == MergeMap(ViewMembers(to), ViewMembers(from))
    decreases from
  {
    if from == [] {
      assert MergeMap(ViewMembers(to), map[]) == ViewMembers(to);
    } else {
      DupFreeTail(from);
      assert DupFree(from[0].value);
      MergeOneView(to, from[0]);
      MergeView(MergedOne(to, from[0]), from[1..]);
      MergeMapFirst(ViewMembers(to), from[0].name, View(from[0].value), ViewMembers(from[1..]));
    }
  }

  // ---- laws ----

  ghost function At(t: Tree, path: seq<string>): Option<Tree> {
    if path == [] then Some(t)
    else if t.Node? && path[0] in t.m then At(t.m[path[0]], path[1..])
    else None
  }

  /** On the way to `path` both operands have a value, and one of the two is not an object. */
  ghost predicate Masked(a: Tree, b: Tree, path: seq<string>) {
    exists i :: 0 <= i < |path| && MaskedAt(a, b, path, i)
  }

  ghost predicate MaskedAt(a: Tree, b: Tree, path: seq<string>, i: nat)
    requires i < |path|
  {
    && At(a, path[..i]).Some? && At(b, path[..i]).Some?
    && !(At(a, path[..i]).value.Node? && At(b, path[..i]).value.Node?)
  }

  /** The value at every path of a merge: what the second operand has there, merged over what the
      first one has there; the first one's value is seen exactly when nothing masks it. */
  lemma {:induction false} MergeAtPath(a: Tree, b: Tree, path: seq<string>)
    ensures At(MergeTree(a, b), path) ==
            if Masked(a, b, path) || At(a, path).None? then At(b, path)
            else if At(b, path).None? then At(a, path)
            else Some(MergeTree(At(a, path).value, At(b, path).value))
  {
    if path != [] {
      var k, rest := path[0], path[1..];
      if !(a.Node? && b.Node?) {
        assert path[..0] == [] && MaskedAt(a, b, path, 0);
      } else if k in a.m && k in b.m {
        MergeAtPath(a.m[k], b.m[k], rest);
        assert forall i :: 0 <= i < |rest| ==> path[..i + 1] == [k] + rest[..i];
        assert !MaskedAt(a, b, path, 0);
        if i :| 0 <= i < |path| && MaskedAt(a, b, path, i) {
          assert MaskedAt(a.m[k], b.m[k], rest, i - 1);
        } else if i :| 0 <= i < |rest| && MaskedAt(a.m[k], b.m[k], rest, i) {
          assert MaskedAt(a, b, path, i + 1);
        }
      } else {
        forall i | 0 <= i < |path| ensures !MaskedAt(a, b, path, i) {
          if i > 0 {
            assert path[..i][0] == k;
          }
        }
      }
    }
  }

  lemma {:induction false} MergeSelf(a: Tree)
    ensures MergeTree(a, a) == a
  {
    if a.Node? {
      forall k | k in a.m { MergeSelf(a.m[k]); }
    }
  }

  /** Merging the same second operand again changes nothing. */
  lemma {:induction false} MergeIdempotent(a: Tree, b: Tree)
    ensures MergeTree(MergeTree(a, b), b) == MergeTree(a, b)
    decreases b
  {
    if a.Node? && b.Node? {
      forall k | k in b.m { MergeSelf(b.m[k]); }
      forall k | k in a.m && k in b.m { MergeIdempotent(a.m[k], b.m[k]); }
    } else {
      MergeSelf(b);
    }
  }

  /** `c` has every member of `a`, and so on inside members that are objects in both. */
  ghost predicate Covers(a: Tree, c: Tree)
    decreases c
  {
    a.Node? && c.Node? ==>
      forall k :: k in a.m ==> k in c.m && Covers(a.m[k], c.m[k])
  }

  lemma {:induction false} CoveredIsAbsorbed(a: Tree, c: Tree)
    ensures Covers(a, c) <==> MergeTree(a, c) == c
    decreases c
  {
    if a.Node? && c.Node? {
      forall k | k in a.m && k in c.m { CoveredIsAbsorbed(a.m[k], c.m[k]); }
      var r := MergeTree(a, c);
      if Covers(a, c) {
        assert r.m == c.m;
      } else {
        var k :| k in a.m && !(k in c.m && Covers(a.m[k], c.m[k]));
        assert k in r.m;
      }
    }
  }

  /** Where the first and third operands have objects and the second something else, the third
      covers the first; everywhere else there is no demand. */
  ghost predicate NoClash(a: Tree, b: Tree, c: Tree)
    decreases c
  {
    a.Node? && c.Node? ==>
      if b.Node? then
        forall k :: k in a.m && k in b.m && k in c.m ==> NoClash(a.m[k], b.m[k], c.m[k])
      else Covers(a, c)
  }

  /** Merging is associative exactly when no non-object in the middle wipes out a member of the
      first operand that the third does not bring back. */
  lemma {:induction false} MergeAssociative(a: Tree, b: Tree, c: Tree)
    ensures MergeTree(MergeTree(a, b), c) == MergeTree(a, MergeTree(b, c)) <==> NoClash(a, b, c)
    decreases c
  {
    var l, r := MergeTree(MergeTree(a, b), c), MergeTree(a, MergeTree(b, c));
    if a.Node? && b.Node? && c.Node? {
      forall k | k in a.m && k in b.m && k in c.m { MergeAssociative(a.m[k], b.m[k], c.m[k]); }
      assert l.m.Keys == r.m.Keys;
      if NoClash(a, b, c) {
        assert l.m == r.m;
      } else {
        var k :| k in a.m && k in b.m && k in c.m && !NoClash(a.m[k], b.m[k], c.m[k]);
        assert l.m[k] != r.m[k];
      }
    } else if a.Node? && c.Node? {
      CoveredIsAbsorbed(a, c);
    }
  }
}
