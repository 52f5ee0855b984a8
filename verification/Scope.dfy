/** Evaluation contexts: variables in a chain of scopes, innermost first. Setting appends to the inner
    scope, reading takes the first value found, merging goes to the scope that has the variable. */
module Scope {
  import opened Json
  import opened Merge
  import opened Options
  import opened Pointer

  type Frames = seq<seq<Member>>

  function Lookup(fs: Frames, key: string): Option<Value> {
    if fs == [] then None
    else if HasMember(fs[0], key) then Some(Get(fs[0], key))
    else Lookup(fs[1..], key)
  }

  /** The innermost scope that has the variable, or the number of scopes. */
  function Owner(fs: Frames, key: string): (i: nat)
    ensures i <= |fs| && (i < |fs| ==> HasMember(fs[i], key))
    ensures forall k :: 0 <= k < i ==> !HasMember(fs[k], key)
  {
    if fs == [] || HasMember(fs[0], key) then 0 else 1 + Owner(fs[1..], key)
  }

  function SetIn(fs: Frames, key: string, value: Value): (r: Frames)
    requires fs != []
    ensures |r| == |fs|
  {
    fs[0 := AddMember(fs[0], key, value)]
  }

  /** Two objects are merged; with anything else the existing value stays. */
  function MergedValue(existing: Value, value: Value): Value {
    if existing.Object? && value.Object? then Object(Merged(existing.members, value.members)) else existing
  }

  function MergeIn(fs: Frames, key: string, value: Value): (r: Frames)
    requires fs != []
    ensures |r| == |fs|
  {
    var i := Owner(fs, key);
    if i < |fs| then fs[i := AssignMember(fs[i], key, MergedValue(Get(fs[i], key), value))]
    else SetIn(fs, key, value)
  }

  /** Writing a path into the inner scope, which stays an object. */
  function SetByPathIn(fs: Frames, path: string, value: Value): (r: Frames)
    requires fs != []
    ensures |r| == |fs|
  {
    var r := Written(Object(fs[0]), path, value);
    if r.Object? then fs[0 := r.members] else fs
  }

  lemma {:induction false} LookupIsOwners(fs: Frames, key: string)
    ensures Lookup(fs, key) == if Owner(fs, key) < |fs| then Some(Get(fs[Owner(fs, key)], key)) else None
  {
    if fs != [] && !HasMember(fs[0], key) {
      LookupIsOwners(fs[1..], key);
    }
  }

  lemma AddReads(ms: seq<Member>, key: string, value: Value, k: string)
    ensures var ms' := AddMember(ms, key, value);
      && (HasMember(ms', k) <==> k == key || HasMember(ms, k))
      && (HasMember(ms', k) ==> Get(ms', k) == if HasMember(ms, k) then Get(ms, k) else value)
  {
    var ms' := AddMember(ms, key, value);
    if HasMember(ms, k) {
      PositionIs(ms', k, Position(ms, k));
    } else if k == key {
      PositionIs(ms', k, |ms|);
    } else {
      assert forall i :: 0 <= i < |ms'| ==> ms'[i].name != k;
    }
  }

  lemma AssignReads(ms: seq<Member>, key: string, value: Value, k: string)
    requires HasMember(ms, key)
    ensures var ms' := AssignMember(ms, key, value);
      && (HasMember(ms', k) <==> HasMember(ms, k))
      && (HasMember(ms', k) ==> Get(ms', k) == if k == key then value else Get(ms, k))
  {
    var ms' := AssignMember(ms, key, value);
    if HasMember(ms, k) {
      PositionIs(ms', k, Position(ms, k));
    } else {
      assert forall i :: 0 <= i < |ms'| ==> ms'[i].name != k;
    }
  }

  /** A variable that is set is read, unless its own scope has an earlier value; no other one changes. */
  lemma SetReads(fs: Frames, key: string, value: Value, k: string)
    requires fs != []
    ensures Lookup(SetIn(fs, key, value), k) ==
      if k == key && !HasMember(fs[0], key) then Some(value) else Lookup(fs, k)
  {
    AddReads(fs[0], key, value, k);
    assert SetIn(fs, key, value)[1..] == fs[1..];
  }

  /** After a merge the variable reads as the deep merge of two objects, as the old value when one of the two is
      no object, and as the new value when it was unbound; no other one changes. */
  lemma {:induction false} MergeReads(fs: Frames, key: string, value: Value, k: string)
    requires fs != []
    ensures Lookup(MergeIn(fs, key, value), k) ==
      if k != key || (Lookup(fs, key).Some? && !(Lookup(fs, key).value.Object? && value.Object?)) then Lookup(fs, k)
      else if Lookup(fs, key).None? then Some(value)
      else Some(Object(Merged(Lookup(fs, key).value.members, value.members)))
  {
    var i := Owner(fs, key);
    LookupIsOwners(fs, key);
    if i < |fs| {
      AssignedReads(fs, i, key, MergedValue(Get(fs[i], key), value), k);
    } else {
      SetReads(fs, key, value, k);
    }
  }

  lemma {:induction false} AssignedReads(fs: Frames, i: nat, key: string, value: Value, k: string)
    requires i < |fs| && i == Owner(fs, key)
    ensures Lookup(fs[i := AssignMember(fs[i], key, value)], k) == if k == key then Some(value) else Lookup(fs, k)
  {
    AssignReads(fs[i], key, value, k);
    var fs' := fs[i := AssignMember(fs[i], key, value)];
    if i == 0 {
      assert fs'[1..] == fs[1..];
    } else {
      assert fs'[1..] == fs[1..][i - 1 := AssignMember(fs[i], key, value)];
      AssignedReads(fs[1..], i - 1, key, value, k);
    }
  }

  class ExpressionContext {
    var variables: seq<Member>
    const parent: ExpressionContext?
    ghost const chain: seq<ExpressionContext>

    ghost predicate Valid()
      decreases |chain|
    {
      && chain != [] && chain[0] == this
      && (forall i, j :: 0 <= i < j < |chain| ==> chain[i] != chain[j])
      && if parent == null then |chain| == 1
         else parent.chain == chain[1..] && |parent.chain| < |chain| && parent.Valid()
    }

    ghost function Frames(): Frames
      requires Valid()
      reads chain
    {
      seq(|chain|, i requires 0 <= i < |chain| reads chain => chain[i].variables)
    }

    constructor Top()
      ensures Valid() && parent == null && chain == [this] && Frames() == [[]]
    {
      variables, parent := [], null;
      chain := [this];
    }

    /** A new inner scope. */
    constructor Inner(outer: ExpressionContext)
      requires outer.Valid()
      ensures Valid() && parent == outer && chain == [this] + outer.chain
      ensures Frames() == [[]] + outer.Frames()
    {
      variables, parent := [], outer;
      chain := [this] + outer.chain;
    }

    method SetVariable(key: string, value: Value)
      requires Valid()
      modifies this
      ensures Frames() == SetIn(old(Frames()), key, value)
    {
      variables := AddMember(variables, key, value);
    }

    method SetVariableByPath(path: string, value: Value) returns (ret: int)
      requires Valid() && (PathOf(path) != [] || value.Object?)
      modifies this
      ensures Frames() == SetByPathIn(old(Frames()), path, value)
      ensures ret == if Tokens(path).Some? then 0 else -1
    {
      var doc := new Slot(Object(variables));
      ret := JsonSetValueByPath(path, doc, value);
      variables := doc.value.members;
    }

    method FindOwner(key: string) returns (context: ExpressionContext?)
      requires Valid()
      ensures Owner(Frames(), key) == |chain| <==> context == null
      ensures context != null ==> context == chain[Owner(Frames(), key)]
      decreases |chain|
    {
      if HasMember(variables, key) {
        return this;
      }
      assert Frames()[0] == variables;
      if parent != null {
        assert Frames()[1..] == parent.Frames();
        context := parent.FindOwner(key);
      } else {
        assert Frames()[1..] == [];
        context := null;
      }
    }

    /** All that an expression evaluated here can read. */
    method Visible() returns (fs: Frames)
      requires Valid()
      ensures fs == Frames()
      decreases |chain|
    {
      fs := [variables];
      if parent != null {
        var outer := parent.Visible();
        fs := fs + outer;
      }
    }

    method GetVariable(key: string) returns (value: Option<Value>)
      requires Valid()
      ensures value == Lookup(Frames(), key)
    {
      LookupIsOwners(Frames(), key);
      var context := FindOwner(key);
      if context == null {
        return None;
      }
      return Some(Get(context.variables, key));
    }

    method MergeVariable(key: string, value: Value)
      requires Valid()
      modifies chain
      ensures Frames() == MergeIn(old(Frames()), key, value)
    {
      var context := FindOwner(key);
      if context != null {
        var existing := new Slot(Get(context.variables, key));
        var _ := MergeJsonObjects(existing, value);
        context.variables := AssignMember(context.variables, key, existing.value);
      } else {
        SetVariable(key, value);
      }
    }
  }

  /** Behind its own scope a context sees what its parent sees. */
  lemma OuterFrames(inner: ExpressionContext, outer: ExpressionContext)
    requires inner.Valid() && outer.Valid() && inner.chain == [inner] + outer.chain
    ensures inner.Frames()[1..] == outer.Frames()
  {
    assert forall i :: 0 <= i < |outer.chain| ==> inner.chain[i + 1] == outer.chain[i];
  }
}
