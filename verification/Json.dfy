/** JSON values as rapidjson stores them: an object is a list of members in insertion order.
    `Tree` is the same value with the order of members forgotten. */
module Json {

  datatype Value =
    | Null
    | Bool(b: bool)
    | Number(n: real)
    | String(s: string)
    | Array(items: seq<Value>)
    | Object(members: seq<Member>)

  datatype Member = Member(name: string, value: Value)

  datatype Tree = Leaf(v: Value) | Node(m: map<string, Tree>)

  /** The position of the first member with this name, or the number of members. */
  function Position(ms: seq<Member>, name: string): (i: nat)
    ensures i <= |ms|
    ensures i < |ms| ==> ms[i].name == name
    ensures forall j :: 0 <= j < i ==> ms[j].name != name
  {
    if ms == [] || ms[0].name == name then 0 else 1 + Position(ms[1..], name)
  }

  predicate HasMember(ms: seq<Member>, name: string) {
    Position(ms, name) < |ms|
  }

  function Get(ms: seq<Member>, name: string): Value
    requires HasMember(ms, name)
  {
    ms[Position(ms, name)].value
  }

  function EraseMember(ms: seq<Member>, name: string): seq<Member> {
    var i := Position(ms, name);
    if i < |ms| then ms[..i] + ms[i + 1..] else ms
  }

  function AddMember(ms: seq<Member>, name: string, value: Value): seq<Member> {
    ms + [Member(name, value)]
  }

  function AssignMember(ms: seq<Member>, name: string, value: Value): seq<Member>
    requires HasMember(ms, name)
  {
    ms[Position(ms, name) := Member(name, value)]
  }

  ghost function View(v: Value): Tree
    decreases v
  {
    match v
    case Object(ms) => Node(ViewMembers(ms))
    case _ => Leaf(v)
  }

  /** The first of several members with one name is the one that lookups see. */
  ghost function ViewMembers(ms: seq<Member>): map<string, Tree>
    decreases ms
  {
    if ms == [] then map[] else ViewMembers(ms[1..])[ms[0].name := View(ms[0].value)]
  }

  /** No object on a path of object members repeats a name. */
  ghost predicate DupFree(v: Value)
    decreases v
  {
    v.Object? ==> DupFreeMembers(v.members)
  }

  ghost predicate DupFreeMembers(ms: seq<Member>)
    decreases ms
  {
    && (forall i, j :: 0 <= i < j < |ms| ==> ms[i].name != ms[j].name)
    && (forall i :: 0 <= i < |ms| ==> DupFree(ms[i].value))
  }

  lemma {:induction false} ViewLookup(ms: seq<Member>, name: string)
    ensures name in ViewMembers(ms) <==> HasMember(ms, name)
    ensures HasMember(ms, name) ==> ViewMembers(ms)[name] == View(Get(ms, name))
  {
    if ms != [] && ms[0].name != name {
      ViewLookup(ms[1..], name);
    }
  }

  lemma DupFreeTail(ms: seq<Member>)
    requires ms != [] && DupFreeMembers(ms)
    ensures DupFreeMembers(ms[1..])
    ensures ms[0].name !in ViewMembers(ms[1..])
  {
    ViewLookup(ms[1..], ms[0].name);
  }

  lemma PositionIs(ms: seq<Member>, name: string, i: nat)
    requires i < |ms| && ms[i].name == name
    requires forall j :: 0 <= j < i ==> ms[j].name != name
    ensures Position(ms, name) == i
  {
  }

  lemma ViewAdd(ms: seq<Member>, name: string, value: Value)
    requires !HasMember(ms, name)
    ensures ViewMembers(AddMember(ms, name, value)) == ViewMembers(ms)[name := View(value)]
  {
    var ms' := AddMember(ms, name, value);
    forall k ensures k in ViewMembers(ms') <==> k in ViewMembers(ms)[name := View(value)]
      ensures k in ViewMembers(ms') ==> ViewMembers(ms')[k] == ViewMembers(ms)[name := View(value)][k]
    {
      ViewLookup(ms, k);
      ViewLookup(ms', k);
      if HasMember(ms, k) {
        PositionIs(ms', k, Position(ms, k));
      } else if k == name {
        PositionIs(ms', k, |ms|);
      }
    }
  }

  lemma ViewAssign(ms: seq<Member>, name: string, value: Value)
    requires HasMember(ms, name)
    ensures ViewMembers(AssignMember(ms, name, value)) == ViewMembers(ms)[name := View(value)]
  {
    var ms' := AssignMember(ms, name, value);
    assert forall j :: 0 <= j < |ms| ==> ms'[j].name == ms[j].name;
    forall k ensures k in ViewMembers(ms') <==> k in ViewMembers(ms)[name := View(value)]
      ensures k in ViewMembers(ms') ==> ViewMembers(ms')[k] == ViewMembers(ms)[name := View(value)][k]
    {
      ViewLookup(ms, k);
      ViewLookup(ms', k);
      if HasMember(ms, k) {
        PositionIs(ms', k, Position(ms, k));
      }
    }
  }

  lemma LookupErase(ms: seq<Member>, name: string, k: string)
    requires DupFreeMembers(ms)
    ensures HasMember(EraseMember(ms, name), k) <==> HasMember(ms, k) && k != name
    ensures HasMember(ms, k) && k != name ==> Get(EraseMember(ms, name), k) == Get(ms, k)
  {
    var ms', i, p := EraseMember(ms, name), Position(ms, name), Position(ms, k);
    if i < |ms| {
      if p < |ms| && k != name {
        PositionIs(ms', k, if p < i then p else p - 1);
      } else {
        forall q | 0 <= q < |ms'| ensures ms'[q].name != k {
          assert ms'[q] == ms[if q < i then q else q + 1];
        }
      }
    }
  }

  lemma ViewErase(ms: seq<Member>, name: string)
    requires DupFreeMembers(ms)
    ensures ViewMembers(EraseMember(ms, name)) == ViewMembers(ms) - {name}
    ensures DupFreeMembers(EraseMember(ms, name))
  {
    var ms', i := EraseMember(ms, name), Position(ms, name);
    assert forall j :: 0 <= j < |ms'| ==> ms'[j] == ms[if j < i then j else j + 1];
    forall k ensures k in ViewMembers(ms') <==> k in ViewMembers(ms) - {name}
      ensures k in ViewMembers(ms') ==> ViewMembers(ms')[k] == ViewMembers(ms)[k]
    {
      ViewLookup(ms, k);
      ViewLookup(ms', k);
      LookupErase(ms, name, k);
    }
  }

  lemma DupFreeAdd(ms: seq<Member>, name: string, value: Value)
    requires DupFreeMembers(ms) && DupFree(value) && !HasMember(ms, name)
    ensures DupFreeMembers(AddMember(ms, name, value))
  {
  }
}
