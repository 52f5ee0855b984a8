/** What the node of a recall reads in the end: every response, exactly when no service of the recall has an
    entry in the map that the node starts from. */
module Answers {
  import opened Json
  import opened Merge
  import opened Options
  import opened Recall

  // ---- the services of a recall ----

  /** Every service recalled below a process, whether it answers or not. */
  ghost function Below(c: Config, height: Proc -> nat, p: Proc): set<string>
    decreases height(p), 1, 0
  {
    BelowUpTo(c, height, p, |c.Kids(p)|)
  }

  ghost function BelowUpTo(c: Config, height: Proc -> nat, p: Proc, k: nat): set<string>
    requires k <= |c.Kids(p)|
    decreases height(p), 0, k
  {
    if k == 0 then {}
    else
      BelowUpTo(c, height, p, k - 1) +
      if height(c.Kid(p, k - 1)) < height(p) then {c.Kids(p)[k - 1]} + Below(c, height, c.Kid(p, k - 1)) else {}
  }

  lemma {:induction false} KidBelow(c: Config, height: Proc -> nat, p: Proc, k: nat, i: nat)
    requires i < k <= |c.Kids(p)| && height(c.Kid(p, i)) < height(p)
    ensures c.Kids(p)[i] in BelowUpTo(c, height, p, k)
    ensures Below(c, height, c.Kid(p, i)) <= BelowUpTo(c, height, p, k)
  {
    if i < k - 1 { KidBelow(c, height, p, k - 1, i); }
  }

  /** The services below a process are closed under recalling. */
  lemma {:induction false} BelowClosed(c: Config, height: Proc -> nat, place: Proc -> (Proc, nat), p: Proc, k: nat,
                                       name: string, i: nat)
    requires IsTree(c, height, place) && c.Known(p) && k <= |c.Kids(p)|
    requires name in BelowUpTo(c, height, p, k) && i < |c.Kids(Service(name))|
    ensures c.Kids(Service(name))[i] in BelowUpTo(c, height, p, k)
    decreases height(p), k
  {
    var kid := c.Kid(p, k - 1);
    assert c.Known(kid) && height(kid) < height(p);
    if name in BelowUpTo(c, height, p, k - 1) {
      BelowClosed(c, height, place, p, k - 1, name, i);
    } else if kid == Service(name) {
      assert height(c.Kid(kid, i)) < height(kid);
      KidBelow(c, height, kid, |c.Kids(kid)|, i);
    } else {
      BelowClosed(c, height, place, kid, |c.Kids(kid)|, name, i);
    }
  }

  /** The processes that take part in the recall. */
  ghost predicate TakesPart(c: Config, height: Proc -> nat, p: Proc) {
    p.Service? ==> p.name in Below(c, height, FlowNode)
  }

  lemma KidTakesPart(c: Config, height: Proc -> nat, place: Proc -> (Proc, nat), p: Proc, i: nat)
    requires IsTree(c, height, place) && c.Known(p) && TakesPart(c, height, p) && i < |c.Kids(p)|
    ensures TakesPart(c, height, c.Kid(p, i))
  {
    if p == FlowNode {
      assert height(c.Kid(p, i)) < height(p);
      KidBelow(c, height, FlowNode, |c.Kids(FlowNode)|, i);
    } else {
      BelowClosed(c, height, place, FlowNode, |c.Kids(FlowNode)|, p.name, i);
    }
  }

  /** Only processes that take part are ever started. */
  ghost predicate ActivePart(c: Config, height: Proc -> nat, s: State) {
    forall p :: p in s && s[p].pc != Idle ==> TakesPart(c, height, p)
  }

  lemma NextActive(c: Config, height: Proc -> nat, place: Proc -> (Proc, nat), s: State, p: Proc)
    requires IsTree(c, height, place) && Inv(c, height, place, s) && Enabled(c, s, p) && ActivePart(c, height, s)
    ensures ActivePart(c, height, Next(c, s, p))
  {
    assert c.Known(p);
    if s[p].pc.Issuing? && s[p].pc.k < |c.Kids(p)| { KidTakesPart(c, height, place, p, s[p].pc.k); }
  }

  lemma {:induction false} ReachableActive(c: Config, height: Proc -> nat, place: Proc -> (Proc, nat), schedule: seq<Proc>)
    requires IsTree(c, height, place) && Exec(c, schedule).Some?
    ensures ActivePart(c, height, Exec(c, schedule).value)
  {
    if schedule != [] {
      var front := schedule[..|schedule| - 1];
      ReachableActive(c, height, place, front);
      ReachableInv(c, height, place, front);
      NextActive(c, height, place, Exec(c, front).value, schedule[|schedule| - 1]);
    }
  }

  // ---- starts without entries of these services ----

  /** No service of the recall has an entry from before. */
  ghost predicate FreshStart(c: Config, height: Proc -> nat) {
    Names(c.start) !! Below(c, height, FlowNode)
  }

  ghost predicate Unrepeated(c: Config) {
    DupFreeMembers(c.start) && forall s :: c.Response(s).Some? ==> DupFree(c.Response(s).value)
  }

  /** The names from before a call was issued are old ones or belong to services above it. */
  ghost predicate Above(c: Config, height: Proc -> nat, s: State) {
    forall p :: p in s ==> BaseAbove(c, height, p, s[p].base)
  }

  ghost predicate BaseAbove(c: Config, height: Proc -> nat, p: Proc, base: set<string>) {
    forall name :: name in base ==> name in Names(c.start) || height(p) < height(Service(name))
  }

  lemma NextAbove(c: Config, height: Proc -> nat, place: Proc -> (Proc, nat), s: State, p: Proc)
    requires IsTree(c, height, place) && Inv(c, height, place, s) && Enabled(c, s, p) && Above(c, height, s)
    ensures Above(c, height, Next(c, s, p))
  {
    KidsApart(c, height, place, s, p);
    forall q | q in Next(c, s, p) ensures BaseAbove(c, height, q, Next(c, s, p)[q].base) {
      if Starts(c, s, p, q) {
        assert KidOf(c, s, p, s[p].pc.k);
        StartedAbove(c, height, s, p, s[p].pc.k);
      } else {
        OtherBase(c, s, p, q);
      }
    }
  }

  lemma StartedAbove(c: Config, height: Proc -> nat, s: State, p: Proc, k: nat)
    requires Enabled(c, s, p) && s[p].pc == Issuing(k) && k < |c.Kids(p)|
    requires KidOf(c, s, p, k) && c.Kid(p, k) != p && height(c.Kid(p, k)) < height(p)
    requires BaseAbove(c, height, p, s[p].base)
    ensures BaseAbove(c, height, c.Kid(p, k), Next(c, s, p)[c.Kid(p, k)].base)
  {
    assert Next(c, s, p)[c.Kid(p, k)].base == Names(s[c.Kid(p, k)].backend) == s[p].base + Own(p);
  }

  lemma {:induction false} ReachableAbove(c: Config, height: Proc -> nat, place: Proc -> (Proc, nat), schedule: seq<Proc>)
    requires IsTree(c, height, place) && Exec(c, schedule).Some?
    ensures Above(c, height, Exec(c, schedule).value)
  {
    if schedule != [] {
      var front := schedule[..|schedule| - 1];
      ReachableAbove(c, height, place, front);
      ReachableInv(c, height, place, front);
      NextAbove(c, height, place, Exec(c, front).value, schedule[|schedule| - 1]);
    }
  }

  lemma NewMember(c: Config, height: Proc -> nat, place: Proc -> (Proc, nat), s: State, p: Proc)
    requires IsTree(c, height, place) && FreshStart(c, height) && Inv(c, height, place, s)
    requires Above(c, height, s) && ActivePart(c, height, s)
    requires p in s && s[p].pc == Issued
    ensures p.Service? && !HasMember(s[p].backend, p.name)
  {
    assert Entries(c, height, s[p], p) && TakesPart(c, height, p) && BaseAbove(c, height, p, s[p].base);
    NamesOf(s[p].backend, p.name);
  }

  /** A response is always added under a name that the map does not have yet. */
  lemma ResponseIsNewMember(c: Config, height: Proc -> nat, place: Proc -> (Proc, nat), schedule: seq<Proc>, p: Proc)
    requires IsTree(c, height, place) && FreshStart(c, height) && Exec(c, schedule).Some?
    requires p in Exec(c, schedule).value && Exec(c, schedule).value[p].pc == Issued
    ensures p.Service? && !HasMember(Exec(c, schedule).value[p].backend, p.name)
  {
    ReachableInv(c, height, place, schedule);
    ReachableAbove(c, height, place, schedule);
    ReachableActive(c, height, place, schedule);
    NewMember(c, height, place, Exec(c, schedule).value, p);
  }

  // ---- the values in the maps ----

  ghost predicate Submap(a: map<string, Tree>, b: map<string, Tree>) {
    forall k :: k in a ==> k in b && a[k] == b[k]
  }

  /** Everything that can ever be in a backend map. */
  ghost function Full(c: Config, height: Proc -> nat): map<string, Tree> {
    ViewMembers(c.start) + map s | s in Below(c, height, FlowNode) && c.Response(s).Some? :: View(c.Response(s).value)
  }

  /** A map without repeated names that agrees with all the others. */
  ghost predicate Agrees(c: Config, height: Proc -> nat, ms: Backend) {
    DupFreeMembers(ms) && Submap(ViewMembers(ms), Full(c, height))
  }

  /** Joining maps that agree with one full map loses nothing and changes no value. */
  lemma MergeAgrees(c: Config, height: Proc -> nat, to: Backend, from: Backend)
    requires Agrees(c, height, to) && Agrees(c, height, from)
    ensures Agrees(c, height, Merged(to, from))
    ensures ViewMembers(Merged(to, from)) == ViewMembers(to) + ViewMembers(from)
  {
    MergeView(to, from);
    forall k | k in ViewMembers(to) && k in ViewMembers(from)
      ensures ViewMembers(Merged(to, from))[k] == Full(c, height)[k]
    {
      MergeSelf(Full(c, height)[k]);
    }
  }

  lemma AddAgrees(c: Config, height: Proc -> nat, ms: Backend, name: string)
    requires Unrepeated(c) && FreshStart(c, height) && Agrees(c, height, ms) && !HasMember(ms, name)
    requires name in Below(c, height, FlowNode) && c.Response(name).Some?
    ensures Agrees(c, height, AddMember(ms, name, c.Response(name).value))
  {
    DupFreeAdd(ms, name, c.Response(name).value);
    ViewAdd(ms, name, c.Response(name).value);
  }

  ghost predicate AllAgree(c: Config, height: Proc -> nat, s: State) {
    forall p :: p in s ==> Agrees(c, height, s[p].backend)
  }

  lemma StartAgrees(c: Config, height: Proc -> nat)
    requires Unrepeated(c) && FreshStart(c, height)
    ensures Agrees(c, height, c.start)
  {
    forall k | k in ViewMembers(c.start) ensures k !in Below(c, height, FlowNode) {
      ViewLookup(c.start, k);
      NamesOf(c.start, k);
    }
  }

  /** A step gives any other context its own map or a copy of the actor's. */
  lemma OtherBackend(c: Config, s: State, p: Proc, q: Proc)
    requires Enabled(c, s, p) && q in Next(c, s, p) && q != p
    ensures q in s
    ensures Next(c, s, p)[q].backend == s[q].backend || Next(c, s, p)[q].backend == s[p].backend
  {
  }

  lemma ActorAgrees(c: Config, height: Proc -> nat, s: State, p: Proc)
    requires Unrepeated(c) && FreshStart(c, height) && Enabled(c, s, p) && AllAgree(c, height, s)
    requires s[p].pc == Issued ==> TakesPart(c, height, p) && !HasMember(s[p].backend, p.name)
    ensures Agrees(c, height, Next(c, s, p)[p].backend)
  {
    match s[p].pc
    case Issued =>
      if c.Response(p.name).Some? { AddAgrees(c, height, s[p].backend, p.name); }
    case Copying(_) => ActorKeeps(c, s, p);
    case Issuing(_) => ActorKeeps(c, s, p);
    case Merging(k) =>
      if k < |c.Kids(p)| { MergeAgrees(c, height, s[p].backend, s[c.Kid(p, k)].backend); }
    case _ =>
  }

  lemma ActorKeeps(c: Config, s: State, p: Proc)
    requires Enabled(c, s, p) && (s[p].pc.Copying? || s[p].pc.Issuing?)
    ensures Next(c, s, p)[p].backend == s[p].backend
  {
  }

  lemma NextAgrees(c: Config, height: Proc -> nat, place: Proc -> (Proc, nat), s: State, p: Proc)
    requires IsTree(c, height, place) && Unrepeated(c) && FreshStart(c, height)
    requires Inv(c, height, place, s) && Above(c, height, s) && ActivePart(c, height, s)
    requires Enabled(c, s, p) && AllAgree(c, height, s)
    ensures AllAgree(c, height, Next(c, s, p))
  {
    if s[p].pc == Issued { NewMember(c, height, place, s, p); }
    ActorAgrees(c, height, s, p);
    forall q | q in Next(c, s, p) ensures Agrees(c, height, Next(c, s, p)[q].backend) {
      if q != p { OtherBackend(c, s, p, q); }
    }
  }

  lemma {:induction false} ReachableAgrees(c: Config, height: Proc -> nat, place: Proc -> (Proc, nat), schedule: seq<Proc>)
    requires IsTree(c, height, place) && Unrepeated(c) && FreshStart(c, height) && Exec(c, schedule).Some?
    ensures AllAgree(c, height, Exec(c, schedule).value)
  {
    StartAgrees(c, height);
    if schedule != [] {
      var front := schedule[..|schedule| - 1];
      ReachableAgrees(c, height, place, front);
      ReachableInv(c, height, place, front);
      ReachableAbove(c, height, place, front);
      ReachableActive(c, height, place, front);
      NextAgrees(c, height, place, Exec(c, front).value, schedule[|schedule| - 1]);
    }
  }

  lemma {:induction false} ReachedAnswered(c: Config, height: Proc -> nat, p: Proc)
    ensures forall name :: name in Reached(c, height, p) ==>
      c.Response(name).Some? && (name in Own(p) || name in Below(c, height, p))
    decreases height(p), 1, 0
  {
    UpToAnswered(c, height, p, |c.Kids(p)|);
  }

  lemma {:induction false} UpToAnswered(c: Config, height: Proc -> nat, p: Proc, k: nat)
    requires k <= |c.Kids(p)|
    ensures forall name :: name in ReachedBelow(c, height, p, k) ==>
      c.Response(name).Some? && name in BelowUpTo(c, height, p, k)
    decreases height(p), 0, k
  {
    if k > 0 {
      UpToAnswered(c, height, p, k - 1);
      if height(c.Kid(p, k - 1)) < height(p) { ReachedAnswered(c, height, c.Kid(p, k - 1)); }
    }
  }

  ghost function NodeMap(c: Config, schedule: seq<Proc>): Backend
    requires Finished(c, schedule)
  {
    Exec(c, schedule).value[FlowNode].backend
  }

  /** A lookup of the name finds the value, up to the order of members. */
  ghost predicate Reads(ms: Backend, name: string, value: Value) {
    HasMember(ms, name) && View(Get(ms, name)) == View(value)
  }

  /** Whatever the interleaving, when the node has finished its `backend` map is the starting map plus
      exactly the response of every service that was reached and answered. */
  lemma RecallLosesNothing(c: Config, height: Proc -> nat, place: Proc -> (Proc, nat), schedule: seq<Proc>)
    requires IsTree(c, height, place) && Unrepeated(c) && FreshStart(c, height) && Finished(c, schedule)
    ensures var backend, reached := NodeMap(c, schedule), Reached(c, height, FlowNode);
      && DupFreeMembers(backend) && Names(backend) == Names(c.start) + reached
      && (forall k :: HasMember(c.start, k) ==> Reads(backend, k, Get(c.start, k)))
      && (forall k :: k in reached ==> c.Response(k).Some? && Reads(backend, k, c.Response(k).value))
  {
    ReachableInv(c, height, place, schedule);
    ReachableAgrees(c, height, place, schedule);
    ReachedAnswered(c, height, FlowNode);
    var backend := NodeMap(c, schedule);
    assert Entries(c, height, Exec(c, schedule).value[FlowNode], FlowNode) && Agrees(c, height, backend);
    forall k | HasMember(c.start, k) ensures Reads(backend, k, Get(c.start, k)) {
      StartRead(c, height, backend, k);
    }
    forall k | k in Reached(c, height, FlowNode)
      ensures c.Response(k).Some? && Reads(backend, k, c.Response(k).value)
    {
      NamesOf(backend, k);
      ViewLookup(backend, k);
    }
  }

  lemma StartRead(c: Config, height: Proc -> nat, backend: Backend, k: string)
    requires FreshStart(c, height) && Agrees(c, height, backend) && Names(c.start) <= Names(backend)
    requires HasMember(c.start, k)
    ensures Reads(backend, k, Get(c.start, k))
  {
    NamesOf(c.start, k);
    NamesOf(backend, k);
    ViewLookup(c.start, k);
    ViewLookup(backend, k);
  }

  // ---- what a recalled service sees ----

  /** Each process on the path recalls the next. */
  ghost predicate RecallPath(c: Config, path: seq<Proc>) {
    && path != [] && (forall p :: p in path ==> c.Known(p))
    && forall j :: 0 <= j < |path| - 1 ==> RecallsFrom(c, path[j], path[j + 1])
  }

  ghost predicate RecallsFrom(c: Config, p: Proc, q: Proc) {
    exists i :: 0 <= i < |c.Kids(p)| && q == c.Kid(p, i)
  }

  /** A call that was issued starts with the map of its caller, which answered. */
  lemma CallerSeen(c: Config, height: Proc -> nat, place: Proc -> (Proc, nat), s: State, p: Proc, q: Proc)
    requires IsTree(c, height, place) && Inv(c, height, place, s)
    requires p in s && q in s && RecallsFrom(c, p, q) && s[q].pc != Idle
    ensures s[p].pc != Idle && Succeeds(c, p) && s[q].base == s[p].base + Own(p)
  {
    var i: nat :| i < |c.Kids(p)| && q == c.Kid(p, i);
    assert KidOf(c, s, p, i) && Entries(c, height, s[p], p);
  }

  lemma {:induction false} PathSeen(c: Config, height: Proc -> nat, place: Proc -> (Proc, nat), s: State,
                                    path: seq<Proc>, j: nat)
    requires IsTree(c, height, place) && Inv(c, height, place, s) && RecallPath(c, path) && j < |path| - 1
    requires path[|path| - 1] in s && s[path[|path| - 1]].pc != Idle
    ensures path[j] in s && s[path[j]].pc != Idle && Succeeds(c, path[j]) && Own(path[j]) <= s[path[|path| - 1]].base
    decreases |path|
  {
    var n := |path| - 2;
    var front := path[..n + 1];
    assert path[n] in path && c.Known(path[n]) && RecallsFrom(c, path[n], path[n + 1]);
    CallerSeen(c, height, place, s, path[n], path[n + 1]);
    if j < n {
      assert RecallPath(c, front) by {
        forall k | 0 <= k < |front| - 1 ensures RecallsFrom(c, front[k], front[k + 1]) {
          assert RecallsFrom(c, path[k], path[k + 1]);
        }
      }
      PathSeen(c, height, place, s, front, j);
    }
  }

  /** From the moment its call is issued, a service sees the answer of every service above it. */
  lemma AnswersAboveAreSeen(c: Config, height: Proc -> nat, place: Proc -> (Proc, nat), schedule: seq<Proc>,
                            path: seq<Proc>, j: nat)
    requires IsTree(c, height, place) && Unrepeated(c) && FreshStart(c, height) && Exec(c, schedule).Some?
    requires RecallPath(c, path) && j < |path| - 1 && path[j].Service?
    requires var s := Exec(c, schedule).value; path[|path| - 1] in s && s[path[|path| - 1]].pc != Idle
    ensures c.Response(path[j].name).Some?
    ensures Reads(Exec(c, schedule).value[path[|path| - 1]].backend, path[j].name, c.Response(path[j].name).value)
  {
    var s, last := Exec(c, schedule).value, path[|path| - 1];
    ReachableInv(c, height, place, schedule);
    ReachableAgrees(c, height, place, schedule);
    ReachableActive(c, height, place, schedule);
    PathSeen(c, height, place, s, path, j);
    assert Entries(c, height, s[last], last) && Agrees(c, height, s[last].backend) && TakesPart(c, height, path[j]);
    SeenIsRead(c, height, s[last].backend, path[j].name);
  }

  lemma SeenIsRead(c: Config, height: Proc -> nat, ms: Backend, name: string)
    requires Agrees(c, height, ms) && name in Names(ms) && name in Below(c, height, FlowNode)
    requires c.Response(name).Some?
    ensures Reads(ms, name, c.Response(name).value)
  {
    NamesOf(ms, name);
    ViewLookup(ms, name);
  }

  // ---- one service that goes on to another flow ----

  /** The node recalls `a`, which goes on to a flow that recalls `b`. */
  function TwoLevels(x: Value, y: Value): Config {
    Config("n", map["n" := ["a"], "f" := ["b"]], map["a" := "f"], ["a", "b"], map["a" := Some(x), "b" := Some(y)], [])
  }

  function TwoHeight(p: Proc): nat {
    if p == FlowNode then 2 else if p == Service("a") then 1 else 0
  }

  function TwoPlace(p: Proc): (Proc, nat) {
    if p == Service("a") then (FlowNode, 0) else (Service("a"), 0)
  }

  lemma TwoTree(x: Value, y: Value)
    ensures var c := TwoLevels(x, y);
      && c.Kids(FlowNode) == ["a"] && c.Kids(Service("a")) == ["b"] && c.Kids(Service("b")) == []
      && IsTree(c, TwoHeight, TwoPlace)
      && Reached(c, TwoHeight, FlowNode) == {"a", "b"}
  {
    var c := TwoLevels(x, y);
    assert Reached(c, TwoHeight, Service("b")) == {"b"};
    assert ReachedBelow(c, TwoHeight, Service("a"), 0) == {};
    assert ReachedBelow(c, TwoHeight, Service("a"), 1) == {"b"};
    assert Reached(c, TwoHeight, Service("a")) == {"a", "b"};
    assert ReachedBelow(c, TwoHeight, FlowNode, 0) == {};
    assert ReachedBelow(c, TwoHeight, FlowNode, 1) == {"a", "b"};
  }

  /** Every run that finishes the node has both answers. */
  lemma BothLevelsAnswer(x: Value, y: Value, schedule: seq<Proc>)
    requires DupFree(x) && DupFree(y) && Finished(TwoLevels(x, y), schedule)
    ensures var backend := NodeMap(TwoLevels(x, y), schedule); Reads(backend, "a", x) && Reads(backend, "b", y)
  {
    TwoTree(x, y);
    assert Names([]) == {};
    RecallLosesNothing(TwoLevels(x, y), TwoHeight, TwoPlace, schedule);
  }

  // ---- starts with entries of these services ----

  /** The old entry of `a`, of which `b` holds a copy, is merged last and replaces the new answer. */
  lemma StaleCopyMerged(was: Value, answer: Value, other: Value)
    requires !was.Object?
    ensures Merged([Member("a", was)], [Member("a", was), Member("a", answer)]) == [Member("a", answer)]
    ensures Merged([Member("a", answer)], [Member("a", was), Member("b", other)]) == [Member("a", was), Member("b", other)]
  {
    var stale, new', b := Member("a", was), Member("a", answer), Member("b", other);
    MergedTwo([stale], stale, new');
    MergedTwo([new'], stale, b);
    assert MergedOne([stale], stale) == [stale] && MergedOne([stale], new') == [new'] && MergedOne([new'], stale) == [stale];
    assert [stale][1..] == [];
    assert MergedOne([stale], b) == [stale, b];
  }

  /** A node that recalls `a` and `b`, for a map that has an entry of `a` from an earlier node. */
  function SecondRecall(was: Value, answer: Value, other: Value): Config {
    Config("n", map["n" := ["a", "b"]], map[], ["a", "b"], map["a" := Some(answer), "b" := Some(other)],
           [Member("a", was)])
  }

  function Stage(node: Pc, nodeMap: Backend, a: Pc, aMap: Backend, b: Pc, bMap: Backend): State {
    map[FlowNode := Context(node, nodeMap, {"a"}), Service("a") := Context(a, aMap, {"a"}),
        Service("b") := Context(b, bMap, {"a"})]
  }

  lemma ExecStep(c: Config, schedule: seq<Proc>, p: Proc, s: State, s': State)
    requires Exec(c, schedule) == Some(s) && Enabled(c, s, p) && Next(c, s, p) == s'
    ensures Exec(c, schedule + [p]) == Some(s')
  {
    assert (schedule + [p])[..|schedule|] == schedule;
  }

  lemma StaleStart(was: Value, answer: Value, other: Value)
    ensures var c, old' := SecondRecall(was, answer, other), [Member("a", was)];
      Exec(c, []) == Some(Stage(Issuing(0), old', Idle, old', Idle, old'))
  {
    var c, old' := SecondRecall(was, answer, other), [Member("a", was)];
    assert Names(old') == {"a"};
    assert Initial(c) == Stage(Issuing(0), old', Idle, old', Idle, old');
  }

  /** The node calls both services and waits. */
  lemma StaleCalls(was: Value, answer: Value, other: Value) returns (schedule: seq<Proc>)
    ensures var c, old' := SecondRecall(was, answer, other), [Member("a", was)];
      Exec(c, schedule) == Some(Stage(Joining, old', Issued, old', Issued, old'))
  {
    var c, old' := SecondRecall(was, answer, other), [Member("a", was)];
    StaleStart(was, answer, other);
    assert Names(old') == {"a"} && c.Kids(FlowNode) == ["a", "b"];
    ExecStep(c, [], FlowNode, Stage(Issuing(0), old', Idle, old', Idle, old'),
             Stage(Issuing(1), old', Issued, old', Idle, old'));
    ExecStep(c, [] + [FlowNode], FlowNode, Stage(Issuing(1), old', Issued, old', Idle, old'),
             Stage(Issuing(2), old', Issued, old', Issued, old'));
    ExecStep(c, [] + [FlowNode] + [FlowNode], FlowNode, Stage(Issuing(2), old', Issued, old', Issued, old'),
             Stage(Joining, old', Issued, old', Issued, old'));
    schedule := [] + [FlowNode] + [FlowNode] + [FlowNode];
  }

  /** Both answer. */
  lemma StaleAnswers(was: Value, answer: Value, other: Value) returns (schedule: seq<Proc>)
    ensures var c, old' := SecondRecall(was, answer, other), [Member("a", was)];
      Exec(c, schedule) ==
        Some(Stage(Joining, old', Done, old' + [Member("a", answer)], Done, old' + [Member("b", other)]))
  {
    var c, old' := SecondRecall(was, answer, other), [Member("a", was)];
    var a, b := old' + [Member("a", answer)], old' + [Member("b", other)];
    var calls := StaleCalls(was, answer, other);
    ExecStep(c, calls, Service("a"), Stage(Joining, old', Issued, old', Issued, old'),
             Stage(Joining, old', Done, a, Issued, old'));
    ExecStep(c, calls + [Service("a")], Service("b"), Stage(Joining, old', Done, a, Issued, old'),
             Stage(Joining, old', Done, a, Done, b));
    schedule := calls + [Service("a")] + [Service("b")];
  }

  lemma StaleJoined(was: Value, answer: Value, other: Value) returns (schedule: seq<Proc>)
    ensures Exec(SecondRecall(was, answer, other), schedule) ==
      Some(Stage(Merging(0), [Member("a", was)], Done, [Member("a", was), Member("a", answer)],
                 Done, [Member("a", was), Member("b", other)]))
  {
    var c, old' := SecondRecall(was, answer, other), [Member("a", was)];
    var a, b := [Member("a", was), Member("a", answer)], [Member("a", was), Member("b", other)];
    var before := StaleAnswers(was, answer, other);
    assert c.Kids(FlowNode) == ["a", "b"];
    assert a == old' + [Member("a", answer)] && b == old' + [Member("b", other)];
    ExecStep(c, before, FlowNode, Stage(Joining, old', Done, a, Done, b), Stage(Merging(0), old', Done, a, Done, b));
    schedule := before + [FlowNode];
  }

  lemma FirstJoined(was: Value, answer: Value, other: Value)
    requires !was.Object?
    ensures var c, merged := SecondRecall(was, answer, other), [Member("a", answer)];
      var a, b := [Member("a", was), Member("a", answer)], [Member("a", was), Member("b", other)];
      var s := Stage(Merging(0), [Member("a", was)], Done, a, Done, b);
      Enabled(c, s, FlowNode) && Next(c, s, FlowNode) == Stage(Merging(1), merged, Done, a, Done, b)
  {
    StaleCopyMerged(was, answer, other);
    assert SecondRecall(was, answer, other).Kids(FlowNode) == ["a", "b"];
  }

  /** The node merges the map of `a`. */
  lemma StaleFirstJoin(was: Value, answer: Value, other: Value) returns (schedule: seq<Proc>)
    requires !was.Object?
    ensures Exec(SecondRecall(was, answer, other), schedule) ==
      Some(Stage(Merging(1), [Member("a", answer)], Done, [Member("a", was), Member("a", answer)],
                 Done, [Member("a", was), Member("b", other)]))
  {
    var c, old', merged := SecondRecall(was, answer, other), [Member("a", was)], [Member("a", answer)];
    var a, b := [Member("a", was), Member("a", answer)], [Member("a", was), Member("b", other)];
    var before := StaleJoined(was, answer, other);
    FirstJoined(was, answer, other);
    ExecStep(c, before, FlowNode, Stage(Merging(0), old', Done, a, Done, b), Stage(Merging(1), merged, Done, a, Done, b));
    schedule := before + [FlowNode];
  }

  lemma SecondJoined(was: Value, answer: Value, other: Value)
    requires !was.Object?
    ensures var c, merged := SecondRecall(was, answer, other), [Member("a", answer)];
      var a, b := [Member("a", was), Member("a", answer)], [Member("a", was), Member("b", other)];
      var s := Stage(Merging(1), merged, Done, a, Done, b);
      Enabled(c, s, FlowNode) && Next(c, s, FlowNode) == Stage(Merging(2), b, Done, a, Done, b)
  {
    StaleCopyMerged(was, answer, other);
    assert SecondRecall(was, answer, other).Kids(FlowNode) == ["a", "b"];
  }

  /** And then the map of `b`. */
  lemma StaleSecondJoin(was: Value, answer: Value, other: Value) returns (schedule: seq<Proc>)
    requires !was.Object?
    ensures Exec(SecondRecall(was, answer, other), schedule) ==
      Some(Stage(Merging(2), [Member("a", was), Member("b", other)], Done, [Member("a", was), Member("a", answer)],
                 Done, [Member("a", was), Member("b", other)]))
  {
    var c, merged := SecondRecall(was, answer, other), [Member("a", answer)];
    var a, b := [Member("a", was), Member("a", answer)], [Member("a", was), Member("b", other)];
    var before := StaleFirstJoin(was, answer, other);
    SecondJoined(was, answer, other);
    ExecStep(c, before, FlowNode, Stage(Merging(1), merged, Done, a, Done, b), Stage(Merging(2), b, Done, a, Done, b));
    schedule := before + [FlowNode];
  }

  /** The node finishes with the old entry of `a`: the answer is lost. */
  lemma StaleEntryWins(was: Value, answer: Value, other: Value) returns (schedule: seq<Proc>)
    requires !was.Object?
    ensures var c := SecondRecall(was, answer, other);
      Finished(c, schedule) && NodeMap(c, schedule) == [Member("a", was), Member("b", other)]
  {
    var c := SecondRecall(was, answer, other);
    var a, b := [Member("a", was), Member("a", answer)], [Member("a", was), Member("b", other)];
    var before := StaleSecondJoin(was, answer, other);
    assert c.Kids(FlowNode) == ["a", "b"];
    ExecStep(c, before, FlowNode, Stage(Merging(2), b, Done, a, Done, b), Stage(Done, b, Done, a, Done, b));
    schedule := before + [FlowNode];
  }

  lemma MergedTwo(to: Backend, a: Member, b: Member)
    ensures Merged(to, [a, b]) == MergedOne(MergedOne(to, a), b)
  {
    assert [a, b][1..] == [b] && [b][1..] == [];
    assert Merged(MergedOne(to, a), [b]) == Merged(MergedOne(MergedOne(to, a), b), []);
  }

  /** Every value is an object, and the first entry of each of the names has a member `x`. */
  ghost predicate Marked(ms: Backend, names: set<string>) {
    && (forall m :: m in ms ==> m.value.Object?)
    && (forall k :: k in names ==> HasMember(ms, k) && Get(ms, k).Object? && HasMember(Get(ms, k).members, "x"))
  }

  lemma MarkedAdd(ms: Backend, names: set<string>, name: string, value: Value)
    requires Marked(ms, names) && value.Object?
    ensures Marked(AddMember(ms, name, value), names)
  {
    var ms' := AddMember(ms, name, value);
    assert forall m :: m in ms' ==> m in ms || m == Member(name, value);
    forall k | k in names ensures HasMember(ms', k) && Get(ms', k) == Get(ms, k) {
      PositionIs(ms', k, Position(ms, k));
    }
  }

  lemma MarkedAssign(ms: Backend, names: set<string>, name: string, from: seq<Member>)
    requires Marked(ms, names) && HasMember(ms, name) && Get(ms, name).Object?
    ensures Marked(AssignMember(ms, name, Object(Merged(Get(ms, name).members, from))), names)
  {
    var merged := Object(Merged(Get(ms, name).members, from));
    var ms' := AssignMember(ms, name, merged);
    NamesMerged(Get(ms, name).members, from);
    NamesOf(Get(ms, name).members, "x");
    NamesOf(merged.members, "x");
    assert forall m :: m in ms' ==> m in ms || m == Member(name, merged);
    forall k | k in names ensures HasMember(ms', k) && Get(ms', k) == if k == name then merged else Get(ms, k) {
      PositionIs(ms', k, Position(ms, k));
    }
  }

  lemma {:induction false} MarkedMerge(to: Backend, from: Backend, names: set<string>)
    requires Marked(to, names) && forall m :: m in from ==> m.value.Object?
    ensures Marked(Merged(to, from), names)
    decreases |from|
  {
    if from != [] {
      var m := from[0];
      if HasMember(to, m.name) {
        assert to[Position(to, m.name)] in to;
        MarkedAssign(to, names, m.name, m.value.members);
      } else {
        MarkedAdd(to, names, m.name, m.value);
      }
      MarkedMerge(MergedOne(to, m), from[1..], names);
    }
  }

  ghost predicate AllMarked(s: State, names: set<string>) {
    forall p :: p in s ==> Marked(s[p].backend, names)
  }

  lemma NextMarked(c: Config, s: State, p: Proc, names: set<string>)
    requires Enabled(c, s, p) && AllMarked(s, names)
    requires forall name :: c.Response(name).Some? ==> c.Response(name).value.Object?
    ensures AllMarked(Next(c, s, p), names)
  {
    ActorMarked(c, s, p, names);
    forall q | q in Next(c, s, p) ensures Marked(Next(c, s, p)[q].backend, names) {
      if q != p { OtherBackend(c, s, p, q); }
    }
  }

  lemma ActorMarked(c: Config, s: State, p: Proc, names: set<string>)
    requires Enabled(c, s, p) && AllMarked(s, names)
    requires forall name :: c.Response(name).Some? ==> c.Response(name).value.Object?
    ensures Marked(Next(c, s, p)[p].backend, names)
  {
    match s[p].pc
    case Issued =>
      var r := c.Response(p.name);
      if r.Some? { MarkedAdd(s[p].backend, names, p.name, r.value); }
    case Copying(_) => ActorKeeps(c, s, p);
    case Issuing(_) => ActorKeeps(c, s, p);
    case Merging(k) =>
      if k < |c.Kids(p)| { MarkedMerge(s[p].backend, s[c.Kid(p, k)].backend, names); }
    case _ =>
  }

  lemma {:induction false} ReachableMarked(c: Config, schedule: seq<Proc>, names: set<string>)
    requires Exec(c, schedule).Some? && Marked(c.start, names)
    requires forall name :: c.Response(name).Some? ==> c.Response(name).value.Object?
    ensures AllMarked(Exec(c, schedule).value, names)
  {
    if schedule != [] {
      var front := schedule[..|schedule| - 1];
      ReachableMarked(c, front, names);
      NextMarked(c, Exec(c, front).value, schedule[|schedule| - 1], names);
    }
  }

  // ---- the exact condition ----

  /** The same recall, from another map and with other answers. */
  function With(c: Config, start: Backend, responses: map<string, Option<Value>>): Config {
    c.(start := start, responses := responses)
  }

  lemma SameTree(c: Config, height: Proc -> nat, place: Proc -> (Proc, nat), start: Backend,
                 responses: map<string, Option<Value>>)
    requires IsTree(c, height, place)
    ensures IsTree(With(c, start, responses), height, place)
  {
    var c' := With(c, start, responses);
    forall p, i {:trigger c'.Kid(p, i)} | c'.Known(p) && 0 <= i < |c'.Kids(p)|
      ensures c'.Known(c'.Kid(p, i)) && height(c'.Kid(p, i)) < height(p) && place(c'.Kid(p, i)) == (p, i)
    {
      assert c.Known(p) && c.Known(c.Kid(p, i));
    }
  }

  lemma {:induction false} SameBelow(c: Config, height: Proc -> nat, start: Backend, responses: map<string, Option<Value>>,
                                     p: Proc, k: nat)
    requires k <= |c.Kids(p)|
    ensures BelowUpTo(With(c, start, responses), height, p, k) == BelowUpTo(c, height, p, k)
    decreases height(p), k
  {
    if k > 0 {
      var kid := c.Kid(p, k - 1);
      SameBelow(c, height, start, responses, p, k - 1);
      if height(kid) < height(p) { SameBelow(c, height, start, responses, kid, |c.Kids(kid)|); }
    }
  }

  /** Every reached service reads as its response. */
  ghost predicate ReadsAll(c: Config, height: Proc -> nat, schedule: seq<Proc>)
    requires Finished(c, schedule)
  {
    forall name :: name in Reached(c, height, FlowNode) ==>
      c.Response(name).Some? && Reads(NodeMap(c, schedule), name, c.Response(name).value)
  }

  ghost predicate StartsWith(start: Backend, names: set<string>) {
    DupFreeMembers(start) && Names(start) == names
  }

  /** So it does for all starts with these names, once each, all responses and all runs. */
  ghost predicate AlwaysReads(c: Config, height: Proc -> nat, names: set<string>) {
    forall start: Backend, responses: map<string, Option<Value>>, schedule: seq<Proc> ::
      StartsWith(start, names) && Unrepeated(With(c, start, responses)) && Finished(With(c, start, responses), schedule) ==>
        ReadsAll(With(c, start, responses), height, schedule)
  }

  lemma {:induction false} MarkedStart(names: set<string>) returns (start: Backend)
    ensures StartsWith(start, names) && Marked(start, names)
    decreases |names|
  {
    if names == {} {
      start := [];
    } else {
      var name :| name in names;
      var rest := names - {name};
      var ms := MarkedStart(rest);
      MarkedGrows(ms, rest, name);
      assert names == rest + {name};
      start := AddMember(ms, name, Object([Member("x", Null)]));
    }
  }

  lemma MarkedGrows(ms: Backend, names: set<string>, name: string)
    requires StartsWith(ms, names) && Marked(ms, names) && name !in names
    ensures var ms' := AddMember(ms, name, Object([Member("x", Null)]));
      StartsWith(ms', names + {name}) && Marked(ms', names + {name})
  {
    var value := Object([Member("x", Null)]);
    NamesOf(ms, name);
    NamesAdd(ms, name, value);
    DupFreeAdd(ms, name, value);
    MarkedAdd(ms, names, name, value);
    PositionIs(AddMember(ms, name, value), name, |ms|);
  }

  /** When every service answers, every service of the recall is reached. */
  lemma {:induction false} AllReached(c: Config, height: Proc -> nat, place: Proc -> (Proc, nat), p: Proc, k: nat)
    requires IsTree(c, height, place) && c.Known(p) && k <= |c.Kids(p)|
    requires forall name :: name in c.services ==> c.Response(name).Some?
    ensures BelowUpTo(c, height, p, k) == ReachedBelow(c, height, p, k)
    decreases height(p), k
  {
    if k > 0 {
      var kid := c.Kid(p, k - 1);
      assert c.Known(kid) && height(kid) < height(p);
      AllReached(c, height, place, p, k - 1);
      AllReached(c, height, place, kid, |c.Kids(kid)|);
    }
  }

  /** When every service answers with an empty object. */
  ghost predicate AllEmpty(c: Config) {
    && (forall s :: s in c.services ==> c.Response(s).Some?)
    && (forall s :: c.Response(s).Some? ==> c.Response(s).value == Object([]))
  }

  lemma EmptyAnswerLost(c: Config, height: Proc -> nat, place: Proc -> (Proc, nat), names: set<string>, name: string,
                        schedule: seq<Proc>)
    requires IsTree(c, height, place) && Marked(c.start, names) && AllEmpty(c) && Finished(c, schedule)
    requires name in names && name in Below(c, height, FlowNode)
    ensures !ReadsAll(c, height, schedule)
  {
    AllReached(c, height, place, FlowNode, |c.Kids(FlowNode)|);
    assert name in Reached(c, height, FlowNode);
    ReachableMarked(c, schedule, names);
    MarkedIsNotEmpty(NodeMap(c, schedule), names, name);
  }

  /** A service of the recall that has an entry from before can lose its answer. */
  lemma OldEntryShows(c: Config, height: Proc -> nat, place: Proc -> (Proc, nat), names: set<string>, name: string)
    requires IsTree(c, height, place) && name in names && name in Below(c, height, FlowNode)
    ensures !AlwaysReads(c, height, names)
  {
    var start := MarkedStart(names);
    var responses: map<string, Option<Value>> := map s | s in c.services :: Some(Object([]));
    SameTree(c, height, place, start, responses);
    SameBelow(c, height, start, responses, FlowNode, |c.Kids(FlowNode)|);
    var schedule := CanFinish(With(c, start, responses), height, place, []);
    EmptyAnswerLost(With(c, start, responses), height, place, names, name, schedule);
  }

  lemma MarkedIsNotEmpty(ms: Backend, names: set<string>, name: string)
    requires Marked(ms, names) && name in names
    ensures !Reads(ms, name, Object([]))
  {
    ViewLookup(Get(ms, name).members, "x");
  }

  /** Every response is read in the end, for all starts with these names, all responses and all runs, exactly
      when none of the names is that of a service of the recall. */
  lemma AlwaysReadsExactly(c: Config, height: Proc -> nat, place: Proc -> (Proc, nat), names: set<string>)
    requires IsTree(c, height, place)
    ensures AlwaysReads(c, height, names) <==> names !! Below(c, height, FlowNode)
  {
    if name :| name in names && name in Below(c, height, FlowNode) {
      OldEntryShows(c, height, place, names, name);
    } else {
      forall start: Backend, responses: map<string, Option<Value>>, schedule: seq<Proc> |
        StartsWith(start, names) && Unrepeated(With(c, start, responses)) && Finished(With(c, start, responses), schedule)
        ensures ReadsAll(With(c, start, responses), height, schedule)
      {
        SameTree(c, height, place, start, responses);
        SameBelow(c, height, start, responses, FlowNode, |c.Kids(FlowNode)|);
        RecallLosesNothing(With(c, start, responses), height, place, schedule);
      }
    }
  }
}
