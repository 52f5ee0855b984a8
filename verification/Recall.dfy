/** Asynchronous recall inside a flow node. Each service has its own context with a `backend` map, a list
    of members. The callback of a finished call appends its response there, copies the map to the services
    of the next flow, recalls them, waits for their callbacks, and merges their maps back; the node does the
    same with the services it starts. Callbacks of different services interleave freely. */
module Recall {
  import opened Json
  import opened Merge
  import opened Options

  type Backend = seq<Member>

  function Names(ms: Backend): set<string> {
    set m | m in ms :: m.name
  }

  /** A thread of control: the flow node or the callback of one service. */
  datatype Proc = FlowNode | Service(name: string)

  /** `flows` are the recall lists of the flow nodes and `recallNext` names the flow a service goes on
      to. A response is `None` for a call that fails or whose response does not parse. */
  datatype Config = Config(
    node: string,
    flows: map<string, seq<string>>,
    recallNext: map<string, string>,
    services: seq<string>,
    responses: map<string, Option<Value>>,
    start: Backend)
  {
    /** The services that a process recalls; none when the next flow is not set or not known. */
    function Kids(p: Proc): seq<string> {
      match p
      case FlowNode => if node in flows then flows[node] else []
      case Service(s) => if s in recallNext && recallNext[s] in flows then flows[recallNext[s]] else []
    }

    function Kid(p: Proc, i: nat): Proc
      requires i < |Kids(p)|
    {
      Service(Kids(p)[i])
    }

    function Response(s: string): Option<Value> {
      if s in responses then responses[s] else None
    }

    predicate Known(p: Proc) {
      p.Service? ==> p.name in services
    }

    function Procs(): set<Proc> {
      {FlowNode} + set s | s in services :: Service(s)
    }
  }

  /** Recalls form a tree over known services: `height` falls along every recall, and `place` is the one
      position where a service is recalled. */
  ghost predicate IsTree(c: Config, height: Proc -> nat, place: Proc -> (Proc, nat)) {
    forall p, i {:trigger c.Kid(p, i)} :: c.Known(p) && 0 <= i < |c.Kids(p)| ==>
      c.Known(c.Kid(p, i)) && height(c.Kid(p, i)) < height(p) && place(c.Kid(p, i)) == (p, i)
  }

  datatype Pc = Idle | Issued | Copying(k: nat) | Issuing(k: nat) | Joining | Merging(k: nat) | Done

  /** `base` remembers the names that the map had when the call was issued. */
  datatype Context = Context(pc: Pc, backend: Backend, base: set<string>)

  type State = map<Proc, Context>

  ghost function Initial(c: Config): State {
    map p | p in c.Procs() ::
      Context(if p == FlowNode then Issuing(0) else Idle, c.start, Names(c.start))
  }

  ghost predicate Enabled(c: Config, s: State, p: Proc) {
    && p in s
    && (forall i :: 0 <= i < |c.Kids(p)| ==> c.Kid(p, i) in s)
    && match s[p].pc
       case Idle => false
       case Done => false
       case Issued => p.Service?
       case Joining => forall i :: 0 <= i < |c.Kids(p)| ==> s[c.Kid(p, i)].pc == Done
       case _ => true
  }

  /** One atomic action of a process. */
  ghost function Next(c: Config, s: State, p: Proc): State
    requires Enabled(c, s, p)
  {
    var x, n := s[p], |c.Kids(p)|;
    match x.pc
    case Issued =>
      var r := c.Response(p.name);
      if r.None? then s[p := x.(pc := Done)]
      else s[p := x.(backend := AddMember(x.backend, p.name, r.value), pc := if n == 0 then Done else Copying(0))]
    case Copying(k) =>
      if k >= n then s[p := x.(pc := Issuing(0))]
      else s[c.Kid(p, k) := s[c.Kid(p, k)].(backend := x.backend)][p := x.(pc := Copying(k + 1))]
    case Issuing(k) =>
      if k >= n then s[p := x.(pc := Joining)]
      else
        var t := s[c.Kid(p, k)];
        s[c.Kid(p, k) := t.(pc := Issued, base := Names(t.backend))][p := x.(pc := Issuing(k + 1))]
    case Joining => s[p := x.(pc := Merging(0))]
    case Merging(k) =>
      if k >= n then s[p := x.(pc := Done)]
      else s[p := x.(pc := Merging(k + 1), backend := Merged(x.backend, s[c.Kid(p, k)].backend))]
  }

  /** The state after a schedule in which every process is enabled when its turn comes. */
  ghost function Exec(c: Config, schedule: seq<Proc>): Option<State> {
    if schedule == [] then Some(Initial(c))
    else
      var s, p := Exec(c, schedule[..|schedule| - 1]), schedule[|schedule| - 1];
      if s.Some? && Enabled(c, s.value, p) then Some(Next(c, s.value, p)) else None
  }

  // ---- what the outcome should be ----

  ghost predicate Succeeds(c: Config, p: Proc) {
    p.Service? ==> c.Response(p.name).Some?
  }

  ghost function Own(p: Proc): set<string> {
    if p.Service? then {p.name} else {}
  }

  /** The services that answer successfully among `p` and everything recalled below it. */
  ghost function Reached(c: Config, height: Proc -> nat, p: Proc): set<string>
    decreases height(p), 1, 0
  {
    if Succeeds(c, p) then Own(p) + ReachedBelow(c, height, p, |c.Kids(p)|) else {}
  }

  ghost function ReachedBelow(c: Config, height: Proc -> nat, p: Proc, k: nat): set<string>
    requires k <= |c.Kids(p)|
    decreases height(p), 0, k
  {
    if k == 0 then {}
    else
      ReachedBelow(c, height, p, k - 1) +
      if height(c.Kid(p, k - 1)) < height(p) then Reached(c, height, c.Kid(p, k - 1)) else {}
  }

  // ---- the invariant ----

  /** The names in the map of a context, from where its process stands. */
  ghost predicate Entries(c: Config, height: Proc -> nat, x: Context, p: Proc) {
    var keys, n := Names(x.backend), |c.Kids(p)|;
    match x.pc
    case Idle => true
    case Issued => keys == x.base && p.Service?
    case Copying(k) => keys == x.base + Own(p) && k <= n && Succeeds(c, p)
    case Issuing(k) => keys == x.base + Own(p) && k <= n && Succeeds(c, p)
    case Joining => keys == x.base + Own(p) && Succeeds(c, p)
    case Merging(k) => k <= n && keys == x.base + Own(p) + ReachedBelow(c, height, p, k) && Succeeds(c, p)
    case Done => keys == x.base + Reached(c, height, p)
  }

  /** How far the `i`-th service that a process recalls is, from where the process stands. */
  ghost predicate KidStage(x: Context, ok: bool, own: set<string>, i: nat, t: Context) {
    var copied := t.pc == Idle && Names(t.backend) == x.base + own;
    var started := t.pc != Idle && t.base == x.base + own;
    match x.pc
    case Idle => t.pc == Idle
    case Issued => t.pc == Idle
    case Copying(k) => t.pc == Idle && (i < k ==> copied)
    case Issuing(k) => if i < k then started else copied
    case Joining => started
    case Merging(_) => started && t.pc == Done
    case Done => if ok then started && t.pc == Done else t.pc == Idle
  }

  ghost predicate KidOf(c: Config, s: State, p: Proc, i: nat)
    requires p in s && i < |c.Kids(p)| && c.Kid(p, i) in s
  {
    KidStage(s[p], Succeeds(c, p), Own(p), i, s[c.Kid(p, i)])
  }

  ghost predicate Total(c: Config, s: State) {
    forall p :: p in s <==> c.Known(p)
  }

  ghost predicate Inv(c: Config, height: Proc -> nat, place: Proc -> (Proc, nat), s: State)
    requires IsTree(c, height, place)
  {
    && Total(c, s)
    && s[FlowNode].base == Names(c.start) && s[FlowNode].pc != Idle
    && (forall p :: p in s ==> Entries(c, height, s[p], p))
    && (forall p, i {:trigger c.Kid(p, i)} :: p in s && 0 <= i < |c.Kids(p)| ==> KidOf(c, s, p, i))
  }

  lemma InitialInv(c: Config, height: Proc -> nat, place: Proc -> (Proc, nat))
    requires IsTree(c, height, place)
    ensures Inv(c, height, place, Initial(c))
  {
    forall p, i | p in c.Procs() && 0 <= i < |c.Kids(p)| ensures KidOf(c, Initial(c), p, i) {
      assert c.Known(c.Kid(p, i)) && c.Kid(p, i) in Initial(c);
    }
  }

  lemma NamesOf(ms: Backend, name: string)
    ensures name in Names(ms) <==> HasMember(ms, name)
  {
    if HasMember(ms, name) { assert ms[Position(ms, name)] in ms; }
  }

  lemma NamesAdd(ms: Backend, name: string, value: Value)
    ensures Names(AddMember(ms, name, value)) == Names(ms) + {name}
  {
    var ms' := AddMember(ms, name, value);
    assert forall m :: m in ms' <==> m in ms || m == Member(name, value);
  }

  lemma NamesReplaced(ms: Backend, name: string, value: Value)
    requires HasMember(ms, name)
    ensures Names(AddMember(EraseMember(ms, name), name, value)) == Names(ms)
  {
    var i := Position(ms, name);
    assert ms == ms[..i] + [ms[i]] + ms[i + 1..];
    NamesAdd(EraseMember(ms, name), name, value);
    NamesOf(ms, name);
    assert forall m :: m in ms <==> m in EraseMember(ms, name) || m == ms[i];
  }

  lemma NamesAssigned(ms: Backend, name: string, value: Value)
    requires HasMember(ms, name)
    ensures Names(AssignMember(ms, name, value)) == Names(ms)
  {
    var i, ms' := Position(ms, name), AssignMember(ms, name, value);
    forall n ensures n in Names(ms') <==> n in Names(ms) {
      NamesOf(ms, n);
      NamesOf(ms', n);
      if HasMember(ms, n) { assert ms'[Position(ms, n)].name == n; }
      if HasMember(ms', n) { assert ms[Position(ms', n)].name == n; }
    }
  }

  /** A merge has the names of both sides, whatever is repeated in them. */
  lemma {:induction false} NamesMerged(to: Backend, from: Backend)
    ensures Names(Merged(to, from)) == Names(to) + Names(from)
    decreases |from|
  {
    if from != [] {
      var m := from[0];
      assert from == [m] + from[1..];
      NamesOf(to, m.name);
      if !HasMember(to, m.name) {
        NamesAdd(to, m.name, m.value);
      } else if Get(to, m.name).Object? && m.value.Object? {
        NamesAssigned(to, m.name, Object(Merged(Get(to, m.name).members, m.value.members)));
      } else {
        NamesReplaced(to, m.name, m.value);
      }
      NamesMerged(MergedOne(to, m), from[1..]);
    }
  }

  /** The context of the acting process after its step. */
  lemma ActorStep(c: Config, height: Proc -> nat, s: State, p: Proc)
    requires Enabled(c, s, p) && Entries(c, height, s[p], p)
    requires forall i :: 0 <= i < |c.Kids(p)| ==>
      KidOf(c, s, p, i) && Entries(c, height, s[c.Kid(p, i)], c.Kid(p, i)) && height(c.Kid(p, i)) < height(p)
    ensures Entries(c, height, Next(c, s, p)[p], p)
  {
    match s[p].pc
    case Issued => ActorAnswered(c, height, s, p);
    case Merging(k) =>
      if k < |c.Kids(p)| {
        assert KidOf(c, s, p, k) && height(c.Kid(p, k)) < height(p);
        ActorMerged(c, height, s, p, k);
      }
    case _ =>
  }

  lemma ActorAnswered(c: Config, height: Proc -> nat, s: State, p: Proc)
    requires Enabled(c, s, p) && s[p].pc == Issued && Entries(c, height, s[p], p)
    ensures Entries(c, height, Next(c, s, p)[p], p)
  {
    var r := c.Response(p.name);
    if r.Some? { NamesAdd(s[p].backend, p.name, r.value); }
  }

  lemma ActorMerged(c: Config, height: Proc -> nat, s: State, p: Proc, k: nat)
    requires Enabled(c, s, p) && s[p].pc == Merging(k) && k < |c.Kids(p)|
    requires Entries(c, height, s[p], p) && KidOf(c, s, p, k)
    requires var t := c.Kid(p, k); Entries(c, height, s[t], t) && height(t) < height(p)
    ensures Entries(c, height, Next(c, s, p)[p], p)
  {
    KidKeys(c, height, s, p, k);
    NextMerged(c, s, p, k);
    MergedEntries(c, height, s[p], p, k, s[c.Kid(p, k)].backend);
  }

  lemma NextMerged(c: Config, s: State, p: Proc, k: nat)
    requires Enabled(c, s, p) && s[p].pc == Merging(k) && k < |c.Kids(p)|
    ensures Next(c, s, p)[p] == s[p].(pc := Merging(k + 1), backend := Merged(s[p].backend, s[c.Kid(p, k)].backend))
  {
  }

  /** A recalled service that is done has what its caller gave it and what was reached from it. */
  lemma KidKeys(c: Config, height: Proc -> nat, s: State, p: Proc, k: nat)
    requires p in s && k < |c.Kids(p)| && c.Kid(p, k) in s && s[p].pc.Merging? && KidOf(c, s, p, k)
    requires Entries(c, height, s[c.Kid(p, k)], c.Kid(p, k))
    ensures Names(s[c.Kid(p, k)].backend) == s[p].base + Own(p) + Reached(c, height, c.Kid(p, k))
  {
  }

  lemma MergedEntries(c: Config, height: Proc -> nat, x: Context, p: Proc, k: nat, b: Backend)
    requires x.pc == Merging(k) && k < |c.Kids(p)| && Entries(c, height, x, p)
    requires height(c.Kid(p, k)) < height(p)
    requires Names(b) == x.base + Own(p) + Reached(c, height, c.Kid(p, k))
    ensures Entries(c, height, x.(pc := Merging(k + 1), backend := Merged(x.backend, b)), p)
  {
    NamesMerged(x.backend, b);
    assert ReachedBelow(c, height, p, k + 1) == ReachedBelow(c, height, p, k) + Reached(c, height, c.Kid(p, k));
  }

  /** The acting process and the services it recalls. */
  lemma OwnKidStep(c: Config, height: Proc -> nat, s: State, p: Proc, i: nat)
    requires Enabled(c, s, p) && Entries(c, height, s[p], p)
    requires i < |c.Kids(p)| && c.Kid(p, i) != p
    requires forall j {:trigger c.Kid(p, j)} :: 0 <= j < |c.Kids(p)| ==>
      KidOf(c, s, p, j) && (j != i ==> c.Kid(p, j) != c.Kid(p, i))
    ensures c.Kid(p, i) in Next(c, s, p) && KidOf(c, Next(c, s, p), p, i)
  {
    assert KidOf(c, s, p, i);
  }

  /** The acting process as one of the services that `q` recalls. */
  lemma ParentStep(c: Config, height: Proc -> nat, s: State, p: Proc, q: Proc, i: nat)
    requires Enabled(c, s, p) && Entries(c, height, s[p], p)
    requires q in s && q != p && i < |c.Kids(q)| && c.Kid(q, i) == p && KidOf(c, s, q, i)
    requires forall j {:trigger c.Kid(p, j)} :: 0 <= j < |c.Kids(p)| ==> c.Kid(p, j) != p && c.Kid(p, j) != q
    ensures q in Next(c, s, p) && KidOf(c, Next(c, s, p), q, i)
  {
  }

  /** Any other pair of a process and a service it recalls. */
  lemma OtherKidStep(c: Config, height: Proc -> nat, s: State, p: Proc, q: Proc, i: nat)
    requires Enabled(c, s, p) && Entries(c, height, s[p], p)
    requires q in s && q != p && i < |c.Kids(q)| && c.Kid(q, i) in s && c.Kid(q, i) != p && KidOf(c, s, q, i)
    requires forall j {:trigger c.Kid(p, j)} :: 0 <= j < |c.Kids(p)| ==> c.Kid(p, j) != c.Kid(q, i) && KidOf(c, s, p, j)
    ensures q in Next(c, s, p) && c.Kid(q, i) in Next(c, s, p) && KidOf(c, Next(c, s, p), q, i)
  {
    if (s[p].pc.Copying? || s[p].pc.Issuing?) && s[p].pc.k < |c.Kids(p)| {
      assert KidOf(c, s, p, s[p].pc.k);
    }
  }

  /** A context that is not the acting process's. */
  lemma BystanderStep(c: Config, height: Proc -> nat, s: State, p: Proc, q: Proc)
    requires Enabled(c, s, p) && Entries(c, height, s[p], p)
    requires q in s && q != p && Entries(c, height, s[q], q)
    requires forall j {:trigger c.Kid(p, j)} :: 0 <= j < |c.Kids(p)| ==> KidOf(c, s, p, j)
    ensures q in Next(c, s, p) && Entries(c, height, Next(c, s, p)[q], q)
  {
    if (s[p].pc.Copying? || s[p].pc.Issuing?) && s[p].pc.k < |c.Kids(p)| {
      assert KidOf(c, s, p, s[p].pc.k);
    }
  }

  /** The services that a process recalls are other processes, recalled from one place only. */
  lemma KidsApart(c: Config, height: Proc -> nat, place: Proc -> (Proc, nat), s: State, p: Proc)
    requires IsTree(c, height, place) && Inv(c, height, place, s) && p in s
    ensures forall i {:trigger c.Kid(p, i)} {:trigger KidOf(c, s, p, i)} :: 0 <= i < |c.Kids(p)| ==>
      KidOf(c, s, p, i) && c.Kid(p, i) in s && height(c.Kid(p, i)) < height(p) && place(c.Kid(p, i)) == (p, i)
  {
    forall i | 0 <= i < |c.Kids(p)|
      ensures KidOf(c, s, p, i) && c.Kid(p, i) in s && height(c.Kid(p, i)) < height(p) && place(c.Kid(p, i)) == (p, i)
    {
      assert c.Known(p) && c.Known(c.Kid(p, i));
    }
  }

  /** The process whose call is issued in this step, if any. */
  ghost predicate Starts(c: Config, s: State, p: Proc, q: Proc)
    requires p in s
  {
    s[p].pc.Issuing? && s[p].pc.k < |c.Kids(p)| && q == c.Kid(p, s[p].pc.k)
  }

  lemma OtherBase(c: Config, s: State, p: Proc, q: Proc)
    requires Enabled(c, s, p) && q in Next(c, s, p) && !Starts(c, s, p, q)
    ensures q in s && Next(c, s, p)[q].base == s[q].base
  {
  }

  lemma OtherPc(c: Config, s: State, p: Proc, q: Proc)
    requires Enabled(c, s, p) && q in s && q != p
    requires forall j {:trigger c.Kid(p, j)} :: 0 <= j < |c.Kids(p)| ==> KidOf(c, s, p, j)
    ensures q in Next(c, s, p)
    ensures Next(c, s, p)[q].pc == s[q].pc || (s[q].pc == Idle && Next(c, s, p)[q].pc == Issued)
  {
    if s[p].pc.Issuing? && s[p].pc.k < |c.Kids(p)| {
      assert KidOf(c, s, p, s[p].pc.k);
    }
  }

  /** What stays the same in every step. */
  lemma NextFrame(c: Config, height: Proc -> nat, place: Proc -> (Proc, nat), s: State, p: Proc)
    requires IsTree(c, height, place) && Inv(c, height, place, s) && Enabled(c, s, p)
    ensures Total(c, Next(c, s, p))
    ensures Next(c, s, p)[FlowNode].base == s[FlowNode].base && Next(c, s, p)[FlowNode].pc != Idle
  {
    KidsApart(c, height, place, s, p);
    assert Next(c, s, p).Keys == s.Keys;
    assert c.Known(FlowNode) && FlowNode in s && !Starts(c, s, p, FlowNode);
    OtherBase(c, s, p, FlowNode);
    if p != FlowNode { OtherPc(c, s, p, FlowNode); }
  }

  lemma NextInv(c: Config, height: Proc -> nat, place: Proc -> (Proc, nat), s: State, p: Proc)
    requires IsTree(c, height, place) && Inv(c, height, place, s) && Enabled(c, s, p)
    ensures Inv(c, height, place, Next(c, s, p))
  {
    var s' := Next(c, s, p);
    NextFrame(c, height, place, s, p);
    KidsApart(c, height, place, s, p);
    assert c.Known(p);
    forall q | q in s' ensures Entries(c, height, s'[q], q) {
      assert c.Known(q) && q in s;
      if q == p { ActorStep(c, height, s, p); } else { BystanderStep(c, height, s, p, q); }
    }
    forall q, i | q in s' && 0 <= i < |c.Kids(q)| ensures KidOf(c, s', q, i) {
      assert c.Known(q) && q in s;
      KidsApart(c, height, place, s, q);
      var t := c.Kid(q, i);
      if q == p { OwnKidStep(c, height, s, p, i); }
      else if t == p { ParentStep(c, height, s, p, q, i); }
      else { OtherKidStep(c, height, s, p, q, i); }
    }
  }

  /** The invariant holds after every run. */
  lemma {:induction false} ReachableInv(c: Config, height: Proc -> nat, place: Proc -> (Proc, nat), schedule: seq<Proc>)
    requires IsTree(c, height, place) && Exec(c, schedule).Some?
    ensures Inv(c, height, place, Exec(c, schedule).value)
  {
    if schedule == [] {
      InitialInv(c, height, place);
    } else {
      var front, p := schedule[..|schedule| - 1], schedule[|schedule| - 1];
      ReachableInv(c, height, place, front);
      NextInv(c, height, place, Exec(c, front).value, p);
    }
  }

  // ---- every run ends, and only when the node is done ----

  /** The actions left to a process. */
  ghost function Left(pc: Pc, n: nat): nat {
    match pc
    case Idle => 3 * n + 6
    case Issued => 3 * n + 5
    case Copying(k) => if k <= n then 3 * n + 4 - k else 0
    case Issuing(k) => if k <= n then 2 * n + 3 - k else 0
    case Joining => n + 2
    case Merging(k) => if k <= n then n + 1 - k else 0
    case Done => 0
  }

  ghost function TotalLeft(c: Config, s: State, ps: seq<Proc>): nat {
    if ps == [] then 0
    else (if ps[0] in s then Left(s[ps[0]].pc, |c.Kids(ps[0])|) else 0) + TotalLeft(c, s, ps[1..])
  }

  ghost function AllProcs(c: Config): seq<Proc> {
    [FlowNode] + seq(|c.services|, i requires 0 <= i < |c.services| => Service(c.services[i]))
  }

  lemma {:induction false} TotalFalls(c: Config, s: State, s': State, ps: seq<Proc>, p: Proc)
    requires forall q :: q in s <==> q in s'
    requires forall q :: q in s ==> Left(s'[q].pc, |c.Kids(q)|) <= Left(s[q].pc, |c.Kids(q)|)
    requires p in s && Left(s'[p].pc, |c.Kids(p)|) < Left(s[p].pc, |c.Kids(p)|)
    ensures TotalLeft(c, s', ps) <= TotalLeft(c, s, ps)
    ensures p in ps ==> TotalLeft(c, s', ps) < TotalLeft(c, s, ps)
  {
    if ps != [] { TotalFalls(c, s, s', ps[1..], p); }
  }

  lemma LeftFalls(c: Config, height: Proc -> nat, s: State, p: Proc)
    requires Enabled(c, s, p) && Entries(c, height, s[p], p)
    requires forall j {:trigger c.Kid(p, j)} {:trigger KidOf(c, s, p, j)} :: 0 <= j < |c.Kids(p)| ==>
      KidOf(c, s, p, j) && c.Kid(p, j) != p
    ensures forall q :: q in s <==> q in Next(c, s, p)
    ensures forall q :: q in s ==> Left(Next(c, s, p)[q].pc, |c.Kids(q)|) <= Left(s[q].pc, |c.Kids(q)|)
    ensures Left(Next(c, s, p)[p].pc, |c.Kids(p)|) < Left(s[p].pc, |c.Kids(p)|)
  {
    ActorLeft(c, height, s, p);
    forall q | q in s && q != p
      ensures q in Next(c, s, p) && Left(Next(c, s, p)[q].pc, |c.Kids(q)|) <= Left(s[q].pc, |c.Kids(q)|)
    {
      OtherPc(c, s, p, q);
    }
    assert Next(c, s, p).Keys == s.Keys;
  }

  lemma ActorLeft(c: Config, height: Proc -> nat, s: State, p: Proc)
    requires Enabled(c, s, p) && Entries(c, height, s[p], p)
    requires forall j {:trigger c.Kid(p, j)} :: 0 <= j < |c.Kids(p)| ==> c.Kid(p, j) != p
    ensures p in Next(c, s, p) && Left(Next(c, s, p)[p].pc, |c.Kids(p)|) < Left(s[p].pc, |c.Kids(p)|)
  {
  }

  lemma AmongAll(c: Config, p: Proc)
    requires c.Known(p)
    ensures p in AllProcs(c)
  {
    if p.Service? {
      var i :| 0 <= i < |c.services| && c.services[i] == p.name;
      assert AllProcs(c)[i + 1] == p;
    } else {
      assert AllProcs(c)[0] == p;
    }
  }

  lemma StepFalls(c: Config, height: Proc -> nat, place: Proc -> (Proc, nat), s: State, p: Proc)
    requires IsTree(c, height, place) && Inv(c, height, place, s) && Enabled(c, s, p)
    ensures TotalLeft(c, Next(c, s, p), AllProcs(c)) < TotalLeft(c, s, AllProcs(c))
  {
    assert c.Known(p);
    KidsApart(c, height, place, s, p);
    LeftFalls(c, height, s, p);
    AmongAll(c, p);
    TotalFalls(c, s, Next(c, s, p), AllProcs(c), p);
  }

  /** No run is longer than the actions that the processes have at the start. */
  lemma {:induction false} EveryRunEnds(c: Config, height: Proc -> nat, place: Proc -> (Proc, nat), schedule: seq<Proc>)
    requires IsTree(c, height, place) && Exec(c, schedule).Some?
    ensures |schedule| + TotalLeft(c, Exec(c, schedule).value, AllProcs(c)) <= TotalLeft(c, Initial(c), AllProcs(c))
  {
    if schedule != [] {
      var front, p := schedule[..|schedule| - 1], schedule[|schedule| - 1];
      EveryRunEnds(c, height, place, front);
      ReachableInv(c, height, place, front);
      StepFalls(c, height, place, Exec(c, front).value, p);
    }
  }

  /** A process that has been started and is not done, or one it waits for, can act. */
  lemma {:induction false} SomeoneCanAct(c: Config, height: Proc -> nat, place: Proc -> (Proc, nat), s: State, p: Proc)
    requires IsTree(c, height, place) && Inv(c, height, place, s)
    requires p in s && s[p].pc != Idle && s[p].pc != Done
    ensures exists q :: Enabled(c, s, q)
    decreases height(p)
  {
    assert c.Known(p) && Entries(c, height, s[p], p);
    forall i | 0 <= i < |c.Kids(p)| ensures c.Kid(p, i) in s && height(c.Kid(p, i)) < height(p) && KidOf(c, s, p, i) {
      assert c.Known(c.Kid(p, i));
    }
    if !Enabled(c, s, p) {
      var i :| 0 <= i < |c.Kids(p)| && s[c.Kid(p, i)].pc != Done;
      SomeoneCanAct(c, height, place, s, c.Kid(p, i));
    }
  }

  /** A run that cannot be continued has finished the node: no interleaving deadlocks. */
  lemma NodeFinishes(c: Config, height: Proc -> nat, place: Proc -> (Proc, nat), schedule: seq<Proc>)
    requires IsTree(c, height, place) && Exec(c, schedule).Some?
    requires forall p :: !Enabled(c, Exec(c, schedule).value, p)
    ensures FlowNode in Exec(c, schedule).value && Exec(c, schedule).value[FlowNode].pc == Done
  {
    var s := Exec(c, schedule).value;
    ReachableInv(c, height, place, schedule);
    assert c.Known(FlowNode);
    if s[FlowNode].pc != Done {
      SomeoneCanAct(c, height, place, s, FlowNode);
    }
  }

  ghost predicate Finished(c: Config, schedule: seq<Proc>) {
    && Exec(c, schedule).Some? && FlowNode in Exec(c, schedule).value
    && Exec(c, schedule).value[FlowNode].pc == Done
  }

  /** Every run can be continued until the node is done. */
  lemma {:induction false} CanFinish(c: Config, height: Proc -> nat, place: Proc -> (Proc, nat), schedule: seq<Proc>)
      returns (finished: seq<Proc>)
    requires IsTree(c, height, place) && Exec(c, schedule).Some?
    ensures schedule <= finished && Finished(c, finished)
    decreases TotalLeft(c, Exec(c, schedule).value, AllProcs(c))
  {
    var s := Exec(c, schedule).value;
    if p :| Enabled(c, s, p) {
      ReachableInv(c, height, place, schedule);
      StepFalls(c, height, place, s, p);
      assert (schedule + [p])[..|schedule|] == schedule;
      finished := CanFinish(c, height, place, schedule + [p]);
    } else {
      NodeFinishes(c, height, place, schedule);
      finished := schedule;
    }
  }
}
