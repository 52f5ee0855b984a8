/** The walk over flow nodes: intervention rules jump, a node runs in a fresh scope, its output is
    merged into the result, and its `next` names the node that follows. */
module Walk {
  import opened Json
  import opened Merge
  import opened Options
  import opened Scope
  import Branch

  // ---- intervention jumps inside one node ----

  /** What the intervention rules of a node say: nothing (or an unknown target), a known target, or an
      error. */
  datatype Hop = Stay | Jump(target: string) | Fail

  /** The node after `k` jumps, if there are that many. */
  function After(hop: string -> Hop, node: string, k: nat): Option<string> {
    if k == 0 then Some(node)
    else
      var before := After(hop, node, k - 1);
      if before.Some? && hop(before.value).Jump? then Some(hop(before.value).target) else None
  }

  ghost predicate EndsAt(hop: string -> Hop, node: string, k: nat) {
    After(hop, node, k).Some? && !hop(After(hop, node, k).value).Jump?
  }

  /** The loop of `single_node`; it runs for ever when the jumps do not end. */
  method FollowInterventions(hop: string -> Hop, start: string) returns (ret: int, node: string)
    requires exists n: nat :: EndsAt(hop, start, n)
    ensures exists k: nat :: EndsAt(hop, start, k) && After(hop, start, k) == Some(node)
    ensures ret == if hop(node) == Fail then -1 else 0
  {
    ghost var n: nat :| EndsAt(hop, start, n);
    ghost var k: nat := 0;
    node := start;
    while true
      invariant k <= n && After(hop, start, k) == Some(node)
      decreases n - k
    {
      var h := hop(node);
      if h == Fail {
        return -1, node;
      }
      if h == Stay {
        return 0, node;
      }
      NoJumpAfterEnd(hop, start, n, k);
      node := h.target;
      k := k + 1;
    }
  }

  lemma {:induction false} NoJumpAfterEnd(hop: string -> Hop, start: string, n: nat, k: nat)
    requires EndsAt(hop, start, n) && k < n
    ensures After(hop, start, k).Some? && hop(After(hop, start, k).value).Jump?
    decreases n - k
  {
    if k + 1 < n { NoJumpAfterEnd(hop, start, n, k + 1); }
  }

  ghost predicate NoRepeat(hop: string -> Hop, start: string) {
    forall i: nat, j: nat :: i < j && After(hop, start, i).Some? && After(hop, start, j).Some? ==>
      After(hop, start, i) != After(hop, start, j)
  }

  lemma {:induction false} AfterSum(hop: string -> Hop, start: string, i: nat, m: nat)
    requires After(hop, start, i).Some?
    ensures After(hop, start, i + m) == After(hop, After(hop, start, i).value, m)
  {
    if m > 0 { AfterSum(hop, start, i, m - 1); }
  }

  lemma {:induction false} SomeBefore(hop: string -> Hop, start: string, i: nat, j: nat)
    requires i <= j && After(hop, start, j).Some?
    ensures After(hop, start, i).Some?
    decreases j - i
  {
    if i < j { SomeBefore(hop, start, i, j - 1); }
  }

  lemma RepeatNeverEnds(hop: string -> Hop, start: string, i: nat, j: nat, n: nat)
    requires i < j && After(hop, start, i).Some? && After(hop, start, i) == After(hop, start, j)
    ensures !EndsAt(hop, start, n)
  {
    if EndsAt(hop, start, n) {
      if n < j {
        if n < j - 1 { SomeBefore(hop, start, n + 1, j); }
      } else {
        AfterSum(hop, start, i, n - j);
        AfterSum(hop, start, j, n - j);
        NoJumpAfterEnd(hop, start, n, i + (n - j));
      }
    }
  }

  lemma {:induction false} DistinctFit(xs: seq<string>, s: set<string>)
    requires (forall i, j :: 0 <= i < j < |xs| ==> xs[i] != xs[j]) && forall x :: x in xs ==> x in s
    ensures |xs| <= |s|
  {
    if xs != [] {
      var n := |xs| - 1;
      DistinctFit(xs[..n], s - {xs[n]});
      assert xs[n] in s;
    }
  }

  lemma {:induction false} StaysInside(hop: string -> Hop, nodes: set<string>, start: string, k: nat)
    requires start in nodes && forall n :: n in nodes && hop(n).Jump? ==> hop(n).target in nodes
    ensures After(hop, start, k).Some? ==> After(hop, start, k).value in nodes
  {
    if k > 0 { StaysInside(hop, nodes, start, k - 1); }
  }

  lemma VisitsAreFew(hop: string -> Hop, nodes: set<string>, start: string, k: nat)
    requires start in nodes && forall n :: n in nodes && hop(n).Jump? ==> hop(n).target in nodes
    requires NoRepeat(hop, start) && After(hop, start, k).Some?
    ensures k < |nodes|
  {
    forall i: nat | i <= k ensures After(hop, start, i).Some? && After(hop, start, i).value in nodes {
      SomeBefore(hop, start, i, k);
      StaysInside(hop, nodes, start, i);
    }
    var trail := seq(k + 1, i requires 0 <= i <= k => After(hop, start, i).value);
    forall i, j | 0 <= i < j < |trail| ensures trail[i] != trail[j] {
      assert After(hop, start, i) != After(hop, start, j);
    }
    DistinctFit(trail, nodes);
  }

  /** The jumps end exactly when no node comes up twice, and then after fewer jumps than there are nodes. */
  lemma JumpsEndExactly(hop: string -> Hop, nodes: set<string>, start: string)
    requires start in nodes && forall n :: n in nodes && hop(n).Jump? ==> hop(n).target in nodes
    ensures (exists k: nat :: EndsAt(hop, start, k)) <==> NoRepeat(hop, start)
    ensures forall k: nat :: EndsAt(hop, start, k) ==> k < |nodes|
  {
    if NoRepeat(hop, start) {
      if After(hop, start, |nodes|).Some? {
        VisitsAreFew(hop, nodes, start, |nodes|);
      }
      var k := LastJump(hop, start, |nodes|);
    }
    forall k: nat | EndsAt(hop, start, k) ensures NoRepeat(hop, start) && k < |nodes| {
      forall i: nat, j: nat | i < j && After(hop, start, i).Some? && After(hop, start, j).Some?
        ensures After(hop, start, i) != After(hop, start, j)
      {
        if After(hop, start, i) == After(hop, start, j) { RepeatNeverEnds(hop, start, i, j, k); }
      }
      VisitsAreFew(hop, nodes, start, k);
    }
  }

  lemma {:induction false} LastJump(hop: string -> Hop, start: string, n: nat) returns (k: nat)
    requires After(hop, start, n).None?
    ensures EndsAt(hop, start, k)
  {
    if After(hop, start, n - 1).Some? { k := n - 1; } else { k := LastJump(hop, start, n - 1); }
  }

  // ---- the walk from node to node ----

  /** A flow policy. `intervene` is the target flow that the rules of a node give (empty for none, `None`
      for an error) and `kernel` the definitions, the recall and the ranking: the variables of the node's
      scope and the new backend map. Both see the variables of the top scope; what the services answer may
      differ from one turn of the walk to the next. */
  datatype Policy = Policy(
    startFlow: string,
    nodes: map<string, Branch.OutputConfig>,
    intervene: (string, seq<Member>) -> Option<string>,
    kernel: (string, seq<Member>, nat) -> Option<(seq<Member>, Value)>,
    eval: Branch.Evaluator)
  {
    predicate Valid() {
      startFlow in nodes && forall n :: n in nodes ==> nodes[n].Valid()
    }

    function HopFrom(top: seq<Member>): string -> Hop {
      node =>
        var target := intervene(node, top);
        if target.None? then Fail
        else if target.value == "" || target.value !in nodes then Stay
        else Jump(target.value)
    }
  }

  /** The top scope holds the request, the backend map and the result, which is an object. */
  predicate TopShape(top: seq<Member>) {
    && |top| == 3 && top[0].name == "request" && top[1].name == "backend" && top[2].name == "result"
    && top[2].value.Object?
  }

  function ResultOf(top: seq<Member>): seq<Member>
    requires TopShape(top)
  {
    top[2].value.members
  }

  lemma TopLookup(top: seq<Member>)
    requires TopShape(top)
    ensures Position(top, "request") == 0 && Position(top, "backend") == 1 && Position(top, "result") == 2
    ensures !HasMember(top, "output") && !HasMember(top, "next")
  {
    PositionIs(top, "request", 0);
    PositionIs(top, "backend", 1);
    PositionIs(top, "result", 2);
    assert forall i :: 0 <= i < |top| ==> top[i].name != "output" && top[i].name != "next";
  }

  datatype Visit = Broken | Visited(output: Option<Value>, top: seq<Member>, next: Option<Value>)

  /** A node after the jumps: its scope is new, so what an earlier node set there is not seen. */
  function VisitNode(p: Policy, node: string, top: seq<Member>, round: nat): (v: Visit)
    requires p.Valid() && node in p.nodes && TopShape(top)
    ensures v.Visited? ==> TopShape(v.top)
  {
    var kernel := p.kernel(node, top, round);
    if kernel.None? then Broken
    else
      var top1 := top[1 := Member("backend", kernel.value.1)];
      var (fs, ret) := Branch.Choose(p.nodes[node], p.nodes[node].ifs, [kernel.value.0, top1], p.eval);
      if ret != 0 then Broken
      else
        var output := Lookup(fs, "output");
        Visited(output,
                if output.Some? && output.value.Object?
                then top1[2 := Member("result", Object(Merged(ResultOf(top), output.value.members)))] else top1,
                Lookup(fs, "next"))
  }

  /** One node: the kernel, the output blocks, and the merge of the output into the result. */
  method RunNode(p: Policy, node: string, round: nat, topContext: ExpressionContext, flowContext: ExpressionContext)
    returns (ret: int)
    requires p.Valid() && node in p.nodes && topContext.Valid() && flowContext.Valid()
    requires flowContext.chain == [flowContext, topContext] && TopShape(topContext.variables)
    modifies topContext, flowContext
    ensures ret == if VisitNode(p, node, old(topContext.variables), round).Broken? then -1 else 0
    ensures ret == 0 ==> topContext.variables == VisitNode(p, node, old(topContext.variables), round).top
    ensures ret == 0 ==> Lookup(flowContext.Frames(), "next") == VisitNode(p, node, old(topContext.variables), round).next
  {
    var top := topContext.variables;
    var kernel := p.kernel(node, top, round);
    if kernel.None? {
      return -1;
    }
    flowContext.variables := kernel.value.0;
    topContext.variables := top[1 := Member("backend", kernel.value.1)];
    ghost var fs := [kernel.value.0, topContext.variables];
    assert flowContext.Frames() == fs;
    NodeScopes(p, node, fs);
    ret := Branch.Output(p.nodes[node], flowContext, p.eval);
    if ret != 0 {
      return -1;
    }
    assert topContext.variables == flowContext.Frames()[1];
    var output := flowContext.GetVariable("output");
    if output.Some? && output.value.Object? {
      ghost var own, top1 := flowContext.variables, topContext.variables;
      assert flowContext.Frames() == [own, top1];
      MergeResult(topContext, output.value);
      assert flowContext.Frames() == [own, topContext.variables];
      NextUnmoved(own, top1, topContext.variables);
    }
  }

  /** The output blocks of a node change nothing in the top scope. */
  lemma NodeScopes(p: Policy, node: string, fs: Frames)
    requires p.Valid() && node in p.nodes && |fs| == 2 && TopShape(fs[1])
    ensures var r := Branch.Choose(p.nodes[node], p.nodes[node].ifs, fs, p.eval).0; |r| == 2 && r[1] == fs[1]
  {
    TopLookup(fs[1]);
    assert fs[1..] == [fs[1]] && [fs[1]][1..] == [];
    Branch.ChooseKeepsOuter(p.nodes[node], p.nodes[node].ifs, fs, p.eval);
    var r := Branch.Choose(p.nodes[node], p.nodes[node].ifs, fs, p.eval).0;
    assert r[1..][0] == r[1];
  }

  lemma NextUnmoved(own: seq<Member>, top: seq<Member>, top': seq<Member>)
    requires TopShape(top) && TopShape(top')
    ensures Lookup([own, top], "next") == Lookup([own, top'], "next")
  {
    TopLookup(top);
    TopLookup(top');
    assert [own, top][1..] == [top] && [own, top'][1..] == [top'] && [top][1..] == [] && [top'][1..] == [];
  }

  /** The successor of a node is read in the node's own scope; whatever ran before, the shared scope binds
      none. */
  lemma NextIsOwn(p: Policy, node: string, top: seq<Member>, round: nat)
    requires p.Valid() && node in p.nodes && TopShape(top) && VisitNode(p, node, top, round).Visited?
    ensures !HasMember(top, "next") && !HasMember(VisitNode(p, node, top, round).top, "next")
    ensures var (own, backend) := p.kernel(node, top, round).value;
      var fs := Branch.Choose(p.nodes[node], p.nodes[node].ifs,
                              [own, top[1 := Member("backend", backend)]], p.eval).0;
      VisitNode(p, node, top, round).next == Lookup([fs[0]], "next")
  {
    var (own, backend) := p.kernel(node, top, round).value;
    var top1 := top[1 := Member("backend", backend)];
    var fs := Branch.Choose(p.nodes[node], p.nodes[node].ifs, [own, top1], p.eval).0;
    TopLookup(top);
    TopLookup(VisitNode(p, node, top, round).top);
    NodeScopes(p, node, [own, top1]);
    assert fs == [fs[0], top1];
    OwnOnly(fs[0], top1);
  }

  lemma OwnOnly(own: seq<Member>, top: seq<Member>)
    requires TopShape(top)
    ensures Lookup([own, top], "next") == Lookup([own], "next")
  {
    TopLookup(top);
    assert [own, top][1..] == [top] && [top][1..] == [] && [own][1..] == [];
  }

  method MergeResult(topContext: ExpressionContext, output: Value)
    requires topContext.Valid() && TopShape(topContext.variables) && output.Object?
    modifies topContext
    ensures topContext.variables ==
      old(topContext.variables)[2 := Member("result", Object(Merged(ResultOf(old(topContext.variables)), output.members)))]
  {
    var result := new Slot(topContext.variables[2].value);
    var _ := MergeJsonObjects(result, output);
    topContext.variables := topContext.variables[2 := Member("result", result.value)];
  }

  /** `single_node`: the jumps, then the node that they end at. */
  method SingleNode(p: Policy, node: string, round: nat, topContext: ExpressionContext, flowContext: ExpressionContext)
    returns (ret: int, currFlow: string)
    requires p.Valid() && node in p.nodes && topContext.Valid() && flowContext.Valid()
    requires flowContext.chain == [flowContext, topContext] && TopShape(topContext.variables)
    requires JumpsEnd(p, topContext.variables, node)
    modifies topContext, flowContext
    ensures NodeReached(p, old(topContext.variables), node, currFlow)
    ensures ret == if VisitFrom(p, currFlow, old(topContext.variables), round).Broken? then -1 else 0
    ensures ret == 0 ==> topContext.variables == VisitFrom(p, currFlow, old(topContext.variables), round).top
    ensures ret == 0 ==> Lookup(flowContext.Frames(), "next") == VisitFrom(p, currFlow, old(topContext.variables), round).next
  {
    var hop := p.HopFrom(topContext.variables);
    ret, currFlow := FollowInterventions(hop, node);
    ReachedIsKnown(p, topContext.variables, node, currFlow);
    if ret == 0 {
      ret := RunNode(p, currFlow, round, topContext, flowContext);
    }
  }

  ghost predicate JumpsEnd(p: Policy, top: seq<Member>, node: string) {
    exists n: nat :: EndsAt(p.HopFrom(top), node, n)
  }

  /** The node at which the jumps from `node` end. */
  ghost predicate NodeReached(p: Policy, top: seq<Member>, node: string, last: string) {
    && last in p.nodes
    && exists k: nat :: EndsAt(p.HopFrom(top), node, k) && After(p.HopFrom(top), node, k) == Some(last)
  }

  lemma ReachedIsKnown(p: Policy, top: seq<Member>, node: string, last: string)
    requires node in p.nodes
    requires exists k: nat :: EndsAt(p.HopFrom(top), node, k) && After(p.HopFrom(top), node, k) == Some(last)
    ensures NodeReached(p, top, node, last)
  {
    var k: nat :| EndsAt(p.HopFrom(top), node, k) && After(p.HopFrom(top), node, k) == Some(last);
    StaysInside(p.HopFrom(top), p.nodes.Keys, node, k);
  }

  function VisitFrom(p: Policy, last: string, top: seq<Member>, round: nat): Visit
    requires p.Valid() && last in p.nodes && TopShape(top)
  {
    if p.HopFrom(top)(last) == Fail then Broken else VisitNode(p, last, top, round)
  }

  // ---- the whole walk ----

  datatype Progress = AtNode(node: string, top: seq<Member>) | Finished(result: Value) | Stopped | Endless

  ghost function Landing(p: Policy, top: seq<Member>, node: string): (r: Option<string>)
    requires node in p.nodes
    ensures r.Some? ==> NodeReached(p, top, node, r.value)
  {
    if exists last :: NodeReached(p, top, node, last) then
      var last :| NodeReached(p, top, node, last);
      Some(last)
    else None
  }

  lemma LandingIs(p: Policy, top: seq<Member>, node: string, last: string)
    requires node in p.nodes && NodeReached(p, top, node, last)
    ensures Landing(p, top, node) == Some(last)
  {
    var hop, other := p.HopFrom(top), Landing(p, top, node).value;
    var k: nat :| EndsAt(hop, node, k) && After(hop, node, k) == Some(last);
    var k': nat :| EndsAt(hop, node, k') && After(hop, node, k') == Some(other);
    if k < k' { NoJumpAfterEnd(hop, node, k', k); } else if k' < k { NoJumpAfterEnd(hop, node, k, k'); }
  }

  ghost predicate Sound(w: Progress) {
    w.AtNode? ==> TopShape(w.top)
  }

  /** The outcome of the node that the walk is at. */
  ghost function Here(p: Policy, w: Progress, round: nat): Option<Visit>
    requires p.Valid() && Sound(w)
  {
    if w.AtNode? && w.node in p.nodes && Landing(p, w.top, w.node).Some?
    then Some(VisitFrom(p, Landing(p, w.top, w.node).value, w.top, round)) else None
  }

  /** What the walk does after the node at which the jumps end. */
  function AfterVisit(v: Visit): (w: Progress)
    requires v.Visited? ==> TopShape(v.top)
  {
    if v.Broken? then Stopped
    else if v.next.None? then Finished(Object(ResultOf(v.top)))
    else if v.next.value.String? then AtNode(v.next.value.s, v.top)
    else Stopped
  }

  ghost function NextProgress(p: Policy, w: Progress, round: nat): (w': Progress)
    requires p.Valid() && Sound(w)
    ensures Sound(w')
  {
    if !w.AtNode? then w
    else if w.node !in p.nodes then Stopped
    else if Here(p, w, round).None? then Endless
    else AfterVisit(Here(p, w, round).value)
  }

  function InitialTop(request: Value): (top: seq<Member>)
    ensures TopShape(top) && ResultOf(top) == []
  {
    [Member("request", request), Member("backend", Object([])), Member("result", Object([]))]
  }

  /** The walk after `n` nodes. */
  ghost function Walked(p: Policy, request: Value, n: nat): (w: Progress)
    requires p.Valid()
    ensures Sound(w)
  {
    if n == 0 then AtNode(p.startFlow, InitialTop(request)) else NextProgress(p, Walked(p, request, n - 1), n - 1)
  }

  lemma NextIs(p: Policy, w: Progress, last: string, round: nat)
    requires p.Valid() && w.AtNode? && Sound(w) && w.node in p.nodes && NodeReached(p, w.top, w.node, last)
    ensures NextProgress(p, w, round) == AfterVisit(VisitFrom(p, last, w.top, round))
  {
    LandingIs(p, w.top, w.node, last);
    assert Here(p, w, round) == Some(VisitFrom(p, last, w.top, round));
  }

  method NewTop(request: Value) returns (topContext: ExpressionContext)
    ensures fresh(topContext) && topContext.Valid() && topContext.chain == [topContext]
    ensures topContext.variables == InitialTop(request)
  {
    topContext := new ExpressionContext.Top();
    topContext.SetVariable("request", request);
    topContext.SetVariable("backend", Object([]));
    topContext.SetVariable("result", Object([]));
    assert topContext.Frames()[0] == InitialTop(request);
  }

  /** One turn of the loop of `inner_run`, for a walk that is at a known node and whose jumps end. */
  method NodeTurn(p: Policy, node: string, round: nat, topContext: ExpressionContext) returns (after: Progress)
    requires p.Valid() && node in p.nodes && topContext.Valid() && topContext.chain == [topContext]
    requires TopShape(topContext.variables)
    requires JumpsEnd(p, topContext.variables, node)
    modifies topContext
    ensures after == NextProgress(p, AtNode(node, old(topContext.variables)), round)
    ensures after.AtNode? ==> after.top == topContext.variables
  {
    ghost var top := topContext.variables;
    var flowContext := new ExpressionContext.Inner(topContext);
    var visited, last := SingleNode(p, node, round, topContext, flowContext);
    NextIs(p, AtNode(node, top), last, round);
    if visited != 0 {
      return Stopped;
    }
    var next := flowContext.GetVariable("next");
    if next.None? {
      return Finished(topContext.variables[2].value);
    }
    if !next.value.String? {
      return Stopped;
    }
    return AtNode(next.value.s, topContext.variables);
  }

  ghost predicate Ended(w: Progress) {
    w.Finished? || w.Stopped?
  }

  function Outcome(ret: int, response: Value): Progress {
    if ret == 0 then Finished(response) else Stopped
  }

  /** A turn of the loop, for a walk that ends after `n` nodes and has visited `k`. */
  method Turn(p: Policy, request: Value, node: string, k: nat, topContext: ExpressionContext, ghost n: nat)
    returns (after: Progress)
    requires p.Valid() && k <= n && Ended(Walked(p, request, n))
    requires topContext.Valid() && topContext.chain == [topContext]
    requires Walked(p, request, k) == AtNode(node, topContext.variables)
    modifies topContext
    ensures k < n && after == Walked(p, request, k + 1) && !after.Endless?
    ensures after.AtNode? ==> after.top == topContext.variables
  {
    NotYetEnded(p, request, k, n);
    WalkedNext(p, request, k);
    NotEndless(p, request, k + 1, n);
    if node !in p.nodes {
      return Stopped;
    }
    WalkLands(p, request, k, n);
    after := NodeTurn(p, node, k, topContext);
  }

  /** The loop of `inner_run`, for a walk that has ended after `n` nodes; `k` counts its turns. */
  method WalkToEnd(p: Policy, request: Value, topContext: ExpressionContext, ghost n: nat)
    returns (end: Progress, k: nat)
    requires p.Valid() && Ended(Walked(p, request, n))
    requires topContext.Valid() && topContext.chain == [topContext] && topContext.variables == InitialTop(request)
    modifies topContext
    ensures Walked(p, request, k) == end && Ended(end)
  {
    k := 0;
    var currFlow := p.startFlow;
    while true
      invariant k <= n && Walked(p, request, k) == AtNode(currFlow, topContext.variables)
      decreases n - k
    {
      end := Turn(p, request, currFlow, k, topContext, n);
      k := k + 1;
      if !end.AtNode? {
        return;
      }
      currFlow := end.node;
    }
  }

  /** `inner_run` of the default policy, for a walk that comes to an end. A `next` that is not a string,
      on which the original aborts, ends the walk with an error. */
  method InnerRun(p: Policy, request: Value) returns (ret: int, response: Value)
    requires p.Valid()
    requires exists n: nat :: Ended(Walked(p, request, n))
    ensures exists n: nat :: Walked(p, request, n) == Outcome(ret, response)
  {
    ghost var n: nat :| Ended(Walked(p, request, n));
    var topContext := NewTop(request);
    var end, k := WalkToEnd(p, request, topContext, n);
    if end.Finished? {
      return 0, end.result;
    }
    return -1, Null;
  }

  lemma WalkedNext(p: Policy, request: Value, k: nat)
    requires p.Valid()
    ensures Walked(p, request, k + 1) == NextProgress(p, Walked(p, request, k), k)
  {
  }

  lemma NotEndless(p: Policy, request: Value, k: nat, n: nat)
    requires p.Valid() && k <= n && Ended(Walked(p, request, n))
    ensures !Walked(p, request, k).Endless?
  {
    if Walked(p, request, k).Endless? { EndlessStays(p, request, k, n); }
  }

  lemma {:induction false} NotYetEnded(p: Policy, request: Value, k: nat, n: nat)
    requires p.Valid() && k <= n && Walked(p, request, k).AtNode?
    requires Ended(Walked(p, request, n))
    ensures k < n
  {
  }

  lemma {:induction false} EndlessStays(p: Policy, request: Value, k: nat, n: nat)
    requires p.Valid() && k <= n && Walked(p, request, k).Endless?
    ensures Walked(p, request, n).Endless?
    decreases n - k
  {
    if k < n {
      WalkedNext(p, request, k);
      EndlessStays(p, request, k + 1, n);
    }
  }

  lemma WalkLands(p: Policy, request: Value, k: nat, n: nat)
    requires p.Valid() && k < n && Walked(p, request, k).AtNode? && Walked(p, request, k).node in p.nodes
    requires Ended(Walked(p, request, n))
    ensures JumpsEnd(p, Walked(p, request, k).top, Walked(p, request, k).node)
  {
    var w := Walked(p, request, k);
    if Landing(p, w.top, w.node).Some? {
      ReachedEnds(p, w.top, w.node, Landing(p, w.top, w.node).value);
    } else {
      NotLandedIsEndless(p, w, k);
      EndlessStays(p, request, k + 1, n);
    }
  }

  lemma ReachedEnds(p: Policy, top: seq<Member>, node: string, last: string)
    requires NodeReached(p, top, node, last)
    ensures JumpsEnd(p, top, node)
  {
    var j: nat :| EndsAt(p.HopFrom(top), node, j) && After(p.HopFrom(top), node, j) == Some(last);
  }

  lemma NotLandedIsEndless(p: Policy, w: Progress, round: nat)
    requires p.Valid() && w.AtNode? && Sound(w) && w.node in p.nodes && Landing(p, w.top, w.node).None?
    ensures NextProgress(p, w, round) == Endless
  {
    assert Here(p, w, round).None?;
  }

  // ---- the response is a fold ----

  function FoldMerge(outputs: seq<Value>): seq<Member>
    requires forall o :: o in outputs ==> o.Object?
  {
    if outputs == [] then []
    else Merged(FoldMerge(outputs[..|outputs| - 1]), outputs[|outputs| - 1].members)
  }

  /** The result object at a point of the walk. */
  ghost function ResultAt(w: Progress): Option<seq<Member>>
    requires Sound(w)
  {
    match w
    case AtNode(_, top) => Some(ResultOf(top))
    case Finished(Object(result)) => Some(result)
    case _ => None
  }

  /** Visiting a node merges its output object, if it has one, into the result. */
  lemma VisitMerges(p: Policy, last: string, top: seq<Member>, round: nat)
    requires p.Valid() && last in p.nodes && TopShape(top) && VisitFrom(p, last, top, round).Visited?
    ensures var v := VisitFrom(p, last, top, round);
      && TopShape(v.top)
      && ResultOf(v.top) == (if v.output.Some? && v.output.value.Object?
                             then Merged(ResultOf(top), v.output.value.members) else ResultOf(top))
  {
  }

  /** The output object of the node that the walk is at, if it has one. */
  ghost function OutputHere(p: Policy, w: Progress, round: nat): (os: seq<Value>)
    requires p.Valid() && Sound(w)
    ensures |os| <= 1 && (os != [] ==> os[0].Object?)
  {
    var v := Here(p, w, round);
    if v.Some? && v.value.Visited? && v.value.output.Some? && v.value.output.value.Object?
    then [v.value.output.value] else []
  }

  /** The output objects of the first `n` nodes, in visit order. */
  ghost function Outputs(p: Policy, request: Value, n: nat): (os: seq<Value>)
    requires p.Valid()
    ensures forall o :: o in os ==> o.Object?
  {
    if n == 0 then [] else Outputs(p, request, n - 1) + OutputHere(p, Walked(p, request, n - 1), n - 1)
  }

  lemma StepMerges(p: Policy, w: Progress, w': Progress, round: nat)
    requires p.Valid() && Sound(w) && w' == NextProgress(p, w, round) && ResultAt(w').Some?
    ensures ResultAt(w).Some? && ResultAt(w').value ==
      if OutputHere(p, w, round) == [] then ResultAt(w).value
      else Merged(ResultAt(w).value, OutputHere(p, w, round)[0].members)
  {
    if w.AtNode? { VisitMerges(p, Landing(p, w.top, w.node).value, w.top, round); }
  }

  lemma FoldSnoc(outputs: seq<Value>, more: seq<Value>)
    requires |more| <= 1 && (forall o :: o in outputs ==> o.Object?) && (forall o :: o in more ==> o.Object?)
    ensures forall o :: o in outputs + more ==> o.Object?
    ensures FoldMerge(outputs + more) ==
      if more == [] then FoldMerge(outputs) else Merged(FoldMerge(outputs), more[0].members)
  {
    if more == [] {
      assert outputs + more == outputs;
    } else {
      assert outputs + more == outputs + [more[0]];
      assert (outputs + more)[..|outputs|] == outputs;
    }
  }

  ghost predicate IsFold(w: Progress, outputs: seq<Value>)
    requires Sound(w) && forall o :: o in outputs ==> o.Object?
  {
    ResultAt(w).Some? ==> ResultAt(w).value == FoldMerge(outputs)
  }

  lemma FoldStart(p: Policy, request: Value)
    requires p.Valid()
    ensures IsFold(Walked(p, request, 0), Outputs(p, request, 0))
  {
  }

  lemma FoldStep(p: Policy, w: Progress, w': Progress, round: nat, outputs: seq<Value>)
    requires p.Valid() && Sound(w) && w' == NextProgress(p, w, round)
    requires (forall o :: o in outputs ==> o.Object?) && IsFold(w, outputs)
    ensures IsFold(w', outputs + OutputHere(p, w, round))
  {
    FoldSnoc(outputs, OutputHere(p, w, round));
    if ResultAt(w').Some? { StepMerges(p, w, w', round); }
  }

  lemma FoldGoesOn(p: Policy, request: Value, n: nat)
    requires p.Valid() && IsFold(Walked(p, request, n), Outputs(p, request, n))
    ensures IsFold(Walked(p, request, n + 1), Outputs(p, request, n + 1))
  {
    WalkedNext(p, request, n);
    FoldStep(p, Walked(p, request, n), Walked(p, request, n + 1), n, Outputs(p, request, n));
  }

  lemma {:induction false} EveryResultIsFold(p: Policy, request: Value, n: nat)
    requires p.Valid()
    ensures IsFold(Walked(p, request, n), Outputs(p, request, n))
  {
    if n == 0 {
      FoldStart(p, request);
    } else {
      EveryResultIsFold(p, request, n - 1);
      FoldGoesOn(p, request, n - 1);
    }
  }

  /** The result at every point of a walk, and the response at its end, is the fold of deep merge over the
      outputs of the visited nodes in visit order, from the empty object. */
  lemma ResponseIsFold(p: Policy, request: Value, n: nat)
    requires p.Valid() && ResultAt(Walked(p, request, n)).Some?
    ensures ResultAt(Walked(p, request, n)).value == FoldMerge(Outputs(p, request, n))
  {
    EveryResultIsFold(p, request, n);
  }

  lemma VisitKeepsRequest(p: Policy, last: string, top: seq<Member>, round: nat)
    requires p.Valid() && last in p.nodes && TopShape(top) && VisitFrom(p, last, top, round).Visited?
    ensures TopShape(VisitFrom(p, last, top, round).top) && VisitFrom(p, last, top, round).top[0] == top[0]
  {
  }

  lemma StepKeepsRequest(p: Policy, w: Progress, w': Progress, round: nat)
    requires p.Valid() && Sound(w) && w' == NextProgress(p, w, round) && w'.AtNode?
    ensures w.AtNode? && w'.top[0] == w.top[0]
  {
    VisitKeepsRequest(p, Landing(p, w.top, w.node).value, w.top, round);
  }

  ghost predicate HasRequest(w: Progress, request: Value)
    requires Sound(w)
  {
    w.AtNode? ==> w.top[0] == Member("request", request)
  }

  lemma RequestStart(p: Policy, request: Value)
    requires p.Valid()
    ensures HasRequest(Walked(p, request, 0), request)
  {
  }

  lemma RequestGoesOn(p: Policy, request: Value, n: nat)
    requires p.Valid() && HasRequest(Walked(p, request, n), request)
    ensures HasRequest(Walked(p, request, n + 1), request)
  {
    WalkedNext(p, request, n);
    if Walked(p, request, n + 1).AtNode? {
      StepKeepsRequest(p, Walked(p, request, n), Walked(p, request, n + 1), n);
    }
  }

  /** No node changes the request. */
  lemma {:induction false} RequestStays(p: Policy, request: Value, n: nat)
    requires p.Valid()
    ensures HasRequest(Walked(p, request, n), request)
  {
    if n == 0 {
      RequestStart(p, request);
    } else {
      RequestStays(p, request, n - 1);
      RequestGoesOn(p, request, n - 1);
    }
  }
}
