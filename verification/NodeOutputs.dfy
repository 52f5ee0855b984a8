/** What a flow node contributes to the response and where the walk goes from it, from the configuration of the
    node: its rules, its blocks and its default. */
module NodeOutputs {
  import opened Json
  import opened Merge
  import opened Options
  import opened Scope
  import opened Walk
  import Branch

  // ---- the node that the rules lead to ----

  /** The rules of a node name a known node to go on to. */
  predicate RuleLeads(p: Policy, top: seq<Member>, node: string, target: string) {
    p.intervene(node, top) == Some(target) && target != "" && target in p.nodes
  }

  ghost predicate LeadsOn(p: Policy, top: seq<Member>, node: string) {
    exists target :: RuleLeads(p, top, node, target)
  }

  /** Each node but the last has rules that lead to the next, and the last has none that lead on. */
  ghost predicate RulePath(p: Policy, top: seq<Member>, path: seq<string>) {
    && path != []
    && (forall i :: 0 <= i < |path| - 1 ==> RuleLeads(p, top, path[i], path[i + 1]))
    && !LeadsOn(p, top, path[|path| - 1])
  }

  lemma HopIs(p: Policy, top: seq<Member>, node: string)
    ensures p.HopFrom(top)(node).Jump? <==> LeadsOn(p, top, node)
    ensures forall target :: RuleLeads(p, top, node, target) ==> p.HopFrom(top)(node) == Jump(target)
    ensures p.HopFrom(top)(node) == Fail <==> p.intervene(node, top).None?
  {
    if p.HopFrom(top)(node).Jump? { assert RuleLeads(p, top, node, p.HopFrom(top)(node).target); }
  }

  lemma {:induction false} PathFollowed(p: Policy, top: seq<Member>, path: seq<string>, k: nat)
    requires RulePath(p, top, path) && k < |path|
    ensures After(p.HopFrom(top), path[0], k) == Some(path[k])
  {
    if k > 0 {
      PathFollowed(p, top, path, k - 1);
      HopIs(p, top, path[k - 1]);
      assert RuleLeads(p, top, path[k - 1], path[k - 1 + 1]);
    }
  }

  lemma {:induction false} FollowedPath(p: Policy, top: seq<Member>, node: string, k: nat) returns (path: seq<string>)
    requires After(p.HopFrom(top), node, k).Some?
    ensures |path| == k + 1 && path[0] == node && After(p.HopFrom(top), node, k) == Some(path[k])
    ensures forall i :: 0 <= i < k ==> RuleLeads(p, top, path[i], path[i + 1])
  {
    if k == 0 {
      path := [node];
    } else {
      path := FollowedPath(p, top, node, k - 1);
      HopIs(p, top, path[k - 1]);
      path := path + [After(p.HopFrom(top), node, k).value];
    }
  }

  /** The jumps end at the end of the path along which the rules lead. */
  lemma ReachedByRules(p: Policy, top: seq<Member>, node: string, last: string)
    requires node in p.nodes
    ensures NodeReached(p, top, node, last) <==>
      exists path :: RulePath(p, top, path) && path[0] == node && path[|path| - 1] == last
  {
    var hop := p.HopFrom(top);
    if NodeReached(p, top, node, last) {
      var k: nat :| EndsAt(hop, node, k) && After(hop, node, k) == Some(last);
      var path := FollowedPath(p, top, node, k);
      HopIs(p, top, last);
      assert RulePath(p, top, path);
    }
    if path :| RulePath(p, top, path) && path[0] == node && path[|path| - 1] == last {
      PathFollowed(p, top, path, |path| - 1);
      HopIs(p, top, last);
      assert EndsAt(hop, node, |path| - 1);
      ReachedIsKnown(p, top, node, last);
    }
  }

  // ---- one node ----

  /** The scopes of a node after its kernel: its own variables, and the shared ones with the new backend map. */
  function Scopes(own: seq<Member>, top: seq<Member>, backend: Value): Frames
    requires TopShape(top)
  {
    [own, top[1 := Member("backend", backend)]]
  }

  /** The block that supplies the output, or the number of blocks for the default. */
  function Chosen(config: Branch.OutputConfig, fs: Frames, eval: Branch.Evaluator): (i: nat)
    ensures i <= |config.ifs|
  {
    Branch.FirstAccepting(config.ifs, fs, eval)
  }

  /** No condition fails, what is chosen evaluates, and no variable is in the way of `output` and `next`. */
  ghost predicate Clear(config: Branch.OutputConfig, own: seq<Member>, fs: Frames, eval: Branch.Evaluator)
    requires config.Valid() && fs != []
  {
    && !HasMember(own, "output") && !HasMember(own, "next")
    && (forall b :: b in config.ifs ==> Branch.Decides(b, fs, eval))
    && (var i := Chosen(config, fs, eval);
        if i < |config.ifs| then config.ifs[i] in config.ifs && Branch.Evaluates(config, config.ifs[i], fs, eval)
        else Branch.Document(config.output, fs, eval).Some?)
  }

  /** The document of the first block whose conditions hold, or of the default. */
  function NodeDocument(config: Branch.OutputConfig, fs: Frames, eval: Branch.Evaluator): Option<Value>
    requires config.Valid() && fs != []
  {
    var i := Chosen(config, fs, eval);
    if i < |config.ifs| then
      assert config.ifs[i] in config.ifs;
      var b := config.ifs[i];
      Branch.Document(b.output, Branch.Defined(b.definition, b.definition.order, Branch.Entered(fs), eval).0, eval)
    else Branch.Document(config.output, fs, eval)
  }

  /** The successor that comes with it. */
  function NodeNext(config: Branch.OutputConfig, fs: Frames, eval: Branch.Evaluator): Option<string> {
    var i := Chosen(config, fs, eval);
    if !config.flow then None else if i < |config.ifs| then config.ifs[i].next else config.next
  }

  /** The result after a document: objects are merged into it. */
  function ResultWith(result: seq<Member>, doc: Value): seq<Member> {
    if doc.Object? then Merged(result, doc.members) else result
  }

  lemma SettledReads(config: Branch.OutputConfig, fs: Frames, doc: Value, next: Option<string>)
    requires fs != [] && Lookup(fs, "output").None? && Lookup(fs, "next").None?
    ensures var after := Branch.Settled(config, fs, doc, next);
      && Lookup(after, "output") == (if doc == Null then None else Some(doc))
      && Lookup(after, "next") == if config.flow && next.Some? then Some(String(next.value)) else None
  {
    LookupIsOwners(fs, "output");
    LookupIsOwners(fs, "next");
    SetReads(fs, "output", doc, "output");
    SetReads(fs, "output", doc, "next");
    var fs1 := if doc == Null then fs else SetIn(fs, "output", doc);
    LookupIsOwners(fs1, "next");
    if next.Some? {
      SetReads(fs1, "next", String(next.value), "output");
      SetReads(fs1, "next", String(next.value), "next");
    }
  }

  lemma NothingBound(own: seq<Member>, top: seq<Member>, backend: Value)
    requires TopShape(top) && !HasMember(own, "output") && !HasMember(own, "next")
    ensures Lookup(Scopes(own, top, backend), "output").None? && Lookup(Scopes(own, top, backend), "next").None?
  {
    var top1 := top[1 := Member("backend", backend)];
    TopLookup(top1);
    NotBound(own, top1, "output");
    NotBound(own, top1, "next");
  }

  lemma NotBound(own: seq<Member>, top: seq<Member>, key: string)
    requires !HasMember(own, key) && !HasMember(top, key)
    ensures Lookup([own, top], key).None?
  {
    assert [own, top][1..] == [top] && [top][1..] == [];
    assert Lookup([], key) == None && Lookup([top], key) == None;
  }

  lemma ChosenSettles(config: Branch.OutputConfig, own: seq<Member>, top: seq<Member>, backend: Value,
                      eval: Branch.Evaluator)
    requires config.Valid() && TopShape(top) && Clear(config, own, Scopes(own, top, backend), eval)
    ensures var fs := Scopes(own, top, backend);
      && NodeDocument(config, fs, eval).Some?
      && Branch.Choose(config, config.ifs, fs, eval) ==
         (Branch.Settled(config, fs, NodeDocument(config, fs, eval).value,
                         if Chosen(config, fs, eval) < |config.ifs| then config.ifs[Chosen(config, fs, eval)].next
                         else config.next), 0)
  {
    NothingBound(own, top, backend);
    Branch.OneSourceDecides(config, config.ifs, Scopes(own, top, backend), eval);
  }

  /** A node merges the document of its chosen block or default into the result, keeps the new backend map, and
      has the successor of what was chosen; nothing else that nodes share changes. */
  lemma VisitIs(p: Policy, node: string, top: seq<Member>, round: nat)
    requires p.Valid() && node in p.nodes && TopShape(top) && p.kernel(node, top, round).Some?
    requires var (own, backend) := p.kernel(node, top, round).value;
      Clear(p.nodes[node], own, Scopes(own, top, backend), p.eval)
    ensures var (own, backend) := p.kernel(node, top, round).value;
      var config, fs, v := p.nodes[node], Scopes(own, top, backend), VisitNode(p, node, top, round);
      && NodeDocument(config, fs, p.eval).Some? && v.Visited?
      && v.top == [top[0], Member("backend", backend),
                   Member("result", Object(ResultWith(ResultOf(top), NodeDocument(config, fs, p.eval).value)))]
      && v.next == match NodeNext(config, fs, p.eval) { case Some(n) => Some(String(n)) case None => None }
  {
    var (own, backend) := p.kernel(node, top, round).value;
    var config, fs := p.nodes[node], Scopes(own, top, backend);
    ChosenSettles(config, own, top, backend, p.eval);
    NothingBound(own, top, backend);
    SettledReads(config, fs, NodeDocument(config, fs, p.eval).value,
                 if Chosen(config, fs, p.eval) < |config.ifs| then config.ifs[Chosen(config, fs, p.eval)].next
                 else config.next);
  }

  /** A node whose kernel fails, or whose default does not evaluate when no block is chosen, is an error. */
  lemma VisitFails(p: Policy, node: string, top: seq<Member>, round: nat)
    requires p.Valid() && node in p.nodes && TopShape(top)
    requires p.kernel(node, top, round).None? ||
      var (own, backend) := p.kernel(node, top, round).value;
      var config, fs := p.nodes[node], Scopes(own, top, backend);
      && (forall b :: b in config.ifs ==> Branch.Decides(b, fs, p.eval))
      && Chosen(config, fs, p.eval) == |config.ifs| && Branch.Document(config.output, fs, p.eval).None?
    ensures VisitNode(p, node, top, round).Broken?
  {
    if p.kernel(node, top, round).Some? {
      var (own, backend) := p.kernel(node, top, round).value;
      Branch.FirstMatchDecides(p.nodes[node], p.nodes[node].ifs, Scopes(own, top, backend), p.eval);
    }
  }

  // ---- the walk ----

  /** The walk is at a known node whose rules end at `last`, which is clear. */
  ghost predicate ClearAt(p: Policy, w: Progress, round: nat, last: string)
    requires p.Valid() && Sound(w)
  {
    && w.AtNode? && w.node in p.nodes && NodeReached(p, w.top, w.node, last)
    && p.intervene(last, w.top).Some? && p.kernel(last, w.top, round).Some?
    && var (own, backend) := p.kernel(last, w.top, round).value;
       Clear(p.nodes[last], own, Scopes(own, w.top, backend), p.eval)
  }

  ghost function DocumentAt(p: Policy, w: Progress, round: nat, last: string): (doc: Value)
    requires p.Valid() && Sound(w) && ClearAt(p, w, round, last)
  {
    VisitIs(p, last, w.top, round);
    var (own, backend) := p.kernel(last, w.top, round).value;
    NodeDocument(p.nodes[last], Scopes(own, w.top, backend), p.eval).value
  }

  ghost function NextAt(p: Policy, w: Progress, round: nat, last: string): Option<string>
    requires p.Valid() && Sound(w) && ClearAt(p, w, round, last)
  {
    var (own, backend) := p.kernel(last, w.top, round).value;
    NodeNext(p.nodes[last], Scopes(own, w.top, backend), p.eval)
  }

  /** One turn: the document is merged into the result; then the walk is at the successor, or has finished with
      the result when there is none. */
  lemma TurnIs(p: Policy, w: Progress, round: nat, last: string)
    requires p.Valid() && Sound(w) && ClearAt(p, w, round, last)
    ensures var result := ResultWith(ResultOf(w.top), DocumentAt(p, w, round, last));
      NextProgress(p, w, round) ==
        match NextAt(p, w, round, last)
        case Some(next) =>
          AtNode(next, [w.top[0], Member("backend", p.kernel(last, w.top, round).value.1), Member("result", Object(result))])
        case None => Finished(Object(result))
  {
    VisitIs(p, last, w.top, round);
    NextIs(p, w, last, round);
    HopIs(p, w.top, last);
  }

  /** An unknown node, an error of the rules, or of the visit ends the walk without a response. */
  lemma TurnFails(p: Policy, w: Progress, round: nat, last: string)
    requires p.Valid() && Sound(w) && w.AtNode?
    requires w.node in p.nodes ==> NodeReached(p, w.top, w.node, last)
    requires w.node in p.nodes ==> p.intervene(last, w.top).None? || p.kernel(last, w.top, round).None?
    ensures NextProgress(p, w, round) == Stopped
  {
    if w.node in p.nodes {
      NextIs(p, w, last, round);
      HopIs(p, w.top, last);
    }
  }

  /** The first `n` nodes of the walk are clear; `visited` are the nodes at which their jumps end. */
  ghost predicate ClearWalk(p: Policy, request: Value, visited: seq<string>)
    requires p.Valid()
  {
    forall k :: 0 <= k < |visited| ==> ClearAt(p, Walked(p, request, k), k, visited[k])
  }

  lemma ClearFront(p: Policy, request: Value, visited: seq<string>)
    requires p.Valid() && ClearWalk(p, request, visited) && visited != []
    ensures var n := |visited| - 1;
      ClearWalk(p, request, visited[..n]) && ClearAt(p, Walked(p, request, n), n, visited[n])
  {
    var n := |visited| - 1;
    forall k | 0 <= k < n ensures ClearAt(p, Walked(p, request, k), k, visited[..n][k]) {
      assert visited[..n][k] == visited[k];
    }
  }

  function IfObject(doc: Value): (docs: seq<Value>)
    ensures |docs| <= 1 && forall d :: d in docs ==> d.Object?
  {
    if doc.Object? then [doc] else []
  }

  /** The documents of the visited nodes that are objects, in visit order. */
  ghost function Documents(p: Policy, request: Value, visited: seq<string>): (docs: seq<Value>)
    requires p.Valid() && ClearWalk(p, request, visited)
    ensures forall doc :: doc in docs ==> doc.Object?
  {
    if visited == [] then []
    else
      var n := |visited| - 1;
      ClearFront(p, request, visited);
      Documents(p, request, visited[..n]) + IfObject(DocumentAt(p, Walked(p, request, n), n, visited[n]))
  }

  lemma MergedOnce(p: Policy, w: Progress, round: nat, last: string, docs: seq<Value>)
    requires p.Valid() && Sound(w) && ClearAt(p, w, round, last)
    requires (forall d :: d in docs ==> d.Object?) && ResultOf(w.top) == FoldMerge(docs)
    ensures var docs' := docs + IfObject(DocumentAt(p, w, round, last));
      (forall d :: d in docs' ==> d.Object?) && ResultAt(NextProgress(p, w, round)) == Some(FoldMerge(docs'))
  {
    TurnIs(p, w, round, last);
    FoldSnoc(docs, IfObject(DocumentAt(p, w, round, last)));
  }

  /** The result of a clear walk is the left fold of deep merge over those documents, from the empty object. */
  lemma {:induction false} ResponseIsDocuments(p: Policy, request: Value, visited: seq<string>)
    requires p.Valid() && ClearWalk(p, request, visited)
    ensures ResultAt(Walked(p, request, |visited|)) == Some(FoldMerge(Documents(p, request, visited)))
  {
    if visited != [] {
      var n := |visited| - 1;
      ClearFront(p, request, visited);
      ResponseIsDocuments(p, request, visited[..n]);
      WalkedNext(p, request, n);
      MergedOnce(p, Walked(p, request, n), n, visited[n], Documents(p, request, visited[..n]));
    }
  }

  /** The walk starts at the configured node, and goes on to the successor of each node that it visits. */
  lemma WalkFollowsNext(p: Policy, request: Value, visited: seq<string>, k: nat)
    requires p.Valid() && ClearWalk(p, request, visited) && k < |visited|
    ensures Walked(p, request, 0) == AtNode(p.startFlow,
      [Member("request", request), Member("backend", Object([])), Member("result", Object([]))])
    ensures ClearAt(p, Walked(p, request, k), k, visited[k])
    ensures var next := NextAt(p, Walked(p, request, k), k, visited[k]);
      if next.None? then Walked(p, request, k + 1).Finished?
      else Walked(p, request, k + 1).AtNode? && Walked(p, request, k + 1).node == next.value
  {
    WalkedNext(p, request, k);
    TurnIs(p, Walked(p, request, k), k, visited[k]);
  }

  lemma {:induction false} EndStays(p: Policy, request: Value, k: nat, n: nat)
    requires p.Valid() && k <= n && Walked(p, request, k).Finished?
    ensures Walked(p, request, n) == Walked(p, request, k)
    decreases n - k
  {
    if k < n {
      EndNext(p, request, k);
      EndStays(p, request, k + 1, n);
    }
  }

  lemma EndNext(p: Policy, request: Value, k: nat)
    requires p.Valid() && Walked(p, request, k).Finished?
    ensures Walked(p, request, k + 1) == Walked(p, request, k)
  {
    WalkedNext(p, request, k);
  }

  lemma StillWalking(p: Policy, request: Value, visited: seq<string>, n: nat)
    requires p.Valid() && ClearWalk(p, request, visited)
    ensures n < |visited| ==> Walked(p, request, n).AtNode?
  {
  }

  /** So a clear walk whose last node has no successor has that fold for its only outcome. */
  lemma ClearWalkResponds(p: Policy, request: Value, visited: seq<string>, n: nat, ret: int, response: Value)
    requires p.Valid() && ClearWalk(p, request, visited) && visited != []
    requires Walked(p, request, |visited|).Finished? && Walked(p, request, n) == Outcome(ret, response)
    ensures ret == 0 && response == Object(FoldMerge(Documents(p, request, visited)))
  {
    ResponseIsDocuments(p, request, visited);
    StillWalking(p, request, visited, n);
    if |visited| <= n { EndStays(p, request, |visited|, n); }
  }
}
