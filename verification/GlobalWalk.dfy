/** The global policy shares one table of call ids over a whole request. Every slot is written at most
    once, which bounds the recalls, and the nodes of a walk, until the flow quits. */
module GlobalWalk {
  import opened CallIds
  import opened Json
  import opened Options
  import opened Walk

  /** The slots in use. */
  function Taken(single: seq<CallId>): (n: nat)
    ensures n <= |single|
  {
    if single == [] then 0
    else Taken(single[..|single| - 1]) + if single[|single| - 1] != INVALID then 1 else 0
  }

  /** All the ids that engine runs have recorded while they registered their services. */
  function Recordings(batches: seq<Batch>): nat {
    if batches == [] then 0 else Recordings(batches[..|batches| - 1]) + batches[|batches| - 1].recorded
  }

  /** The runs of the engine that recalled at least one service and came back without an error. */
  function Successes(batches: seq<Batch>): nat {
    if batches == [] then 0
    else
      var last := batches[|batches| - 1];
      Successes(batches[..|batches| - 1]) + if last.items != [] && last.pc == Returned(0) then 1 else 0
  }

  lemma {:induction false} TakeSlot(single: seq<CallId>, index: nat, id: CallId)
    requires index < |single| && single[index] == INVALID && id != INVALID
    ensures Taken(single[index := id]) == Taken(single) + 1
  {
    var n := |single| - 1;
    if index < n {
      assert single[index := id][..n] == single[..n][index := id];
      TakeSlot(single[..n], index, id);
    } else {
      assert single[index := id][..n] == single[..n];
    }
  }

  lemma {:induction false} RecordingsUpdate(batches: seq<Batch>, k: nat, b: Batch)
    requires k < |batches|
    ensures Recordings(batches[k := b]) == Recordings(batches) - batches[k].recorded + b.recorded
  {
    var n := |batches| - 1;
    if k < n {
      assert batches[k := b][..n] == batches[..n][k := b];
      RecordingsUpdate(batches[..n], k, b);
    } else {
      assert batches[k := b][..n] == batches[..n];
    }
  }

  lemma {:induction false} NoneTaken(length: nat)
    ensures Taken(seq(length, _ => INVALID)) == 0
  {
    if length > 0 {
      assert seq(length, _ => INVALID)[..length - 1] == seq(length - 1, _ => INVALID);
      NoneTaken(length - 1);
    }
  }

  /** A registration that comes to its end takes as many free slots as it has services. */
  lemma {:induction false} RegisterTakes(t: Table, items: seq<Item>)
    requires RegisterAll(t, items).1 == 0 && forall k :: 0 <= k < |items| ==> items[k].id != INVALID
    ensures Taken(RegisterAll(t, items).0.single) == Taken(t.single) + |items|
    decreases |items|
  {
    if items != [] {
      TakeSlot(t.single, items[0].index, items[0].id);
      RegisterTakes(t.SetOne(items[0].index, items[0].id).0, items[1..]);
    }
  }

  /** A run has recorded the services that it has passed; only a quit lets it come back early without
      an error. */
  predicate Accounted(b: Batch, ready: bool) {
    match b.pc
    case Registering(j) => b.recorded == j <= |b.items|
    case Returned(ret) => ret == 0 && !ready ==> b.recorded == |b.items|
    case _ => b.recorded == |b.items|
  }

  ghost predicate Balanced(s: State) {
    && (forall b :: b in s.batches ==> Accounted(b, s.table.ready))
    && Recordings(s.batches) == Taken(s.table.single)
  }

  lemma ActBalances(s: State, b: Batch, built: bool)
    requires Accounted(b, s.table.ready) && forall i :: 0 <= i < |b.items| ==> b.items[i].id != INVALID
    ensures var (s', b') := Act(s, b, built);
      && Accounted(b', s.table.ready) && s'.table.ready == s.table.ready
      && Taken(s'.table.single) - Taken(s.table.single) == b'.recorded - b.recorded
  {
    if b.pc.Registering? && b.pc.j < |b.items| {
      var item := b.items[b.pc.j];
      if s.table.SetOne(item.index, item.id).1 == 0 { TakeSlot(s.table.single, item.index, item.id); }
    }
  }

  lemma NextBalances(s: State, step: Step)
    requires Balanced(s) && ValidIds(s)
    ensures Balanced(Next(s, step))
  {
    var s' := Next(s, step);
    match step
    case Spawn(items) =>
      if s'.batches != s.batches { assert s'.batches[..|s'.batches| - 1] == s.batches; }
    case Advance(k, built) =>
      if k < |s.batches| {
        var b := s.batches[k];
        ActBalances(s, b, built);
        RecordingsUpdate(s.batches, k, Act(s, b, built).1);
      }
    case QuitFlow =>
  }

  lemma {:induction false} ReachableBalanced(length: nat, steps: seq<Step>)
    ensures Balanced(Exec(Initial(length), steps))
    ensures |Exec(Initial(length), steps).table.single| == length
  {
    if steps == [] {
      NoneTaken(length);
    } else {
      var front := steps[..|steps| - 1];
      ReachableBalanced(length, front);
      ReachableInv(length, front);
      NextBalances(Exec(Initial(length), front), steps[|steps| - 1]);
    }
  }

  lemma {:induction false} SuccessesRecord(batches: seq<Batch>)
    requires forall b :: b in batches ==> Accounted(b, false)
    ensures Successes(batches) <= Recordings(batches)
  {
    if batches != [] {
      var last := batches[|batches| - 1];
      SuccessesRecord(batches[..|batches| - 1]);
      assert last in batches;
    }
  }

  /** Before a quit, whatever the interleaving, no more recalls of at least one service come back without an
      error than there are services. */
  lemma RecallsBeforeQuit(length: nat, steps: seq<Step>)
    requires !Exec(Initial(length), steps).table.ready
    ensures Successes(Exec(Initial(length), steps).batches) <= length
  {
    ReachableBalanced(length, steps);
    SuccessesRecord(Exec(Initial(length), steps).batches);
  }

  /** A slot that is taken keeps its call id for the rest of the request. */
  lemma {:induction false} SlotWrittenOnce(length: nat, steps: seq<Step>, more: seq<Step>, index: nat)
    requires index < length
    requires |Exec(Initial(length), steps).table.single| == length
    requires Exec(Initial(length), steps).table.single[index] != INVALID
    ensures |Exec(Initial(length), steps + more).table.single| == length
    ensures Exec(Initial(length), steps + more).table.single[index] == Exec(Initial(length), steps).table.single[index]
  {
    if more == [] {
      assert steps + more == steps;
    } else {
      var front := more[..|more| - 1];
      assert (steps + more)[..|steps + more| - 1] == steps + front;
      SlotWrittenOnce(length, steps, front, index);
    }
  }

  // ---- exactly when recalls are bounded after a quit ----

  predicate Succeeded(b: Batch) {
    b.items != [] && b.pc == Returned(0)
  }

  lemma SuccessesSnoc(batches: seq<Batch>, b: Batch)
    ensures Successes(batches + [b]) == Successes(batches) + if Succeeded(b) then 1 else 0
  {
    assert (batches + [b])[..|batches|] == batches;
  }

  ghost predicate CanSucceed(s: State, n: nat) {
    exists steps :: Successes(Exec(s, steps).batches) >= n
  }

  /** After a quit a recall on a free slot comes back without an error and records nothing. */
  lemma OneMoreSuccess(s: State, i: nat)
    requires s.table.ready && i < |s.table.single| && s.table.single[i] == INVALID
    ensures var s' := Next(Next(s, Spawn([Item(i, 7, None)])), Advance(|s.batches|, true));
      s'.table == s.table && Successes(s'.batches) == Successes(s.batches) + 1
  {
    var b := Batch([Item(i, 7, None)], Registering(0), 0);
    var s1 := Next(s, Spawn(b.items));
    assert s1.batches == s.batches + [b];
    var s' := Next(s1, Advance(|s.batches|, true));
    assert s'.batches == s.batches + [b.(pc := Returned(0))];
    SuccessesSnoc(s.batches, b.(pc := Returned(0)));
  }

  lemma {:induction false} FreeSlotUnbounded(s: State, i: nat, n: nat) returns (steps: seq<Step>)
    requires s.table.ready && i < |s.table.single| && s.table.single[i] == INVALID
    ensures Exec(s, steps).table == s.table && Successes(Exec(s, steps).batches) >= n
  {
    if n == 0 {
      steps := [];
    } else {
      var before := FreeSlotUnbounded(s, i, n - 1);
      var s1 := Exec(s, before);
      OneMoreSuccess(s1, i);
      ExecOne(s, before, Spawn([Item(i, 7, None)]));
      ExecOne(s, before + [Spawn([Item(i, 7, None)])], Advance(|s1.batches|, true));
      steps := before + [Spawn([Item(i, 7, None)])] + [Advance(|s1.batches|, true)];
    }
  }

  /** A run that cannot succeed any more: it has recorded nothing, and it will fail when it tries. */
  predicate Hopeless(b: Batch) {
    b.items == [] || b.pc == Registering(0) || b.pc == Returned(-1)
  }

  ghost predicate Full(s: State) {
    s.table.ready && forall i :: 0 <= i < |s.table.single| ==> s.table.single[i] != INVALID
  }

  lemma {:induction false} FullStaysHopeless(s: State, steps: seq<Step>)
    requires Full(s)
    ensures var s' := Exec(s, steps);
      Full(s') && |s.batches| <= |s'.batches| && forall k :: |s.batches| <= k < |s'.batches| ==> Hopeless(s'.batches[k])
  {
    if steps != [] {
      FullStaysHopeless(s, steps[..|steps| - 1]);
    }
  }

  lemma {:induction false} HopelessAreNone(batches: seq<Batch>, n: nat)
    requires forall k :: n <= k < |batches| ==> Hopeless(batches[k])
    ensures Successes(batches) <= n
  {
    if |batches| > 0 {
      HopelessAreNone(batches[..|batches| - 1], if n < |batches| then n else |batches| - 1);
    }
  }

  /** While the flow quits, recalls that come back without an error can go on without limit exactly when
      some slot is free. */
  lemma {:induction false} UnboundedExactly(s: State)
    requires s.table.ready
    ensures (forall n: nat :: CanSucceed(s, n)) <==> exists i :: 0 <= i < |s.table.single| && s.table.single[i] == INVALID
  {
    if i :| 0 <= i < |s.table.single| && s.table.single[i] == INVALID {
      forall n: nat ensures CanSucceed(s, n) {
        var steps := FreeSlotUnbounded(s, i, n);
      }
    } else {
      forall steps ensures Successes(Exec(s, steps).batches) < |s.batches| + 1 {
        FullStaysHopeless(s, steps);
        HopelessAreNone(Exec(s, steps).batches, |s.batches|);
      }
      assert !CanSucceed(s, |s.batches| + 1);
    }
  }

  // ---- the walk of the global policy ----

  /** The recall of one node: what the other runs do before it, the call ids that its services get, and the
      steps, its own and the others', until the walk goes on. */
  datatype Visit = Visit(items: seq<Item>, before: seq<Step>, during: seq<Step>)

  /** The shared table and all engine runs after the nodes of a walk. */
  function After(length: nat, visits: seq<Visit>): State
    decreases |visits|, 1
  {
    if visits == [] then Initial(length)
    else Exec(Next(Begun(length, visits), Spawn(visits[|visits| - 1].items)), visits[|visits| - 1].during)
  }

  /** The state in which the recall of the last node begins. */
  function Begun(length: nat, visits: seq<Visit>): State
    requires visits != []
    decreases |visits|, 0
  {
    Exec(After(length, visits[..|visits| - 1]), visits[|visits| - 1].before)
  }

  /** The engine run of the last node came back without an error. */
  ghost predicate LastReturned(length: nat, visits: seq<Visit>)
    requires visits != []
  {
    var k := |Begun(length, visits).batches|;
    k < |After(length, visits).batches| && After(length, visits).batches[k].pc == Returned(0)
  }

  predicate HasIds(items: seq<Item>) {
    forall k :: 0 <= k < |items| ==> items[k].id != INVALID
  }

  /** The node that turn `i` of a walk visits, if it gets to one. */
  ghost function NodeAt(p: Policy, request: Value, i: nat): Option<string>
    requires p.Valid()
  {
    var w := Walked(p, request, i);
    if w.AtNode? && w.node in p.nodes then Landing(p, w.top, w.node) else None
  }

  /** The kernel of turn `i` gives a result only when the recall of that turn came back without an error. */
  ghost predicate RecallsAt(p: Policy, request: Value, length: nat, visits: seq<Visit>, i: nat)
    requires p.Valid() && i < |visits|
  {
    var node := NodeAt(p, request, i);
    node.Some? ==>
      && HasIds(visits[i].items)
      && (p.kernel(node.value, Walked(p, request, i).top, i).Some? ==> LastReturned(length, visits[..i + 1]))
  }

  /** Turn `i` of the walk visits a node without an error. */
  ghost predicate TurnSucceeds(p: Policy, request: Value, i: nat)
    requires p.Valid()
  {
    Walked(p, request, i).AtNode? && VisitSucceeds(p, Walked(p, request, i), i)
  }

  ghost predicate VisitSucceeds(p: Policy, w: Progress, round: nat)
    requires p.Valid() && Sound(w)
  {
    Here(p, w, round).Some? && Here(p, w, round).value.Visited?
  }

  lemma {:induction false} RunKeeps(s: State, steps: seq<Step>)
    ensures var s' := Exec(s, steps);
      && |s.batches| <= |s'.batches|
      && forall k :: 0 <= k < |s.batches| ==>
           s'.batches[k].items == s.batches[k].items && (Succeeded(s.batches[k]) ==> Succeeded(s'.batches[k]))
  {
    if steps != [] { RunKeeps(s, steps[..|steps| - 1]); }
  }

  lemma {:induction false} SuccessesGrow(a: seq<Batch>, b: seq<Batch>)
    requires |a| <= |b| && forall k :: 0 <= k < |a| && Succeeded(a[k]) ==> Succeeded(b[k])
    ensures Successes(a) <= Successes(b)
    decreases |b|
  {
    if |a| < |b| {
      SuccessesGrow(a, b[..|b| - 1]);
    } else if a != [] {
      SuccessesGrow(a[..|a| - 1], b[..|b| - 1]);
    }
  }

  /** A state before, a later one, and a run started in between that succeeded. */
  lemma OneMoreReturned(a: seq<Batch>, b: seq<Batch>, k: nat)
    requires |a| <= k < |b| && Succeeded(b[k]) && forall i :: 0 <= i < |a| && Succeeded(a[i]) ==> Succeeded(b[i])
    ensures Successes(a) + 1 <= Successes(b)
  {
    SuccessesGrow(a, b[..k]);
    assert b[..k + 1] == b[..k] + [b[k]];
    SuccessesSnoc(b[..k], b[k]);
    SuccessesGrow(b[..k + 1], b);
  }

  /** The visits that recall at least one service. */
  function Recalling(visits: seq<Visit>): (n: nat)
    ensures n <= |visits|
  {
    if visits == [] then 0
    else Recalling(visits[..|visits| - 1]) + if visits[|visits| - 1].items != [] then 1 else 0
  }

  lemma LastVisitCounts(length: nat, visits: seq<Visit>)
    requires visits != [] && LastReturned(length, visits) && HasIds(visits[|visits| - 1].items)
    ensures Successes(After(length, visits[..|visits| - 1]).batches) +
      (if visits[|visits| - 1].items != [] then 1 else 0) <= Successes(After(length, visits).batches)
  {
    var v, front := visits[|visits| - 1], visits[..|visits| - 1];
    var s0, s1 := After(length, front), Begun(length, visits);
    var s2 := Next(s1, Spawn(v.items));
    RunKeeps(s0, v.before);
    assert s2.batches == s1.batches + [Batch(v.items, Registering(0), 0)];
    RunKeeps(s2, v.during);
    if v.items != [] {
      OneMoreReturned(s0.batches, After(length, visits).batches, |s1.batches|);
    } else {
      SuccessesGrow(s0.batches, After(length, visits).batches);
    }
  }

  /** A walk is a run of the transition system. */
  lemma {:induction false} AfterIsReached(length: nat, visits: seq<Visit>) returns (steps: seq<Step>)
    ensures After(length, visits) == Exec(Initial(length), steps)
  {
    if visits == [] {
      steps := [];
    } else {
      var v := visits[|visits| - 1];
      var front := AfterIsReached(length, visits[..|visits| - 1]);
      steps := front + v.before + [Spawn(v.items)] + v.during;
      ExecSum(Initial(length), front, v.before);
      ExecOne(Initial(length), front + v.before, Spawn(v.items));
      ExecSum(Initial(length), front + v.before + [Spawn(v.items)], v.during);
    }
  }

  /** The recall of the `i`-th node came back without an error. */
  ghost predicate CameBack(length: nat, visits: seq<Visit>, i: nat)
    requires i < |visits|
  {
    HasIds(visits[i].items) && LastReturned(length, visits[..i + 1])
  }

  lemma {:induction false} VisitsCount(length: nat, visits: seq<Visit>)
    requires forall i :: 0 <= i < |visits| ==> CameBack(length, visits, i)
    ensures Successes(After(length, visits).batches) >= Recalling(visits)
  {
    if visits != [] {
      var front := visits[..|visits| - 1];
      assert visits[..|visits| - 1 + 1] == visits;
      forall i | 0 <= i < |front| ensures CameBack(length, front, i) {
        assert CameBack(length, visits, i);
        assert front[..i + 1] == visits[..i + 1] && front[i] == visits[i];
      }
      VisitsCount(length, front);
      assert CameBack(length, visits, |visits| - 1);
      LastVisitCounts(length, visits);
    }
  }

  lemma VisitReturned(p: Policy, request: Value, length: nat, visits: seq<Visit>, i: nat)
    requires p.Valid() && i < |visits| && RecallsAt(p, request, length, visits, i)
    requires TurnSucceeds(p, request, i)
    ensures CameBack(length, visits, i)
  {
    KernelGave(p, Walked(p, request, i), i);
  }

  lemma KernelGave(p: Policy, w: Progress, round: nat)
    requires p.Valid() && Sound(w) && w.AtNode? && VisitSucceeds(p, w, round)
    ensures w.node in p.nodes && Landing(p, w.top, w.node).Some?
    ensures p.kernel(Landing(p, w.top, w.node).value, w.top, round).Some?
  {
  }

  /** Before the flow quits, at most as many of the nodes that `inner_run` visits without an error recall a
      service as there are services, whatever the `next` of each node is, whatever each recalls, and whatever
      other runs do in between. */
  lemma {:induction false} WalkIsBounded(p: Policy, request: Value, length: nat, visits: seq<Visit>)
    requires p.Valid() && forall i :: 0 <= i < |visits| ==> TurnSucceeds(p, request, i)
    requires forall i :: 0 <= i < |visits| ==> RecallsAt(p, request, length, visits, i)
    requires !After(length, visits).table.ready
    ensures Recalling(visits) <= length
  {
    forall i | 0 <= i < |visits| ensures CameBack(length, visits, i) {
      assert TurnSucceeds(p, request, i) && RecallsAt(p, request, length, visits, i);
      VisitReturned(p, request, length, visits, i);
    }
    VisitsCount(length, visits);
    var steps := AfterIsReached(length, visits);
    RecallsBeforeQuit(length, steps);
  }
}
