/** The table of call ids that one request shares, and the global quit that cancels what it holds. */
module CallIds {
  import opened Options

  type CallId = nat
  const INVALID: CallId := 0

  /** The table as a value, with the calls on which a cancellation has been started. */
  datatype Table = Table(ready: bool, single: seq<CallId>, multi: seq<seq<CallId>>, cancelled: set<CallId>) {
    predicate Shaped() {
      |single| == |multi|
    }

    function Recorded(): set<CallId> {
      (set i | 0 <= i < |single| && single[i] != INVALID :: single[i]) +
      (set i, j | 0 <= i < |multi| && 0 <= j < |multi[i]| :: multi[i][j])
    }

    /** Recording one id: -1 for a bad or taken slot, 1 once the flow is quitting, 0 when recorded. */
    function SetOne(index: nat, id: CallId): (Table, int) {
      if index >= |single| || single[index] != INVALID then (this, -1)
      else if ready then (this, 1)
      else (this.(single := single[index := id]), 0)
    }

    function SetMany(index: nat, ids: seq<CallId>): (Table, int) {
      if index >= |multi| || multi[index] != [] then (this, -1)
      else if ready then (this, 1)
      else (this.(multi := multi[index := ids]), 0)
    }

    function Quit(): Table {
      this.(ready := true, cancelled := cancelled + Recorded())
    }
  }

  /** The calls on which `StartCancel` has been called. */
  class Rpc {
    var cancelled: set<CallId>

    constructor ()
      ensures cancelled == {}
    {
      cancelled := {};
    }

    method StartCancel(id: CallId)
      modifies this
      ensures cancelled == old(cancelled) + {id}
    {
      cancelled := cancelled + {id};
    }
  }

  /** `CallIdsVecThreadSafe`; its mutex makes each method one atomic step. */
  class CallIdsVec {
    var isReady: bool
    var callIds: seq<CallId>
    var multiCallIds: seq<seq<CallId>>
    const rpc: Rpc

    ghost function State(): Table
      reads this, rpc
    {
      Table(isReady, callIds, multiCallIds, rpc.cancelled)
    }

    constructor (length: nat, rpc: Rpc)
      ensures this.rpc == rpc
      ensures State() == Table(false, seq(length, _ => INVALID), seq(length, _ => []), rpc.cancelled)
    {
      this.rpc := rpc;
      isReady, callIds, multiCallIds := false, [], [];
      new;
      for i := 0 to length
        invariant callIds == seq(i, _ => INVALID) && multiCallIds == seq(i, _ => [])
        invariant !isReady && rpc.cancelled == old(rpc.cancelled)
      {
        callIds := callIds + [INVALID];
        multiCallIds := multiCallIds + [[]];
      }
    }

    method SetCallId(index: nat, id: CallId) returns (ret: int)
      modifies this
      ensures (State(), ret) == old(State()).SetOne(index, id)
    {
      if index >= |callIds| {
        return -1;
      }
      if callIds[index] != INVALID {
        return -1;
      }
      if isReady {
        return 1;
      }
      callIds := callIds[index := id];
      return 0;
    }

    method SetCallIds(index: nat, ids: seq<CallId>) returns (ret: int)
      modifies this
      ensures (State(), ret) == old(State()).SetMany(index, ids)
    {
      if index >= |multiCallIds| {
        return -1;
      }
      if |multiCallIds[index]| != 0 {
        return -1;
      }
      if isReady {
        return 1;
      }
      multiCallIds := multiCallIds[index := ids];
      return 0;
    }

    method QuitFlow() returns (ret: int)
      modifies this, rpc
      ensures State() == old(State()).Quit() && ret == 0
    {
      for i := 0 to |callIds|
        invariant unchanged(this)
        invariant rpc.cancelled == old(rpc.cancelled) +
          set k | 0 <= k < i && callIds[k] != INVALID :: callIds[k]
      {
        if callIds[i] != INVALID {
          rpc.StartCancel(callIds[i]);
        }
      }
      ghost var singles := set k | 0 <= k < |callIds| && callIds[k] != INVALID :: callIds[k];
      for i := 0 to |multiCallIds|
        invariant unchanged(this)
        invariant rpc.cancelled == old(rpc.cancelled) + singles +
          set k, j | 0 <= k < i && 0 <= j < |multiCallIds[k]| :: multiCallIds[k][j]
      {
        var ids := multiCallIds[i];
        ghost var was := rpc.cancelled;
        for j := 0 to |ids|
          invariant unchanged(this)
          invariant rpc.cancelled == was + set k | 0 <= k < j :: ids[k]
        {
          rpc.StartCancel(ids[j]);
        }
      }
      isReady := true;
      return 0;
    }
  }

  // ---- a request as a transition system ----

  /** One service of a recall; a dynamic service issues `subIds` and records them afterwards. */
  datatype Item = Item(index: nat, id: CallId, subIds: Option<seq<CallId>>)

  /** Where one run of the backend engine stands in its list of services. */
  datatype Pc = Registering(j: nat) | Issuing(j: nat) | Recording(j: nat) | Returned(ret: int)

  /** `recorded` counts the ids of the run that went into the table while it registered its services. */
  datatype Batch = Batch(items: seq<Item>, pc: Pc, recorded: nat)

  datatype State = State(table: Table, batches: seq<Batch>, issued: set<CallId>, issuedDynamic: set<CallId>)

  /** A recall begins; the engine run `k` takes its next action (a request it builds may fail to build); a quit. */
  datatype Step = Spawn(items: seq<Item>) | Advance(k: nat, built: bool) | QuitFlow

  function Initial(length: nat): State {
    State(Table(false, seq(length, _ => INVALID), seq(length, _ => []), {}), [], {}, {})
  }

  /** The action of an engine run: register every service, then build and issue every request. */
  function Act(s: State, b: Batch, built: bool): (State, Batch) {
    match b.pc
    case Registering(j) =>
      if j >= |b.items| then (s, b.(pc := Issuing(0)))
      else
        var (table, ret) := s.table.SetOne(b.items[j].index, b.items[j].id);
        (s.(table := table),
         if ret == -1 then b.(pc := Returned(-1))
         else if ret == 1 then b.(pc := Returned(0))
         else b.(pc := Registering(j + 1), recorded := b.recorded + 1))
    case Issuing(j) =>
      if j >= |b.items| then (s, b.(pc := Returned(0)))
      else if !built then (s, b.(pc := Issuing(j + 1)))
      else if b.items[j].subIds.Some? then
        (s.(issuedDynamic := s.issuedDynamic + set id | id in b.items[j].subIds.value), b.(pc := Recording(j)))
      else (s.(issued := s.issued + {b.items[j].id}), b.(pc := Issuing(j + 1)))
    case Recording(j) =>
      if j >= |b.items| || b.items[j].subIds.None? then (s, b.(pc := Issuing(j + 1)))
      else
        var (table, ret) := s.table.SetMany(b.items[j].index, b.items[j].subIds.value);
        (s.(table := table),
         b.(pc := if ret == -1 then Returned(-1) else if ret == 1 then Returned(0) else Issuing(j + 1)))
    case Returned(_) => (s, b)
  }

  function Next(s: State, step: Step): State {
    match step
    case Spawn(items) =>
      if forall i :: 0 <= i < |items| ==> items[i].id != INVALID
      then s.(batches := s.batches + [Batch(items, Registering(0), 0)]) else s
    case Advance(k, built) =>
      if k >= |s.batches| then s
      else
        var (s', b) := Act(s, s.batches[k], built);
        s'.(batches := s.batches[k := b])
    case QuitFlow => s.(table := s.table.Quit())
  }

  function Exec(s: State, steps: seq<Step>): State {
    if steps == [] then s else Next(Exec(s, steps[..|steps| - 1]), steps[|steps| - 1])
  }

  // ---- the registration loop of one engine run ----

  /** Recording one service after the other; the first that is not recorded ends the loop. */
  function RegisterAll(t: Table, items: seq<Item>): (Table, int)
    decreases |items|
  {
    if items == [] then (t, 0)
    else
      var (t', ret) := t.SetOne(items[0].index, items[0].id);
      if ret != 0 then (t', ret) else RegisterAll(t', items[1..])
  }

  method RegisterServices(ids: CallIdsVec, items: seq<Item>) returns (ret: int)
    modifies ids
    ensures (ids.State(), ret) == RegisterAll(old(ids.State()), items)
  {
    ghost var start := ids.State();
    for i := 0 to |items|
      invariant RegisterAll(ids.State(), items[i..]) == RegisterAll(start, items)
    {
      assert items[i..][1..] == items[i + 1..];
      ret := ids.SetCallId(items[i].index, items[i].id);
      if ret != 0 {
        return;
      }
    }
    return 0;
  }

  /** A loop that comes to its end has recorded every service in a slot of its own that was free, before
      the flow was quitting. */
  lemma {:induction false} RegisterRecordsEach(t: Table, items: seq<Item>, i: nat)
    requires RegisterAll(t, items).1 == 0 && i < |items| && forall k :: 0 <= k < |items| ==> items[k].id != INVALID
    ensures var t' := RegisterAll(t, items).0;
      && !t.ready && items[i].index < |t.single| == |t'.single|
      && t.single[items[i].index] == INVALID && t'.single[items[i].index] == items[i].id
    decreases |items|
  {
    var t1 := t.SetOne(items[0].index, items[0].id).0;
    if i > 0 {
      RegisterRecordsEach(t1, items[1..], i - 1);
    } else {
      RegisterKeeps(t1, items[1..], items[0].index);
    }
  }

  /** A slot in use is not written again. */
  lemma {:induction false} RegisterKeeps(t: Table, items: seq<Item>, index: nat)
    requires index < |t.single| && t.single[index] != INVALID
    ensures var t' := RegisterAll(t, items).0; |t'.single| == |t.single| && t'.single[index] == t.single[index]
    decreases |items|
  {
    if items != [] {
      var (t', ret) := t.SetOne(items[0].index, items[0].id);
      if ret == 0 { RegisterKeeps(t', items[1..], index); }
    }
  }

  /** Left alone, an engine run of the transition system does what the loop does. */
  lemma {:induction false} RegisteringIsTheLoop(s: State, k: nat, j: nat) returns (n: nat)
    requires k < |s.batches| && s.batches[k].pc == Registering(j) && j <= |s.batches[k].items|
    ensures var s', (t, ret) := Repeat(s, k, n), RegisterAll(s.table, s.batches[k].items[j..]);
      && s'.table == t && k < |s'.batches|
      && s'.batches[k].pc == (if ret == 0 then Registering(|s.batches[k].items|) else Returned(if ret == 1 then 0 else ret))
    decreases |s.batches[k].items| - j
  {
    var b := s.batches[k];
    if j == |b.items| {
      n := 0;
    } else {
      var s1 := Next(s, Advance(k, true));
      assert b.items[j..][0] == b.items[j] && b.items[j..][1..] == b.items[j + 1..];
      if s.table.SetOne(b.items[j].index, b.items[j].id).1 == 0 {
        var m := RegisteringIsTheLoop(s1, k, j + 1);
        n := m + 1;
        assert Repeat(s, k, n) == Repeat(s1, k, m);
      } else {
        n := 1;
        assert Repeat(s, k, 1) == Repeat(s1, k, 0) == s1;
      }
    }
  }

  /** `n` actions of the engine run `k`. */
  function Repeat(s: State, k: nat, n: nat): State
    decreases n
  {
    if n == 0 then s else Repeat(Next(s, Advance(k, true)), k, n - 1)
  }

  // ---- what every run keeps ----

  /** The services of a run that have passed registration. */
  function Passed(b: Batch): nat {
    match b.pc
    case Registering(j) => if j <= |b.items| then j else |b.items|
    case Returned(_) => 0
    case _ => |b.items|
  }

  ghost predicate Inv(s: State) {
    && s.table.Shaped()
    && (s.table.ready ==> s.table.Recorded() <= s.table.cancelled)
    && s.table.cancelled <= s.table.Recorded()
    && s.issued <= s.table.Recorded()
    && forall k, i :: 0 <= k < |s.batches| && 0 <= i < Passed(s.batches[k]) ==>
         s.batches[k].items[i].id in s.table.Recorded()
  }

  ghost predicate ValidIds(s: State) {
    forall k, i :: 0 <= k < |s.batches| && 0 <= i < |s.batches[k].items| ==>
      s.batches[k].items[i].id != INVALID
  }

  /** Recording keeps what is recorded, and adds at most the id given. */
  lemma SetOneRecords(t: Table, index: nat, id: CallId)
    requires t.Shaped() && id != INVALID
    ensures var (t', ret) := t.SetOne(index, id);
      && t'.Shaped() && t'.cancelled == t.cancelled && t'.ready == t.ready
      && t'.Recorded() == (if ret == 0 then t.Recorded() + {id} else t.Recorded())
      && (t.ready ==> t' == t)
  {
    var (t', ret) := t.SetOne(index, id);
    if ret == 0 {
      assert t'.single[index] == id;
      forall x | x in t.Recorded() ensures x in t'.Recorded() {
        if i :| 0 <= i < |t.single| && t.single[i] != INVALID && t.single[i] == x {
          assert t'.single[i] == x;
        }
      }
      forall x | x in t'.Recorded() ensures x in t.Recorded() + {id} {
        if i :| 0 <= i < |t.single| && t'.single[i] != INVALID && t'.single[i] == x {
          assert i == index || t.single[i] == x;
        }
      }
    }
  }

  lemma SetManyRecords(t: Table, index: nat, ids: seq<CallId>)
    requires t.Shaped()
    ensures var (t', ret) := t.SetMany(index, ids);
      && t'.Shaped() && t'.cancelled == t.cancelled && t'.ready == t.ready
      && t'.Recorded() == t.Recorded() + (if ret == 0 then (set id | id in ids) else {})
      && (t.ready ==> t' == t)
  {
    var (t', ret) := t.SetMany(index, ids);
    if ret == 0 {
      forall x | x in t.Recorded() ensures x in t'.Recorded() {
        if i, j :| 0 <= i < |t.multi| && 0 <= j < |t.multi[i]| && t.multi[i][j] == x {
          assert t'.multi[i][j] == x;
        }
      }
      forall x | x in t'.Recorded() ensures x in t.Recorded() || x in ids {
        if i, j :| 0 <= i < |t.multi| && 0 <= j < |t'.multi[i]| && t'.multi[i][j] == x {
          assert i == index || t.multi[i][j] == x;
        }
      }
      forall x | x in ids ensures x in t'.Recorded() {
        var j :| 0 <= j < |ids| && ids[j] == x;
        assert t'.multi[index][j] == x;
      }
    }
  }

  /** One action of an engine run: the table only grows, not at all while the flow quits, and what the
      run has passed or issued is in it. */
  lemma ActRecords(s: State, b: Batch, built: bool)
    requires s.table.Shaped() && s.issued <= s.table.Recorded()
    requires forall i :: 0 <= i < |b.items| ==> b.items[i].id != INVALID
    requires forall i :: 0 <= i < Passed(b) ==> b.items[i].id in s.table.Recorded()
    ensures var (s', b') := Act(s, b, built);
      && s'.table.Shaped() && s'.table.ready == s.table.ready && s'.table.cancelled == s.table.cancelled
      && (s.table.ready ==> s'.table == s.table)
      && s.table.Recorded() <= s'.table.Recorded() && s'.issued <= s'.table.Recorded()
      && s'.batches == s.batches && b'.items == b.items
    ensures var (s', b') := Act(s, b, built);
      forall i :: 0 <= i < Passed(b') ==> b'.items[i].id in s'.table.Recorded()
  {
    match b.pc
    case Registering(j) => if j < |b.items| { SetOneRecords(s.table, b.items[j].index, b.items[j].id); }
    case Recording(j) =>
      if j < |b.items| && b.items[j].subIds.Some? {
        SetManyRecords(s.table, b.items[j].index, b.items[j].subIds.value);
      }
    case _ =>
  }

  lemma NextKeepsInv(s: State, step: Step)
    requires Inv(s) && ValidIds(s)
    ensures Inv(Next(s, step)) && ValidIds(Next(s, step))
    ensures s.table.ready ==> Next(s, step).table.ready && Next(s, step).table.single == s.table.single
                              && Next(s, step).table.multi == s.table.multi
    ensures s.table.Recorded() <= Next(s, step).table.Recorded()
  {
    if step.Advance? && step.k < |s.batches| {
      ActRecords(s, s.batches[step.k], step.built);
    }
  }

  /** Every reachable state: a run of any length, with any interleaving of recalls, registrations,
      issues and quits. */
  lemma {:induction false} ReachableInv(length: nat, steps: seq<Step>)
    ensures Inv(Exec(Initial(length), steps)) && ValidIds(Exec(Initial(length), steps))
  {
    if steps != [] {
      var front := steps[..|steps| - 1];
      ReachableInv(length, front);
      NextKeepsInv(Exec(Initial(length), front), steps[|steps| - 1]);
    }
  }

  /** No call escapes a global quit: once the flow is quitting, exactly the recorded calls have been
      cancelled, and every call issued for a service that is not dynamic is one of them. */
  lemma NoCallEscapesQuit(length: nat, steps: seq<Step>)
    ensures var s := Exec(Initial(length), steps);
      && s.issued <= s.table.Recorded()
      && (s.table.ready ==> s.table.cancelled == s.table.Recorded() && s.issued <= s.table.cancelled)
  {
    ReachableInv(length, steps);
  }

  /** After a quit the table never changes again, whatever runs. */
  lemma {:induction false} NothingRecordedAfterQuit(length: nat, steps: seq<Step>, more: seq<Step>)
    requires Exec(Initial(length), steps).table.ready
    ensures var s, s' := Exec(Initial(length), steps), Exec(Initial(length), steps + more);
      && s'.table.ready && s'.table.single == s.table.single && s'.table.multi == s.table.multi
      && s'.issued <= s.table.cancelled
  {
    if more == [] {
      assert steps + more == steps;
    } else {
      var front := more[..|more| - 1];
      assert (steps + more)[..|steps + more| - 1] == steps + front;
      NothingRecordedAfterQuit(length, steps, front);
      ReachableInv(length, steps + front);
      NextKeepsInv(Exec(Initial(length), steps + front), more[|more| - 1]);
    }
    NoCallEscapesQuit(length, steps);
    NoCallEscapesQuit(length, steps + more);
  }

  /** Only calls of a dynamic service can run on after a quit. */
  lemma MissedCallsAreDynamic(length: nat, steps: seq<Step>, id: CallId)
    requires var s := Exec(Initial(length), steps);
      s.table.ready && id in s.issued + s.issuedDynamic && id !in s.table.cancelled
    ensures id in Exec(Initial(length), steps).issuedDynamic - Exec(Initial(length), steps).issued
  {
    ReachableInv(length, steps);
  }

  // ---- exactly when a quit is safe ----

  /** The first service of a run whose request may still be built once the flow is quitting: a run that
      has services left to register, or ids left to record, comes back instead. */
  function ToBuild(b: Batch): nat {
    match b.pc
    case Registering(j) => if j >= |b.items| then 0 else |b.items|
    case Issuing(j) => j
    case _ => |b.items|
  }

  /** Every dynamic call that has been issued is recorded, and so is every one that a run past its
      registrations has still to issue. */
  ghost predicate QuitIsSafe(s: State) {
    && s.issuedDynamic <= s.table.Recorded()
    && forall k, i :: 0 <= k < |s.batches| && ToBuild(s.batches[k]) <= i < |s.batches[k].items| ==>
         DynamicCovered(s.batches[k].items[i], s.table.Recorded())
  }

  predicate DynamicCovered(item: Item, ids: set<CallId>) {
    item.subIds.Some? ==> forall id :: id in item.subIds.value ==> id in ids
  }

  ghost predicate AllCancelled(s: State) {
    s.issued + s.issuedDynamic <= s.table.cancelled
  }

  /** A run that is recording stands at a dynamic service. */
  predicate Staged(b: Batch) {
    b.pc.Recording? ==> b.pc.j < |b.items| && b.items[b.pc.j].subIds.Some?
  }

  lemma {:induction false} ReachableStaged(length: nat, steps: seq<Step>)
    ensures forall b :: b in Exec(Initial(length), steps).batches ==> Staged(b)
  {
    if steps != [] {
      ReachableStaged(length, steps[..|steps| - 1]);
    }
  }

  /** While the flow quits: the table is frozen, every issued call is in it, and so is every call that may
      still be issued. */
  ghost predicate Contained(s: State, ids: set<CallId>) {
    && s.table.ready && s.table.Recorded() == ids && s.table.cancelled == ids
    && s.issued <= ids && s.issuedDynamic <= ids
    && forall b :: b in s.batches ==> BatchContained(b, ids)
  }

  ghost predicate BatchContained(b: Batch, ids: set<CallId>) {
    Staged(b) && forall i :: ToBuild(b) <= i < |b.items| ==>
      DynamicCovered(b.items[i], ids) && (b.items[i].subIds.None? ==> b.items[i].id in ids)
  }

  lemma ActContained(s: State, b: Batch, built: bool, ids: set<CallId>)
    requires Contained(s, ids) && BatchContained(b, ids)
    ensures var (s', b') := Act(s, b, built); Contained(s', ids) && BatchContained(b', ids) && s'.batches == s.batches
  {
  }

  lemma NextContained(s: State, step: Step, ids: set<CallId>)
    requires Contained(s, ids)
    ensures Contained(Next(s, step), ids)
  {
    if step.Advance? && step.k < |s.batches| {
      ActContained(s, s.batches[step.k], step.built, ids);
    }
  }

  lemma {:induction false} RunContained(s: State, steps: seq<Step>, ids: set<CallId>)
    requires Contained(s, ids)
    ensures Contained(Exec(s, steps), ids)
  {
    if steps != [] {
      RunContained(s, steps[..|steps| - 1], ids);
      NextContained(Exec(s, steps[..|steps| - 1]), steps[|steps| - 1], ids);
    }
  }

  /** A run that still has item `i` to build can come to it by skipping the requests before it. */
  lemma {:induction false} CanIssue(s: State, k: nat, i: nat) returns (steps: seq<Step>)
    requires k < |s.batches| && s.batches[k].pc.Issuing? && s.batches[k].pc.j <= i < |s.batches[k].items|
    requires s.batches[k].items[i].subIds.Some?
    ensures forall id :: id in s.batches[k].items[i].subIds.value ==> id in Exec(s, steps).issuedDynamic
    ensures Exec(s, steps).table == s.table
    decreases i - s.batches[k].pc.j
  {
    var skip := s.batches[k].pc.j < i;
    var s1 := Next(s, Advance(k, !skip));
    if skip {
      var rest := CanIssue(s1, k, i);
      steps := [Advance(k, false)] + rest;
      ExecSum(s, [Advance(k, false)], rest);
      ExecSingle(s, Advance(k, false));
    } else {
      steps := [Advance(k, true)];
      ExecSingle(s, Advance(k, true));
    }
  }

  lemma ExecSingle(s: State, step: Step)
    ensures Exec(s, [step]) == Next(s, step)
  {
    assert [step][..0] == [];
  }

  lemma {:induction false} ExecSum(s: State, a: seq<Step>, b: seq<Step>)
    ensures Exec(s, a + b) == Exec(Exec(s, a), b)
    decreases |b|
  {
    if b == [] {
      assert a + b == a;
    } else {
      assert (a + b)[..|a + b| - 1] == a + b[..|b| - 1];
      ExecSum(s, a, b[..|b| - 1]);
    }
  }

  /** A dynamic service that a run has still to build, with an id that is not recorded, escapes a quit. */
  lemma UnsafeEscapes(s: State, k: nat, i: nat) returns (more: seq<Step>)
    requires s.table.cancelled <= s.table.Recorded()
    requires k < |s.batches| && ToBuild(s.batches[k]) <= i < |s.batches[k].items|
    requires !DynamicCovered(s.batches[k].items[i], s.table.Recorded())
    ensures !AllCancelled(Exec(Next(s, QuitFlow), more))
  {
    var s1, go := Next(s, QuitFlow), Advance(k, true);
    if s1.batches[k].pc.Registering? {
      var s2 := Next(s1, go);
      var rest := CanIssue(s2, k, i);
      more := [go] + rest;
      ExecSingle(s1, go);
      ExecSum(s1, [go], rest);
    } else {
      more := CanIssue(s1, k, i);
    }
  }

  /** A quit that strikes a reachable state leaves no call running, whatever happens afterwards, exactly
      when it is safe in that state. */
  lemma {:induction false} QuitIsSafeExactly(length: nat, steps: seq<Step>)
    ensures var s := Exec(Initial(length), steps);
      (forall more :: AllCancelled(Exec(Next(s, QuitFlow), more))) <==> QuitIsSafe(s)
  {
    var s := Exec(Initial(length), steps);
    var s1 := Next(s, QuitFlow);
    ReachableInv(length, steps);
    ReachableStaged(length, steps);
    if QuitIsSafe(s) {
      SafeIsContained(s);
      forall more ensures AllCancelled(Exec(s1, more)) { RunContained(s1, more, s.table.Recorded()); }
    } else if s.issuedDynamic <= s.table.Recorded() {
      var k, i :| 0 <= k < |s.batches| && ToBuild(s.batches[k]) <= i < |s.batches[k].items| &&
        !DynamicCovered(s.batches[k].items[i], s.table.Recorded());
      var more := UnsafeEscapes(s, k, i);
    } else {
      MissedAlready(s);
    }
  }

  lemma MissedAlready(s: State)
    requires s.table.cancelled <= s.table.Recorded() && !(s.issuedDynamic <= s.table.Recorded())
    ensures !AllCancelled(Exec(Next(s, QuitFlow), []))
  {
    var id :| id in s.issuedDynamic && id !in s.table.Recorded();
    assert id in s.issued + s.issuedDynamic && id !in s.table.Quit().cancelled;
  }

  lemma SafeIsContained(s: State)
    requires Inv(s) && QuitIsSafe(s) && forall b :: b in s.batches ==> Staged(b)
    ensures Contained(Next(s, QuitFlow), s.table.Recorded())
  {
    var ids := s.table.Recorded();
    forall b | b in s.batches ensures BatchContained(b, ids) {
      var k :| 0 <= k < |s.batches| && s.batches[k] == b;
      forall i | ToBuild(b) <= i < |b.items|
        ensures DynamicCovered(b.items[i], ids) && (b.items[i].subIds.None? ==> b.items[i].id in ids)
      {
        assert 0 <= i < Passed(s.batches[k]);
      }
    }
  }

  lemma ExecOne(s: State, steps: seq<Step>, step: Step)
    ensures Exec(s, steps + [step]) == Next(Exec(s, steps), step)
  {
    assert (steps + [step])[..|steps|] == steps;
  }

  /** A dynamic service issues before it records: a quit in between leaves its call running. */
  lemma DynamicCallEscapes()
    ensures exists steps :: var s := Exec(Initial(1), steps);
      s.table.ready && 8 in s.issuedDynamic && 8 !in s.table.cancelled
  {
    var s0, go := Initial(1), Advance(0, true);
    var b := Batch([Item(0, 7, Some([8]))], Registering(0), 0);
    ExecOne(s0, [], Spawn(b.items));
    ExecOne(s0, [Spawn(b.items)], go);
    ExecOne(s0, [Spawn(b.items)] + [go], go);
    ExecOne(s0, [Spawn(b.items)] + [go] + [go], go);
    ExecOne(s0, [Spawn(b.items)] + [go] + [go] + [go], QuitFlow);
    assert [] + [Spawn(b.items)] == [Spawn(b.items)];
    assert Exec(s0, [Spawn(b.items)]).batches == [b];
    assert Exec(s0, [Spawn(b.items)] + [go] + [go] + [go]).batches[0].pc == Recording(0);
  }
}
