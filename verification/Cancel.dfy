/** Cancelling the rest of a batch: the closures ALL, PRIORITY and HIERACHY that run when a call of
    a recall finishes. */
module Cancel {
  import CallIds

  datatype Order = All | Priority | Hierarchy | Nothing

  /** Whether the success of a call with priority `self` cancels one with priority `other`. */
  predicate Covers(order: Order, self: int, other: int) {
    match order
    case All => true
    case Priority => other <= self
    case Hierarchy => other == self
    case Nothing => false
  }

  datatype RpcId = RpcId(id: CallIds.CallId, priority: int)

  function Covered(order: Order, ids: seq<RpcId>, self: int): set<CallIds.CallId> {
    set i | 0 <= i < |ids| && Covers(order, self, ids[i].priority) :: ids[i].id
  }

  /** The closure of one call; it holds the ids of the whole batch. */
  class RpcClosure {
    const order: Order
    const rpcIds: seq<RpcId>
    const selfPriority: int
    const rpc: CallIds.Rpc

    constructor (order: Order, rpcIds: seq<RpcId>, selfPriority: int, rpc: CallIds.Rpc)
      ensures this.order == order && this.rpcIds == rpcIds
      ensures this.selfPriority == selfPriority && this.rpc == rpc
    {
      this.order, this.rpcIds, this.selfPriority, this.rpc := order, rpcIds, selfPriority, rpc;
    }

    method CancelOne(rpcId: RpcId)
      modifies rpc
      ensures rpc.cancelled == old(rpc.cancelled) +
        if || order == All
           || (order == Priority && rpcId.priority <= selfPriority)
           || (order == Hierarchy && rpcId.priority == selfPriority)
        then {rpcId.id} else {}
    {
      match order
      case All => rpc.StartCancel(rpcId.id);
      case Priority => if rpcId.priority <= selfPriority { rpc.StartCancel(rpcId.id); }
      case Hierarchy => if rpcId.priority == selfPriority { rpc.StartCancel(rpcId.id); }
      case Nothing =>
    }

    /** A failed call leaves the others alive. */
    method Run(failed: bool)
      modifies rpc
      ensures failed || order == Nothing ==> rpc.cancelled == old(rpc.cancelled)
      ensures !failed && order == All ==>
        rpc.cancelled == old(rpc.cancelled) + set i | 0 <= i < |rpcIds| :: rpcIds[i].id
      ensures !failed && order == Priority ==>
        rpc.cancelled == old(rpc.cancelled) +
          set i | 0 <= i < |rpcIds| && rpcIds[i].priority <= selfPriority :: rpcIds[i].id
      ensures !failed && order == Hierarchy ==>
        rpc.cancelled == old(rpc.cancelled) +
          set i | 0 <= i < |rpcIds| && rpcIds[i].priority == selfPriority :: rpcIds[i].id
    {
      if failed {
        return;
      }
      for i := 0 to |rpcIds|
        invariant rpc.cancelled == old(rpc.cancelled) + Covered(order, rpcIds[..i], selfPriority)
      {
        CancelOne(rpcIds[i]);
      }
      assert rpcIds[..|rpcIds|] == rpcIds;
    }
  }

  // ---- a batch as a transition system: calls are numbered in the order they are built ----

  /** `FailedCancelled` is a failure because of a cancellation, `FailedAlone` any other failure. */
  datatype Status = Waiting | Unbuilt | Pending | Succeeded | FailedAlone | FailedCancelled

  /** `swept[i]` counts the ids that the closure of call `i` has gone through. */
  datatype Calls = Calls(status: seq<Status>, swept: seq<nat>, cancelled: set<nat>)

  datatype Step =
    | Build(i: nat, ok: bool) | Succeed(i: nat) | Fail(i: nat) | FailByCancel(i: nat)
    | Sweep(i: nat)

  function Initial(n: nat): Calls {
    Calls(seq(n, _ => Waiting), seq(n, _ => 0), {})
  }

  predicate Enabled(b: Calls, step: Step) {
    && step.i < |b.status| == |b.swept|
    && match step
       case Build(i, _) => b.status[i] == Waiting && forall k :: 0 <= k < i ==> b.status[k] != Waiting
       case Succeed(i) => b.status[i] == Pending
       case Fail(i) => b.status[i] == Pending
       case FailByCancel(i) => b.status[i] == Pending && i in b.cancelled
       case Sweep(i) => b.status[i] == Succeeded && b.swept[i] < |b.status|
  }

  /** A step that is not enabled does nothing. Starting a cancellation changes no status. */
  function Next(order: Order, priority: nat -> int, b: Calls, step: Step): (r: Calls)
    ensures |r.status| == |b.status| && (|b.swept| == |b.status| ==> |r.swept| == |b.swept|)
  {
    if !Enabled(b, step) then b
    else
      match step
      case Build(i, ok) => b.(status := b.status[i := if ok then Pending else Unbuilt])
      case Succeed(i) => b.(status := b.status[i := Succeeded])
      case Fail(i) => b.(status := b.status[i := FailedAlone])
      case FailByCancel(i) => b.(status := b.status[i := FailedCancelled])
      case Sweep(i) =>
        var j := b.swept[i];
        b.(swept := b.swept[i := j + 1],
           cancelled := b.cancelled + if Covers(order, priority(i), priority(j)) then {j} else {})
  }

  function Exec(order: Order, priority: nat -> int, b: Calls, steps: seq<Step>): (r: Calls)
    ensures |r.status| == |b.status| && (|b.swept| == |b.status| ==> |r.swept| == |b.swept|)
  {
    if steps == [] then b
    else Next(order, priority, Exec(order, priority, b, steps[..|steps| - 1]), steps[|steps| - 1])
  }

  ghost predicate Justified(order: Order, priority: nat -> int, b: Calls, j: nat) {
    exists i :: 0 <= i < |b.status| && b.status[i] == Succeeded && Covers(order, priority(i), priority(j))
  }

  ghost predicate Inv(order: Order, priority: nat -> int, b: Calls) {
    && |b.status| == |b.swept|
    && (forall j :: j in b.cancelled ==> Justified(order, priority, b, j))
    && (forall j :: 0 <= j < |b.status| && b.status[j] == FailedCancelled ==> j in b.cancelled)
    && (forall i, j :: 0 <= i < |b.status| && 0 <= j < b.swept[i] && Covers(order, priority(i), priority(j)) ==>
          j in b.cancelled)
  }

  predicate Finished(status: Status) {
    status != Waiting && status != Pending
  }

  lemma NextJustified(order: Order, priority: nat -> int, b: Calls, step: Step, j: nat)
    requires |b.status| == |b.swept| && (j in b.cancelled ==> Justified(order, priority, b, j))
    requires j in Next(order, priority, b, step).cancelled
    ensures Justified(order, priority, Next(order, priority, b, step), j)
  {
    var b' := Next(order, priority, b, step);
    if j in b.cancelled {
      var i :| 0 <= i < |b.status| && b.status[i] == Succeeded && Covers(order, priority(i), priority(j));
      assert b'.status[i] == Succeeded;
    } else {
      assert b'.status[step.i] == Succeeded;
    }
  }

  lemma NextSwept(order: Order, priority: nat -> int, b: Calls, step: Step, i: nat, j: nat)
    requires Inv(order, priority, b) && i < |b.status|
    requires j < Next(order, priority, b, step).swept[i] && Covers(order, priority(i), priority(j))
    ensures j in Next(order, priority, b, step).cancelled
  {
  }

  lemma NextKeepsInv(order: Order, priority: nat -> int, b: Calls, step: Step)
    requires Inv(order, priority, b)
    ensures Inv(order, priority, Next(order, priority, b, step))
    ensures forall i :: 0 <= i < |b.status| && Finished(b.status[i]) ==>
              Next(order, priority, b, step).status[i] == b.status[i]
  {
    var b' := Next(order, priority, b, step);
    forall j | j in b'.cancelled ensures Justified(order, priority, b', j) {
      NextJustified(order, priority, b, step, j);
    }
    forall i, j | 0 <= i < |b'.status| && 0 <= j < b'.swept[i] && Covers(order, priority(i), priority(j))
      ensures j in b'.cancelled
    {
      NextSwept(order, priority, b, step, i, j);
    }
  }

  lemma {:induction false} ReachableInv(order: Order, priority: nat -> int, n: nat, steps: seq<Step>)
    ensures Inv(order, priority, Exec(order, priority, Initial(n), steps))
  {
    if steps != [] {
      var front := steps[..|steps| - 1];
      ReachableInv(order, priority, n, front);
      NextKeepsInv(order, priority, Exec(order, priority, Initial(n), front), steps[|steps| - 1]);
    }
  }

  /** Over every run, a cancelled call is covered by one that succeeded. */
  lemma {:induction false} CancellationJustified(order: Order, priority: nat -> int, n: nat, steps: seq<Step>, j: nat)
    requires j in Exec(order, priority, Initial(n), steps).cancelled
    ensures Justified(order, priority, Exec(order, priority, Initial(n), steps), j)
  {
    ReachableInv(order, priority, n, steps);
  }

  /** What a call has finished with, no later cancellation takes away. */
  lemma {:induction false} FinishedStays(order: Order, priority: nat -> int, n: nat,
                                         steps: seq<Step>, more: seq<Step>, i: nat)
    requires i < n && Finished(Exec(order, priority, Initial(n), steps).status[i])
    ensures Exec(order, priority, Initial(n), steps + more).status[i] == Exec(order, priority, Initial(n), steps).status[i]
  {
    if more == [] {
      assert steps + more == steps;
    } else {
      var front := more[..|more| - 1];
      assert (steps + more)[..|steps + more| - 1] == steps + front;
      FinishedStays(order, priority, n, steps, front, i);
      ReachableInv(order, priority, n, steps + front);
      NextKeepsInv(order, priority, Exec(order, priority, Initial(n), steps + front), more[|more| - 1]);
    }
  }

  /** Over every run, a call is cancelled only beside a success: any one for ALL, one of at least its own
      priority for PRIORITY, one of its own priority for HIERACHY; and never without an order. */
  lemma CancelledBySuccess(order: Order, priority: nat -> int, n: nat, steps: seq<Step>, j: nat)
    requires j in Exec(order, priority, Initial(n), steps).cancelled
    ensures var b := Exec(order, priority, Initial(n), steps);
      match order
      case All => exists i :: 0 <= i < n && b.status[i] == Succeeded
      case Priority => exists i :: 0 <= i < n && b.status[i] == Succeeded && priority(j) <= priority(i)
      case Hierarchy => exists i :: 0 <= i < n && b.status[i] == Succeeded && priority(j) == priority(i)
      case Nothing => false
  {
    CancellationJustified(order, priority, n, steps, j);
  }

  /** The closures of all successes have gone through the whole batch. */
  predicate AllSwept(b: Calls, n: nat)
    requires |b.status| == |b.swept| == n
  {
    forall i :: 0 <= i < n && b.status[i] == Succeeded ==> b.swept[i] == n
  }

  /** And once the closures have run, exactly those calls are cancelled. */
  lemma CancelledExactly(order: Order, priority: nat -> int, n: nat, steps: seq<Step>, j: nat)
    requires j < n && AllSwept(Exec(order, priority, Initial(n), steps), n)
    ensures var b := Exec(order, priority, Initial(n), steps);
      j in b.cancelled <==>
        match order
        case All => exists i :: 0 <= i < n && b.status[i] == Succeeded
        case Priority => exists i :: 0 <= i < n && b.status[i] == Succeeded && priority(j) <= priority(i)
        case Hierarchy => exists i :: 0 <= i < n && b.status[i] == Succeeded && priority(j) == priority(i)
        case Nothing => false
  {
    var b := Exec(order, priority, Initial(n), steps);
    ReachableInv(order, priority, n, steps);
    if j in b.cancelled { CancelledBySuccess(order, priority, n, steps, j); }
  }

  /** When a batch has finished, every call that did not fail by itself (and was built) stands beside a
      success: its own or, having been cancelled, one of a priority that cancels it. */
  lemma SomeoneSucceeds(order: Order, priority: nat -> int, n: nat, steps: seq<Step>, j: nat)
    requires var b := Exec(order, priority, Initial(n), steps);
      && j < n && (forall i :: 0 <= i < n ==> Finished(b.status[i]))
      && b.status[j] != FailedAlone && b.status[j] != Unbuilt
    ensures var b := Exec(order, priority, Initial(n), steps);
      exists i :: 0 <= i < n && b.status[i] == Succeeded &&
        (|| i == j || order == All || (order == Priority && priority(j) <= priority(i))
         || (order == Hierarchy && priority(j) == priority(i)))
  {
    var b := Exec(order, priority, Initial(n), steps);
    ReachableInv(order, priority, n, steps);
    if b.status[j] != Succeeded {
      assert b.status[j] == FailedCancelled;
      assert Justified(order, priority, b, j);
    }
  }

  /** Once every closure has run, a call of a priority that a success cancels is finished or has been
      cancelled; so when no cancellation is still to take effect, none of them is pending. */
  lemma NoCoveredCallPending(order: Order, priority: nat -> int, n: nat, steps: seq<Step>, i: nat, j: nat)
    requires var b := Exec(order, priority, Initial(n), steps);
      && i < n && j < n && AllSwept(b, n) && b.status[i] == Succeeded
      && (|| order == All || (order == Priority && priority(j) <= priority(i))
          || (order == Hierarchy && priority(j) == priority(i)))
    ensures var b := Exec(order, priority, Initial(n), steps);
      && j in b.cancelled
      && (!Enabled(b, FailByCancel(j)) ==> b.status[j] != Pending)
  {
    ReachableInv(order, priority, n, steps);
  }
}
