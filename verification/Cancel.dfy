/**
  The cancel signal of a generation: a shared cell that its connections
  subscribe to and that the drain overwrites.
 */
module Cancellation {
  import opened Bytes

  /**
    The shared cell: its value, the version its changes count up, the live
    receivers, and whether the sending side is gone.
   */
  datatype Cell = Cell(value: bool, version: nat, receivers: nat, closed: bool)

  /** A subscription, with the version current when it was made; or none. */
  datatype Handle = Disabled | Subscribed(seen: nat)

  /** What can happen to the cell, in any order. */
  datatype Op = Subscribe | Unsubscribe | Fire | DropSender

  const NewCell: Cell := Cell(false, 0, 0, false)

  function Step(cell: Cell, op: Op): Cell {
    match op
    case Subscribe => if cell.closed then cell else cell.(receivers := cell.receivers + 1)
    case Unsubscribe => if cell.receivers == 0 then cell else cell.(receivers := cell.receivers - 1)
    case Fire => if cell.closed then cell else cell.(value := true, version := cell.version + 1)
    case DropSender => cell.(closed := true)
  }

  function After(ops: seq<Op>): Cell {
    if ops == [] then NewCell else Step(After(ops[..|ops| - 1]), ops[|ops| - 1])
  }

  /** Waiting for the value checks the current one first; a closed cell counts as cancelled. */
  predicate Resolves(cell: Cell, handle: Handle) {
    handle.Subscribed? && (cell.value || cell.closed)
  }

  class GenerationCancel {
    var value: bool
    var version: nat
    var receivers: nat
    var closed: bool

    function State(): Cell
      reads this
    {
      Cell(value, version, receivers, closed)
    }

    constructor ()
      ensures State() == NewCell
    {
      value, version, receivers, closed := false, 0, 0, false;
    }

    /** Overwrites the value whether or not anybody listens. */
    method SendTrue()
      requires !closed
      modifies this
      ensures State() == Step(old(State()), Fire)
    {
      value := true;
      version := version + 1;
    }

    method NewHandle() returns (h: Handle)
      requires !closed
      modifies this
      ensures State() == Step(old(State()), Subscribe) && h == Subscribed(version)
    {
      receivers := receivers + 1;
      h := Subscribed(version);
    }

    /** One poll of the future a handle turns into. */
    method Poll(h: Handle) returns (done: bool)
      ensures done <==> Resolves(State(), h)
    {
      match h
      case Disabled => done := false;
      case Subscribed(_) =>
        if value {
          done := true;
        } else {
          done := closed;
        }
    }
  }

  /** The cell was fired, or given up, at some point. */
  predicate Cancelled(ops: seq<Op>) {
    Fire in ops || DropSender in ops
  }

  /**
    Whatever the interleaving, a handle resolves exactly if the generation was
    cancelled: before the subscription or after it makes no difference.
   */
  lemma {:induction false} HandlesResolveExactly(ops: seq<Op>, handle: Handle)
    ensures Resolves(After(ops), handle) <==> handle.Subscribed? && Cancelled(ops)
  {
    if ops != [] {
      var n := |ops| - 1;
      assert ops == ops[..n] + [ops[n]];
      HandlesResolveExactly(ops[..n], handle);
    }
  }

  /** A cancel once observed stays observed. */
  lemma {:induction false} CancelIsPermanent(ops: seq<Op>, more: seq<Op>, handle: Handle)
    requires Resolves(After(ops), handle)
    ensures Resolves(After(ops + more), handle)
  {
    HandlesResolveExactly(ops, handle);
    HandlesResolveExactly(ops + more, handle);
  }

  // ---- the two designs the cell avoids ----

  /** Sending that gives up when nobody listens. */
  function PlainSendStep(cell: Cell, op: Op): Cell {
    if op.Fire? && cell.receivers == 0 then cell else Step(cell, op)
  }

  function AfterPlainSend(ops: seq<Op>): Cell {
    if ops == [] then NewCell else PlainSendStep(AfterPlainSend(ops[..|ops| - 1]), ops[|ops| - 1])
  }

  /** A fire, before the sender was dropped, that met a live receiver. */
  predicate HeardAt(ops: seq<Op>, i: nat) {
    i < |ops| && ops[i].Fire? && AfterPlainSend(ops[..i]).receivers > 0 && DropSender !in ops[..i]
  }

  predicate HeardFire(ops: seq<Op>) {
    exists i :: 0 <= i < |ops| && HeardAt(ops, i)
  }

  lemma HeardEarlier(ops: seq<Op>, n: nat, i: nat)
    requires i < n <= |ops|
    ensures HeardAt(ops[..n], i) <==> HeardAt(ops, i)
  {
    assert ops[..n][..i] == ops[..i];
  }

  lemma HeardSplit(ops: seq<Op>)
    requires ops != []
    ensures HeardFire(ops) <==> HeardFire(ops[..|ops| - 1]) || HeardAt(ops, |ops| - 1)
  {
    hide HeardAt;
    var n := |ops| - 1;
    forall i: nat | i < n ensures HeardAt(ops[..n], i) <==> HeardAt(ops, i) {
      HeardEarlier(ops, n, i);
    }
  }

  lemma {:induction false} PlainSendClosed(ops: seq<Op>)
    ensures AfterPlainSend(ops).closed <==> DropSender in ops
  {
    if ops != [] {
      var n := |ops| - 1;
      assert ops == ops[..n] + [ops[n]];
      PlainSendClosed(ops[..n]);
    }
  }

  /** With a plain send the value is set exactly if some fire met a live receiver. */
  lemma {:induction false} PlainSendLosesUnheardFires(ops: seq<Op>)
    ensures AfterPlainSend(ops).value <==> HeardFire(ops)
  {
    if ops != [] {
      var n := |ops| - 1;
      PlainSendLosesUnheardFires(ops[..n]);
      PlainSendClosed(ops[..n]);
      HeardSplit(ops);
    }
  }

  /** Waiting for a change instead of the value. */
  predicate ChangeResolves(cell: Cell, handle: Handle) {
    handle.Subscribed? && (cell.version != handle.seen || cell.closed)
  }

  /** Waiting for a change sees only what happens after the subscription (or that the sender is gone). */
  lemma {:induction false} ChangeMissesEarlierFires(earlier: seq<Op>, later: seq<Op>)
    ensures var cell, cell' := After(earlier), After(earlier + later);
            && cell.version <= cell'.version
            && (ChangeResolves(cell', Subscribed(cell.version)) <==> DropSender in earlier || Cancelled(later))
            && (cell'.closed <==> DropSender in earlier || DropSender in later)
  {
    if later == [] {
      assert earlier + later == earlier;
      ClosedExactly(earlier);
    } else {
      var n := |later| - 1;
      assert (earlier + later)[..|earlier + later| - 1] == earlier + later[..n];
      assert later == later[..n] + [later[n]];
      ChangeMissesEarlierFires(earlier, later[..n]);
    }
  }

  lemma {:induction false} ClosedExactly(ops: seq<Op>)
    ensures After(ops).closed <==> DropSender in ops
  {
    if ops != [] {
      var n := |ops| - 1;
      assert ops == ops[..n] + [ops[n]];
      ClosedExactly(ops[..n]);
    }
  }

  /** A generation fired while nobody listens: only the cell's own design still tells a later subscriber. */
  lemma LateSubscriber()
    ensures var ops := [Fire, Subscribe];
            && Resolves(After(ops), Subscribed(After([Fire]).version))
            && !Resolves(AfterPlainSend(ops), Subscribed(AfterPlainSend([Fire]).version))
            && !ChangeResolves(After(ops), Subscribed(After([Fire]).version))
  {
    var ops := [Fire, Subscribe];
    HandlesResolveExactly(ops, Subscribed(1));
    assert ops[..1] == [Fire] && [Fire][..0] == [];
    assert After([Fire]) == Step(NewCell, Fire);
    assert AfterPlainSend([Fire]) == NewCell;
  }
}
