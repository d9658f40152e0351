/** The scheduler's execution permits: taken by the consumer before it pops, handed over to the in-flight map under
    the capture's id, and given back by the terminal hook, in any interleaving of the two. */
module Permits {
  import opened Texts
  import opened Options

  /** Where the consumer is. `Taken` holds a permit and perhaps a descriptor; `Dispatching` has just handed its
      permit over and is about to hand the descriptor to the camera. */
  datatype Place = Out | Taken | Dispatching(capture: Text)

  /** `returning` counts permits that have left their holder and not reached the semaphore yet. `finished` are the
      captures whose terminal hook has run. */
  datatype Pool = Pool(free: nat, place: Place, inFlight: set<Text>, returning: nat, finished: set<Text>)

  function Full(maximum: nat): Pool { Pool(maximum, Out, {}, 0, {}) }

  /** `Release` is every path that gives the permit up again before the hand-over. A dispatch fails when the camera
      has gone; a refused commit counts as dispatched. `Finish` is the terminal hook. */
  datatype Op =
    | Acquire | Release | Hold(capture: Text) | Dispatched | DispatchFailed | Finish(capture: Text) | Return

  /** Removing an entry drops its permit, if there is one. */
  function Removed(p: Pool, c: Text): Pool {
    if c in p.inFlight then p.(inFlight := p.inFlight - {c}, returning := p.returning + 1) else p
  }

  function Apply(p: Pool, op: Op): Pool {
    match op
    case Acquire => if p.place != Out || p.free == 0 then p else p.(place := Taken, free := p.free - 1)
    case Release => if p.place != Taken then p else p.(place := Out, returning := p.returning + 1)
    case Hold(c) =>
      if p.place != Taken then p
      else
        var replaced := Removed(p, c);
        replaced.(place := Dispatching(c), inFlight := replaced.inFlight + {c})
    case Dispatched => if !p.place.Dispatching? then p else p.(place := Out)
    case DispatchFailed => if !p.place.Dispatching? then p else Removed(p, p.place.capture).(place := Out)
    case Finish(c) => Removed(p, c).(finished := p.finished + {c})
    case Return => if p.returning == 0 then p else p.(returning := p.returning - 1, free := p.free + 1)
  }

  function After(maximum: nat, ops: seq<Op>): Pool {
    if ops == [] then Full(maximum) else Apply(After(maximum, ops[..|ops| - 1]), ops[|ops| - 1])
  }

  function InHand(p: Pool): nat { if p.place == Taken then 1 else 0 }

  /** In every interleaving every permit is free, with the consumer, in flight or on its way back. So no more than
      the maximum is ever in flight. */
  lemma {:induction false} PermitsConserved(maximum: nat, ops: seq<Op>)
    ensures var p := After(maximum, ops); p.free + InHand(p) + |p.inFlight| + p.returning == maximum
  {
    if ops != [] {
      PermitsConserved(maximum, ops[..|ops| - 1]);
      StepConserves(After(maximum, ops[..|ops| - 1]), ops[|ops| - 1]);
    }
  }

  lemma StepConserves(p: Pool, op: Op)
    ensures var q := Apply(p, op);
      q.free + InHand(q) + |q.inFlight| + q.returning == p.free + InHand(p) + |p.inFlight| + p.returning
  {
    match op
    case Hold(c) => RemovedConserves(p, c);
    case DispatchFailed => if p.place.Dispatching? { RemovedConserves(p, p.place.capture); }
    case Finish(c) => RemovedConserves(p, c);
    case _ => {}
  }

  lemma RemovedConserves(p: Pool, c: Text)
    ensures c !in Removed(p, c).inFlight && |Removed(p, c).inFlight| + Removed(p, c).returning == |p.inFlight| + p.returning
    ensures Removed(p, c).free == p.free && Removed(p, c).place == p.place
  {
    assert c in p.inFlight ==> p.inFlight == (p.inFlight - {c}) + {c};
  }

  // ---- Permits that outlive their capture ---------------------------------------------------------------

  /** In flight although the capture's terminal hook has run. */
  predicate Outlives(p: Pool, c: Text) { c in p.inFlight && c in p.finished }

  /** The consumer hands a permit over for a capture that has finished already. */
  predicate HeldLate(p: Pool, op: Op, c: Text) {
    op == Hold(c) && p.place == Taken && c in p.finished
  }

  /** What gives it back: the consumer's own clean-up after a failed dispatch of that capture, or another run of
      its hook. */
  predicate Settles(p: Pool, op: Op, c: Text) {
    op == Finish(c) || (op == DispatchFailed && p.place == Dispatching(c))
  }

  lemma OutlivesAfter(p: Pool, op: Op, c: Text)
    ensures Outlives(Apply(p, op), c) <==> HeldLate(p, op, c) || (Outlives(p, c) && !Settles(p, op, c))
  {}

  ghost predicate LateSince(maximum: nat, ops: seq<Op>, i: nat, c: Text)
    requires i < |ops|
  {
    && HeldLate(After(maximum, ops[..i]), ops[i], c)
    && forall m :: i < m < |ops| ==> !Settles(After(maximum, ops[..m]), ops[m], c)
  }

  lemma {:induction false} LateOutlives(maximum: nat, ops: seq<Op>, i: nat, c: Text)
    requires i < |ops| && LateSince(maximum, ops, i, c)
    ensures Outlives(After(maximum, ops), c)
  {
    var front := ops[..|ops| - 1];
    if i < |front| {
      LateShorter(maximum, ops, i, c);
      LateOutlives(maximum, front, i, c);
      assert !Settles(After(maximum, ops[..|ops| - 1]), ops[|ops| - 1], c);
    }
    OutlivesAfter(After(maximum, front), ops[|ops| - 1], c);
  }

  lemma LateShorter(maximum: nat, ops: seq<Op>, i: nat, c: Text)
    requires i < |ops| - 1
    ensures LateSince(maximum, ops, i, c) <==>
      LateSince(maximum, ops[..|ops| - 1], i, c) && !Settles(After(maximum, ops[..|ops| - 1]), ops[|ops| - 1], c)
  {
    var front := ops[..|ops| - 1];
    assert forall m :: 0 <= m < |front| ==> front[..m] == ops[..m] && front[m] == ops[m];
    if LateSince(maximum, front, i, c) && !Settles(After(maximum, front), ops[|ops| - 1], c) {
      forall m | i < m < |ops| ensures !Settles(After(maximum, ops[..m]), ops[m], c) {
        if m < |front| { assert front[..m] == ops[..m]; }
      }
    }
    if LateSince(maximum, ops, i, c) {
      forall m | i < m < |front| ensures !Settles(After(maximum, front[..m]), front[m], c) {
        assert front[..m] == ops[..m];
      }
    }
  }

  lemma {:induction false} OutlivingWasLate(maximum: nat, ops: seq<Op>, c: Text) returns (i: nat)
    requires Outlives(After(maximum, ops), c)
    ensures i < |ops| && LateSince(maximum, ops, i, c)
  {
    var front, op := ops[..|ops| - 1], ops[|ops| - 1];
    OutlivesAfter(After(maximum, front), op, c);
    if HeldLate(After(maximum, front), op, c) {
      i := |ops| - 1;
    } else {
      i := OutlivingWasLate(maximum, front, c);
      LateShorter(maximum, ops, i, c);
    }
  }

  /** In every interleaving, a permit outlives its capture if and only if it was handed over after the capture's
      terminal hook had run, and neither a failed dispatch nor another run of the hook has cleaned up since. */
  lemma OutlivesExactly(maximum: nat, ops: seq<Op>, c: Text)
    ensures Outlives(After(maximum, ops), c) <==> exists i :: 0 <= i < |ops| && LateSince(maximum, ops, i, c)
  {
    if Outlives(After(maximum, ops), c) {
      var i := OutlivingWasLate(maximum, ops, c);
    }
    if i :| 0 <= i < |ops| && LateSince(maximum, ops, i, c) {
      LateOutlives(maximum, ops, i, c);
    }
  }

  /** So while every hand-over comes before its capture's hook, finished captures hold nothing. */
  lemma TimelyHoldsAreReturned(maximum: nat, ops: seq<Op>)
    requires forall i, c :: 0 <= i < |ops| ==> !HeldLate(After(maximum, ops[..i]), ops[i], c)
    ensures After(maximum, ops).inFlight !! After(maximum, ops).finished
  {
    forall c | c in After(maximum, ops).inFlight ensures c !in After(maximum, ops).finished {
      if Outlives(After(maximum, ops), c) {
        var i := OutlivingWasLate(maximum, ops, c);
      }
    }
  }

  // ---- What it costs ----------------------------------------------------------------------------------------

  /** The hook runs once per capture and the consumer has moved on: nothing settles this capture any more. */
  ghost predicate NeverSettled(maximum: nat, ops: seq<Op>, n: nat, c: Text)
    requires n <= |ops|
  {
    forall m :: n <= m < |ops| ==> !Settles(After(maximum, ops[..m]), ops[m], c)
  }

  /** Then its permit is lost for good: it is in flight at every later point of the run. */
  lemma {:induction false} LostForGood(maximum: nat, ops: seq<Op>, n: nat, c: Text)
    requires n <= |ops| && Outlives(After(maximum, ops[..n]), c) && NeverSettled(maximum, ops, n, c)
    ensures Outlives(After(maximum, ops), c)
  {
    if n == |ops| {
      assert ops[..n] == ops;
    } else {
      var front := ops[..|ops| - 1];
      assert forall m :: 0 <= m <= |front| ==> front[..m] == ops[..m];
      forall m | n <= m < |front| ensures !Settles(After(maximum, front[..m]), front[m], c) {
        assert front[..m] == ops[..m] && !Settles(After(maximum, ops[..m]), ops[m], c);
      }
      LostForGood(maximum, front, n, c);
      assert !Settles(After(maximum, ops[..|ops| - 1]), ops[|ops| - 1], c);
      OutlivesAfter(After(maximum, front), ops[|ops| - 1], c);
    }
  }

  /** Each such permit narrows the scheduler by one, and as many of them as there are permits stop it: with
      nothing free, in hand or on its way back, it can take no further capture. */
  lemma LostPermitsNarrow(maximum: nat, ops: seq<Op>, lost: set<Text>)
    requires forall c :: c in lost ==> Outlives(After(maximum, ops), c)
    ensures var p := After(maximum, ops); p.free + InHand(p) + p.returning <= maximum - |lost|
    ensures |lost| == maximum ==> Apply(After(maximum, ops), Acquire) == After(maximum, ops)
  {
    var p := After(maximum, ops);
    PermitsConserved(maximum, ops);
    assert lost <= p.inFlight;
    assert p.inFlight == lost + (p.inFlight - lost);
  }

  /** One late hand-over with a refused commit, in a run of four. */
  lemma LateHoldHappens(maximum: nat, c: Text)
    requires maximum >= 1
    ensures var ops := [Acquire, Finish(c), Hold(c), Dispatched];
      Outlives(After(maximum, ops), c) && After(maximum, ops).place == Out && After(maximum, ops).free == maximum - 1
  {
    var ops := [Acquire, Finish(c), Hold(c), Dispatched];
    assert ops[..3][..2] == ops[..2] && ops[..2][..1] == ops[..1] && ops[..1][..0] == [];
    assert After(maximum, ops[..1]) == Pool(maximum - 1, Taken, {}, 0, {});
    assert After(maximum, ops[..2]) == Pool(maximum - 1, Taken, {}, 0, {c});
    assert After(maximum, ops[..3]) == Pool(maximum - 1, Dispatching(c), {c}, 0, {c});
  }

  // ---- The way there and back --------------------------------------------------------------------------------

  /** A permit is taken exactly when the consumer has none and one is free. */
  lemma AcquireExactly(p: Pool)
    ensures p.place == Out && p.free > 0 ==>
      Apply(p, Acquire).place == Taken && Apply(p, Acquire) == p.(place := Taken, free := p.free - 1)
    ensures p.place != Out || p.free == 0 ==> Apply(p, Acquire) == p
  {}

  /** Every way a permit can go brings it back, and leaves the rest of the pool as it was: given up before the
      hand-over, failed in dispatch, or held until the capture's terminal hook. */
  lemma PermitComesBack(p: Pool, c: Text)
    requires p.place == Out && p.free > 0 && c !in p.inFlight
    ensures Apply(Apply(Apply(p, Acquire), Release), Return) == p
    ensures Apply(Apply(Apply(Apply(p, Acquire), Hold(c)), DispatchFailed), Return) == p
    ensures Apply(Apply(Apply(Apply(Apply(p, Acquire), Hold(c)), Dispatched), Finish(c)), Return)
         == p.(finished := p.finished + {c})
  {
    var held := Apply(Apply(p, Acquire), Hold(c));
    assert held == p.(place := Dispatching(c), free := p.free - 1, inFlight := p.inFlight + {c});
    assert p.inFlight + {c} - {c} == p.inFlight;
  }
}
