/** The watcher of the safety lane. */
module StopWatch {
  import opened Notify

  datatype Place = Out | Armed | Parked

  /** `pushers` have put a stop in the lane and not yet raised the signal. */
  datatype Watch = Watch(stop: bool, waiter: Waiter, place: Place, pushers: set<nat>)

  datatype Op = Push(thread: nat) | Signal(thread: nat) | Pop | Enable | Check | Wake

  function Apply(w: Watch, op: Op): Watch {
    match op
    case Push(thread) => if thread in w.pushers then w else w.(stop := true, pushers := w.pushers + {thread})
    case Signal(thread) =>
      if thread !in w.pushers then w
      else w.(pushers := w.pushers - {thread}, waiter := Woken(w.waiter))
    case Pop => w.(stop := false)
    case Enable => if w.place != Out then w else w.(place := Armed, waiter := Registered)
    case Check =>
      if w.place != Armed then w
      else if w.stop then w.(place := Out, waiter := Idle) else w.(place := Parked)
    case Wake => if w.place != Parked || w.waiter != Notified then w else w.(place := Out, waiter := Idle)
  }

  function After(ops: seq<Op>): Watch {
    if ops == [] then Watch(false, Idle, Out, {}) else Apply(After(ops[..|ops| - 1]), ops[|ops| - 1])
  }

  /** A watcher that is parked on a waiting stop has been signalled or is about to be. */
  lemma {:induction false} NoLostStop(ops: seq<Op>)
    ensures After(ops).place != Out ==> After(ops).waiter != Idle
    ensures After(ops).place == Parked && After(ops).stop ==> After(ops).waiter == Notified || After(ops).pushers != {}
  {
    if ops != [] {
      NoLostStop(ops[..|ops| - 1]);
      var op := ops[|ops| - 1];
      if op.Push? { assert op.thread in After(ops).pushers; }
    }
  }

  /** An undisturbed turn sees a waiting stop at once and parks exactly without one; and a parked watcher gets out as
      soon as one is pushed and signalled. */
  lemma WatcherSeesStop(ops: seq<Op>, thread: nat)
    requires thread !in After(ops).pushers
    ensures
      var w := After(ops);
      && (w.place == Out ==> var turned := Apply(Apply(w, Enable), Check); turned.place == if w.stop then Out else Parked)
      && (w.place == Parked ==>
            var woken := Apply(Apply(Apply(w, Push(thread)), Signal(thread)), Wake);
            woken.place == Out && woken.stop && Apply(Apply(woken, Enable), Check).place == Out && !Apply(woken, Pop).stop)
  {
    NoLostStop(ops);
  }
}
