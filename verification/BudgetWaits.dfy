/** One reservation waiting for bytes, and the releases that should wake it. Its waiter is built before it loads
    and first polled after, and the two readings of an unpolled waiter differ. */
module BudgetWaits {
  import opened Notify

  /** The turn of the loop it is in. `seen` is what it loaded. */
  datatype Place = Out | Built | Loaded(seen: nat) | Parked | Reserved

  /** `owed` are the releases that have added their bytes back and not yet signalled. `overlooked` records
      that this turn's waiter was signalled while it did not count as registered. */
  datatype Wait = Wait(available: nat, place: Place, waiter: Waiter, owed: set<nat>, overlooked: bool)

  datatype Op =
    | Build | Load | Exchange(spurious: bool) | Poll | Wake
    | TakenByOthers(bytes: nat) | AddBack(release: nat, bytes: nat) | Signal(release: nat)

  /** `counted` is the reading in which a waiter counts from its creation on; in the other it counts from its
      first poll. */
  datatype Reading = Reading(counted: bool, amount: nat)

  function Apply(r: Reading, w: Wait, op: Op): Wait {
    match op
    case Build =>
      if w.place != Out then w else w.(place := Built, waiter := if r.counted then Registered else Idle, overlooked := false)
    case Load => if w.place != Built then w else w.(place := Loaded(w.available))
    case Exchange(spurious) =>
      if !w.place.Loaded? || w.place.seen < r.amount then w
      else if spurious || w.available != w.place.seen then w.(place := Out, waiter := Idle)
      else w.(place := Reserved, waiter := Idle, available := w.available - r.amount)
    case Poll =>
      if !w.place.Loaded? || w.place.seen >= r.amount then w
      else w.(place := Parked, waiter := if w.waiter == Idle then Registered else w.waiter)
    case Wake => if w.place != Parked || w.waiter != Notified then w else w.(place := Out, waiter := Idle)
    case TakenByOthers(bytes) => if bytes > w.available then w else w.(available := w.available - bytes)
    case AddBack(release, bytes) =>
      if release in w.owed then w else w.(available := w.available + bytes, owed := w.owed + {release})
    case Signal(release) =>
      if release !in w.owed then w
      else w.(owed := w.owed - {release}, waiter := Woken(w.waiter),
              overlooked := w.overlooked || (w.waiter == Idle && (w.place.Built? || w.place.Loaded?)))
  }

  function After(r: Reading, capacity: nat, ops: seq<Op>): Wait {
    if ops == [] then Wait(capacity, Out, Idle, {}, false) else Apply(r, After(r, capacity, ops[..|ops| - 1]), ops[|ops| - 1])
  }

  /** Past its load it knew of too little room. If there is enough now, a release has brought it. */
  predicate Accounted(r: Reading, w: Wait) {
    (w.place == Parked || (w.place.Loaded? && w.place.seen < r.amount)) && w.available >= r.amount ==>
      w.waiter == Notified || w.owed != {} || w.overlooked
  }

  predicate Inv(r: Reading, w: Wait) {
    && Accounted(r, w)
    && (w.place == Parked ==> w.waiter != Idle)
    && (r.counted ==> !w.overlooked && (w.place.Built? || w.place.Loaded? ==> w.waiter != Idle))
  }

  lemma StepKeeps(r: Reading, w: Wait, op: Op)
    requires Inv(r, w)
    ensures Inv(r, Apply(r, w, op))
  {
    var after := Apply(r, w, op);
    if op.AddBack? { assert op.release in after.owed; }
  }

  lemma {:induction false} Reachable(r: Reading, capacity: nat, ops: seq<Op>)
    ensures Inv(r, After(r, capacity, ops))
  {
    if ops != [] {
      Reachable(r, capacity, ops[..|ops| - 1]);
      StepKeeps(r, After(r, capacity, ops[..|ops| - 1]), ops[|ops| - 1]);
    }
  }

  /** Asleep with room enough, no signal on its way and none owed: only the deadline or a later release helps. */
  predicate Lost(r: Reading, w: Wait) {
    w.place == Parked && w.waiter != Notified && w.owed == {} && w.available >= r.amount
  }

  /** If waiters count from creation, no interleaving loses a release. If they count from the first poll, one
      is lost only by a signal that came between building the waiter and polling it. */
  lemma ReleaseIsLostOnlyUnpolled(r: Reading, capacity: nat, ops: seq<Op>)
    requires Lost(r, After(r, capacity, ops))
    ensures !r.counted && After(r, capacity, ops).overlooked
  {
    Reachable(r, capacity, ops);
  }

  /** Everything is taken; the waiter is built and the load finds nothing; all comes back and is signalled; and
      only then is the waiter polled. */
  function Slip(capacity: nat): seq<Op> {
    [TakenByOthers(capacity), Build, Load, AddBack(0, capacity), Signal(0), Poll]
  }

  lemma Slipped(r: Reading, capacity: nat)
    requires 1 <= r.amount <= capacity
    ensures After(r, capacity, Slip(capacity)) == Wait(capacity, Parked, if r.counted then Notified else Registered, {}, !r.counted)
  {
    var slip := Slip(capacity);
    var built := if r.counted then Registered else Idle;
    assert slip[..5][..4] == slip[..4] && slip[..4][..3] == slip[..3] && slip[..3][..2] == slip[..2];
    assert slip[..2][..1] == slip[..1] && slip[..1][..0] == [];
    assert After(r, capacity, slip[..1]) == Wait(0, Out, Idle, {}, false);
    assert After(r, capacity, slip[..2]) == Wait(0, Built, built, {}, false);
    assert After(r, capacity, slip[..3]) == Wait(0, Loaded(0), built, {}, false);
    assert After(r, capacity, slip[..4]) == Wait(capacity, Loaded(0), built, {0}, false);
    assert After(r, capacity, slip[..5]) == Wait(capacity, Loaded(0), Woken(built), {}, !r.counted);
  }

  /** For every amount a reservation may ask for: some interleaving loses a release if and only if waiters do not
      count from creation. */
  lemma ReleaseCanBeLostExactly(r: Reading, capacity: nat)
    requires 1 <= r.amount <= capacity
    ensures (exists ops :: Lost(r, After(r, capacity, ops))) <==> !r.counted
  {
    if r.counted {
      forall ops ensures !Lost(r, After(r, capacity, ops)) {
        if Lost(r, After(r, capacity, ops)) { ReleaseIsLostOnlyUnpolled(r, capacity, ops); }
      }
    } else {
      Slipped(r, capacity);
      assert Lost(r, After(r, capacity, Slip(capacity)));
    }
  }

  /** An undisturbed turn takes its bytes exactly if there are enough, and parks exactly if there are not. A parked one
      whose release brings enough takes them on its next turn. */
  lemma TurnTakesExactly(r: Reading, w: Wait, release: nat, bytes: nat)
    requires w.place == Out && release !in w.owed
    ensures
      var loaded := Apply(r, Apply(r, w, Build), Load);
      var parked := Apply(r, loaded, Poll);
      && (Apply(r, loaded, Exchange(false)).place == Reserved <==> r.amount <= w.available)
      && (r.amount <= w.available ==> Apply(r, loaded, Exchange(false)).available == w.available - r.amount)
      && (parked.place == Parked <==> w.available < r.amount) && parked.available == w.available
      && (w.available < r.amount <= w.available + bytes ==>
            var woken := Apply(r, Apply(r, Apply(r, parked, AddBack(release, bytes)), Signal(release)), Wake);
            && woken.place == Out && woken.owed == w.owed
            && Apply(r, Apply(r, Apply(r, woken, Build), Load), Exchange(false)).place == Reserved)
  {
    var parked := Apply(r, Apply(r, Apply(r, w, Build), Load), Poll);
    assert parked.owed + {release} - {release} == w.owed;
  }
}
