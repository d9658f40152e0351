/** The scheduler's consumer and the two signals it sleeps on. No interleaving loses a wake-up. */
module Wakeup {
  import opened Texts
  import opened Notify

  /** A camera's live actor: `can_accept_capture` is accepting and a free slot. */
  datatype Actor = Actor(accepting: bool, used: nat, maximum: nat)

  predicate CanAccept(a: Actor) { a.accepting && a.used < a.maximum }

  /** Where the consumer is in its loop. While `Looking` it holds the queue lock: `todo` is still to be
      checked, `found` holds the descriptors whose check answered yes. */
  datatype Place = Out | Armed(half: bool) | Looking(todo: set<nat>, found: set<nat>) | Parked

  /** `inserted` are the descriptors whose producer has yet to raise the arrival signal; `raisers` the
      threads that made a camera admissible and have yet to raise the capacity signal. */
  datatype World = World(
    queue: map<nat, Text>, online: map<Text, Actor>,
    permit: bool, arrival: Waiter, capacity: Waiter, place: Place,
    inserted: set<nat>, raisers: map<nat, Text>)

  const START: World := World(map[], map[], false, Idle, Idle, Out, {}, map[])

  predicate Admissible(w: World, ticket: nat) {
    ticket in w.queue && w.queue[ticket] in w.online && CanAccept(w.online[w.queue[ticket]])
  }

  datatype Op =
    | Insert(ticket: nat, camera: Text)
    | SignalArrival(ticket: nat)
    | Remove(tickets: set<nat>)
    | BroadcastArrival
    | Online(camera: Text, actor: Actor, thread: nat)
    | Offline(camera: Text)
    | StopAccepting(camera: Text)
    | TakeSlot(camera: Text)
    | ReleaseSlot(camera: Text, thread: nat)
    | SignalCapacity(thread: nat)
    | BroadcastCapacity
    | EnableArrival
    | EnableCapacity
    | BeginLook(dead: set<nat>)
    | Check(ticket: nat)
    | EndLook(best: nat, kept: bool)
    | Wake(kept: bool)

  predicate Locked(w: World) { w.place.Looking? }

  /** Producers. Removal covers expiry, cancellation and explicit removal. */
  function Produce(w: World, op: Op): World
    requires op.Insert? || op.SignalArrival? || op.Remove? || op.BroadcastArrival?
  {
    match op
    case Insert(t, camera) =>
      if Locked(w) || t in w.queue || t in w.inserted then w
      else w.(queue := w.queue[t := camera], inserted := w.inserted + {t})
    case SignalArrival(t) =>
      if t !in w.inserted then w
      else
        var raised := w.(inserted := w.inserted - {t});
        if w.arrival == Registered then raised.(arrival := Notified) else raised.(permit := true)
    case Remove(tickets) => if Locked(w) then w else w.(queue := w.queue - tickets)
    case BroadcastArrival => w.(arrival := Woken(w.arrival))
  }

  /** Everything that changes what the cameras can take. */
  function Change(w: World, op: Op): World
    requires op.Online? || op.Offline? || op.StopAccepting? || op.TakeSlot? || op.ReleaseSlot? || op.SignalCapacity? || op.BroadcastCapacity?
  {
    match op
    case Online(camera, actor, thread) =>
      if thread in w.raisers then w
      else w.(online := w.online[camera := actor], raisers := w.raisers[thread := camera])
    case Offline(camera) => w.(online := w.online - {camera})
    case StopAccepting(camera) =>
      if camera !in w.online then w else w.(online := w.online[camera := w.online[camera].(accepting := false)])
    case TakeSlot(camera) =>
      if camera !in w.online || w.online[camera].used >= w.online[camera].maximum then w
      else w.(online := w.online[camera := w.online[camera].(used := w.online[camera].used + 1)])
    case ReleaseSlot(camera, thread) =>
      if camera !in w.online || w.online[camera].used == 0 || thread in w.raisers then w
      else w.(online := w.online[camera := w.online[camera].(used := w.online[camera].used - 1)],
              raisers := w.raisers[thread := camera])
    case SignalCapacity(thread) =>
      if thread !in w.raisers then w else w.(raisers := w.raisers - {thread}, capacity := Woken(w.capacity))
    case BroadcastCapacity => w.(capacity := Woken(w.capacity))
  }

  /** Leaving the loop drops both waiters; `kept` says whether an unconsumed arrival goes back as a permit. */
  function Leave(w: World, kept: bool): World {
    w.(place := Out, arrival := Idle, capacity := Idle, permit := w.permit || (kept && w.arrival == Notified))
  }

  /** The consumer: enable both waiters, look, park, wake. */
  function Consume(w: World, op: Op): World
    requires op.EnableArrival? || op.EnableCapacity? || op.BeginLook? || op.Check? || op.EndLook? || op.Wake?
  {
    match op
    case EnableArrival =>
      if w.place != Out then w
      else w.(place := Armed(true), arrival := if w.permit then Notified else Registered, permit := false)
    case EnableCapacity =>
      if w.place != Armed(true) then w else w.(place := Armed(false), capacity := Registered)
    case BeginLook(dead) =>
      if w.place != Armed(false) then w
      else w.(queue := w.queue - dead, place := Looking((w.queue - dead).Keys, {}))
    case Check(t) =>
      if !w.place.Looking? || t !in w.place.todo then w
      else w.(place := Looking(w.place.todo - {t}, w.place.found + (if Admissible(w, t) then {t} else {})))
    case EndLook(best, kept) =>
      if !w.place.Looking? || w.place.todo != {} then w
      else if w.place.found != {} then (if best in w.place.found then Leave(w.(queue := w.queue - {best}), kept) else w)
      else w.(place := Parked)
    case Wake(kept) =>
      if w.place != Parked || (w.arrival != Notified && w.capacity != Notified) then w else Leave(w, kept)
  }

  predicate IsProduce(op: Op) { op.Insert? || op.SignalArrival? || op.Remove? || op.BroadcastArrival? }

  predicate IsConsume(op: Op) {
    op.EnableArrival? || op.EnableCapacity? || op.BeginLook? || op.Check? || op.EndLook? || op.Wake?
  }

  function Apply(w: World, op: Op): World {
    if IsProduce(op) then Produce(w, op) else if IsConsume(op) then Consume(w, op) else Change(w, op)
  }

  function After(ops: seq<Op>): World {
    if ops == [] then START else Apply(After(ops[..|ops| - 1]), ops[|ops| - 1])
  }

  // ---- The invariant ----------------------------------------------------------------------------------

  /** Somebody who made this camera admissible still has to say so. */
  ghost predicate CapacityOwed(w: World, camera: Text) {
    exists thread :: thread in w.raisers && w.raisers[thread] == camera
  }

  predicate Signalled(w: World) { w.arrival == Notified || w.capacity == Notified }

  /** A descriptor the consumer has passed over is covered once it is admissible: a signal has come, or
      the thread that made it admissible has yet to raise one. */
  ghost predicate Covered(w: World, t: nat) {
    Admissible(w, t) ==> w.capacity == Notified || CapacityOwed(w, w.queue[t])
  }

  ghost predicate ArrivalCovered(w: World, t: nat) {
    Covered(w, t) || w.arrival == Notified || t in w.inserted
  }

  ghost predicate Inv(w: World) {
    match w.place
    case Out => true
    case Armed(half) => w.arrival != Idle && (!half ==> w.capacity != Idle)
    case Looking(todo, found) =>
      w.arrival != Idle && w.capacity != Idle && todo <= w.queue.Keys && found <= w.queue.Keys
      && (found == {} ==> forall t {:trigger Covered(w, t)} :: t in w.queue && t !in todo ==> Covered(w, t))
    case Parked =>
      w.arrival != Idle && w.capacity != Idle
      && forall t {:trigger ArrivalCovered(w, t)} :: t in w.queue ==> ArrivalCovered(w, t)
  }

  lemma ProduceKeeps(w: World, op: Op)
    requires Inv(w) && IsProduce(op)
    ensures Inv(Produce(w, op))
  {
    var after := Produce(w, op);
    if w.place.Looking? {
      forall t | t in after.queue && Covered(w, t) ensures Covered(after, t) { OwedKept(w, after, t); }
    } else if w.place == Parked {
      forall t | t in after.queue ensures ArrivalCovered(after, t) {
        if t in w.queue { assert ArrivalCovered(w, t); OwedKept(w, after, t); }
      }
    }
  }

  lemma OwedKept(w: World, after: World, t: nat)
    requires t in w.queue && t in after.queue && w.queue[t] == after.queue[t]
    requires w.online == after.online && w.raisers == after.raisers && w.capacity == after.capacity
    ensures Covered(w, t) <==> Covered(after, t)
  {
    assert CapacityOwed(w, w.queue[t]) <==> CapacityOwed(after, after.queue[t]);
  }

  /** Whoever makes a covered descriptor admissible owes the signal for it. */
  lemma ChangeCovers(w: World, op: Op, t: nat)
    requires !IsProduce(op) && !IsConsume(op) && t in w.queue && w.capacity != Idle && Covered(w, t)
    ensures Change(w, op).queue == w.queue && Covered(Change(w, op), t)
  {
    var after := Change(w, op);
    var camera := w.queue[t];
    if Admissible(after, t) && after.capacity != Notified {
      if !Admissible(w, t) {
        assert (op.Online? || op.ReleaseSlot?) && op.camera == camera;
        assert after.raisers[op.thread] == camera;
      } else {
        var thread :| thread in w.raisers && w.raisers[thread] == camera;
        assert thread in after.raisers && after.raisers[thread] == camera;
      }
      assert CapacityOwed(after, camera);
    }
  }

  lemma ChangeKeeps(w: World, op: Op)
    requires Inv(w) && !IsProduce(op) && !IsConsume(op)
    ensures Inv(Change(w, op))
  {
    var after := Change(w, op);
    assert after.place == w.place && after.queue == w.queue && after.arrival == w.arrival && after.inserted == w.inserted;
    assert w.capacity != Idle ==> after.capacity != Idle;
    if w.place.Looking? || w.place == Parked {
      forall t | t in w.queue && Covered(w, t) ensures Covered(after, t) { ChangeCovers(w, op, t); }
      if w.place == Parked {
        forall t | t in after.queue ensures ArrivalCovered(after, t) { assert ArrivalCovered(w, t); }
      } else {
        forall t | t in after.queue && t !in w.place.todo && w.place.found == {} ensures Covered(after, t) { assert Covered(w, t); }
      }
    }
  }

  lemma ConsumeKeeps(w: World, op: Op)
    requires Inv(w) && IsConsume(op)
    ensures Inv(Consume(w, op))
  {
    var after := Consume(w, op);
    if after.place.Looking? && w.place.Looking? {
      forall t | t in after.queue && t !in after.place.todo && after.place.found == {} ensures Covered(after, t) {
        if t in w.place.todo { assert !Admissible(w, t); } else { assert Covered(w, t); }
        OwedKept(w, after, t);
      }
    } else if after.place == Parked {
      forall t | t in after.queue ensures ArrivalCovered(after, t) {
        if w.place == Parked { assert ArrivalCovered(w, t); } else { assert Covered(w, t); }
        OwedKept(w, after, t);
      }
    }
  }

  lemma {:induction false} Reachable(ops: seq<Op>)
    ensures Inv(After(ops))
  {
    if ops != [] {
      var front, op := ops[..|ops| - 1], ops[|ops| - 1];
      Reachable(front);
      if IsProduce(op) {
        ProduceKeeps(After(front), op);
      } else if IsConsume(op) {
        ConsumeKeeps(After(front), op);
      } else {
        ChangeKeeps(After(front), op);
      }
    }
  }

  /** In every interleaving: a consumer that is parked with no signal pending has no admissible descriptor
      queued, unless the thread that put it there or made it admissible has yet to raise its signal. */
  lemma NoLostWakeup(ops: seq<Op>, t: nat)
    requires After(ops).place == Parked && !Signalled(After(ops)) && Admissible(After(ops), t)
    ensures t in After(ops).inserted || CapacityOwed(After(ops), After(ops).queue[t])
  {
    Reachable(ops);
    assert ArrivalCovered(After(ops), t);
  }

  /** So once every thread has raised what it owes, a parked consumer with admissible work can wake. */
  lemma ParkedConsumerWakes(ops: seq<Op>, t: nat)
    requires After(ops).place == Parked && Admissible(After(ops), t)
    requires After(ops).inserted == {} && After(ops).raisers == map[]
    ensures Apply(After(ops), Wake(false)).place == Out
  {
    if !Signalled(After(ops)) { NoLostWakeup(ops, t); }
  }

  /** A broadcast wakes a parked consumer too. */
  lemma BroadcastWakes(ops: seq<Op>, op: Op)
    requires After(ops).place == Parked && (op == BroadcastArrival || op == BroadcastCapacity)
    ensures Apply(Apply(After(ops), op), Wake(false)).place == Out
  {
    Reachable(ops);
  }

  // ---- What a look takes ----------------------------------------------------------------------------------

  /** The checks of one look, in the order they are made. */
  function Checked(w: World, tickets: seq<nat>): World {
    if tickets == [] then w else Apply(Checked(w, tickets[..|tickets| - 1]), Check(tickets[|tickets| - 1]))
  }

  lemma {:induction false} ChecksFind(w: World, tickets: seq<nat>)
    requires w.place.Looking? && (forall t :: t in tickets ==> t in w.place.todo)
    ensures
      var after := Checked(w, tickets);
      && after == w.(place := after.place) && after.place.Looking?
      && after.place.todo == w.place.todo - (set t | t in tickets)
      && after.place.found == w.place.found + (set t | t in tickets && Ready(w, t))
  {
    if tickets != [] {
      var front, last := tickets[..|tickets| - 1], tickets[|tickets| - 1];
      assert tickets == front + [last];
      ChecksFind(w, front);
      OneCheck(Checked(w, front), last);
    }
  }

  lemma OneCheck(w: World, t: nat)
    requires w.place.Looking?
    ensures
      var after := Apply(w, Check(t));
      && after == w.(place := after.place) && after.place.Looking? && after.place.todo == w.place.todo - {t}
      && after.place.found == w.place.found + (if t in w.place.todo && Ready(w, t) then {t} else {})
  {}

  /** A descriptor whose camera has a live actor that accepts and has a free slot. */
  predicate Ready(w: World, t: nat) {
    && t in w.queue && w.queue[t] in w.online
    && w.online[w.queue[t]].accepting && w.online[w.queue[t]].used < w.online[w.queue[t]].maximum
  }

  /** An undisturbed look, whatever the order of its checks: it ends with a hand-over of `best` exactly if `best` is alive
      and its camera can take it, and parks exactly if there is no such descriptor. */
  lemma LookTakesExactly(w: World, dead: set<nat>, order: seq<nat>, best: nat, kept: bool)
    requires w.place == Armed(false) && (forall t :: t in order <==> t in w.queue && t !in dead)
    ensures
      var after := Apply(Checked(Apply(w, BeginLook(dead)), order), EndLook(best, kept));
      && (after.place == Parked <==> forall t :: Ready(w, t) ==> t in dead)
      && (after.place == Out <==> Ready(w, best) && best !in dead)
      && (after.place == Out ==> after.queue == w.queue - dead - {best})
      && (after.place == Parked ==> after.queue == w.queue - dead)
  {
    var looking := Apply(w, BeginLook(dead));
    ChecksFind(looking, order);
    var looked := Checked(looking, order);
    assert looked.place.todo == {};
    assert forall t :: t in looked.place.found <==> Ready(w, t) && t !in dead;
    assert looked.place.found == {} <==> forall t :: Ready(w, t) ==> t in dead;
  }

  /** A new descriptor is ready exactly if its camera is, and a removed one is gone. */
  lemma ArrivalsTakeEffect(w: World, t: nat, camera: Text)
    requires !Locked(w) && t !in w.queue && t !in w.inserted
    ensures
      var queued := Apply(w, Insert(t, camera));
      && queued == w.(queue := w.queue[t := camera], inserted := w.inserted + {t})
      && (Ready(queued, t) <==> camera in w.online && w.online[camera].accepting && w.online[camera].used < w.online[camera].maximum)
      && Apply(queued, Remove({t})).queue == w.queue
  {
    assert w.queue[t := camera] - {t} == w.queue;
  }

  /** A descriptor is not ready once its camera is gone or stops accepting; it is once the camera is back, accepts and has
      a free slot. */
  lemma ChangesTakeEffect(w: World, t: nat, actor: Actor, thread: nat)
    requires t in w.queue && thread !in w.raisers
    ensures
      var camera := w.queue[t];
      && !Ready(Apply(w, Offline(camera)), t) && !Ready(Apply(w, StopAccepting(camera)), t)
      && (Ready(Apply(w, Online(camera, actor, thread)), t) <==> actor.accepting && actor.used < actor.maximum)
  {}

  /** It is not ready once the camera gives out its last slot, and is again when it gets one back. */
  lemma SlotsTakeEffect(w: World, t: nat, thread: nat)
    requires Ready(w, t) && thread !in w.raisers
    ensures
      var camera := w.queue[t];
      && (Ready(Apply(w, TakeSlot(camera)), t) <==> w.online[camera].used + 1 < w.online[camera].maximum)
      && Ready(Apply(Apply(w, TakeSlot(camera)), ReleaseSlot(camera, thread)), t)
  {}

  /** An arrival that woke the consumer for nothing goes back as a permit, and the next turn finds it and spends it. */
  lemma KeptArrivalIsFound(w: World)
    requires w.place == Parked && w.arrival == Notified
    ensures !Apply(Apply(w, Wake(true)), EnableArrival).permit
    ensures Apply(Apply(w, Wake(true)), EnableArrival).arrival == Notified
    ensures !w.permit ==> Apply(Apply(w, Wake(false)), EnableArrival).arrival == Registered
  {}

  // ---- A consumer that registers late -------------------------------------------------------------------

  /** The same loop, except that it looks first and registers both waiters as it parks. */
  function LateStep(w: World, op: Op): World {
    match op
    case EnableArrival => w
    case EnableCapacity => w
    case BeginLook(dead) =>
      if w.place != Out then w else w.(queue := w.queue - dead, place := Looking((w.queue - dead).Keys, {}))
    case EndLook(best, kept) =>
      if !w.place.Looking? || w.place.todo != {} || w.place.found != {} then Apply(w, op)
      else w.(place := Parked, arrival := if w.permit then Notified else Registered, permit := false, capacity := Registered)
    case _ => Apply(w, op)
  }

  function LateAfter(ops: seq<Op>): World {
    if ops == [] then START else LateStep(LateAfter(ops[..|ops| - 1]), ops[|ops| - 1])
  }

  lemma LateNext(ops: seq<Op>, op: Op)
    ensures LateAfter(ops + [op]) == LateStep(LateAfter(ops), op)
  {
    assert (ops + [op])[..|ops|] == ops;
  }

  const CAMERA: Text := [0x63]

  /** With the camera of its one descriptor offline, a look finds nothing. */
  lemma LookInVain(ops: seq<Op>)
    requires var w := LateAfter(ops); w.place == Out && w.queue == map[1 := CAMERA] && w.online == map[]
    ensures LateAfter(ops + [BeginLook({})] + [Check(1)]) == LateAfter(ops).(place := Looking({}, {}))
  {
    var w := LateAfter(ops);
    LateNext(ops, BeginLook({}));
    LateNext(ops + [BeginLook({})], Check(1));
    assert w.queue - {} == w.queue && w.queue.Keys == {1};
    var looking := LateStep(w, BeginLook({}));
    assert looking == w.(place := Looking({1}, {}));
    assert {1} - {1} == {} && !Admissible(looking, 1);
  }

  const ARRIVED: seq<Op> := [] + [Insert(1, CAMERA)] + [SignalArrival(1)]
  const RETURNED: seq<Op> := ARRIVED + [BeginLook({})] + [Check(1)] + [EndLook(1, false)] + [Wake(false)]

  lemma HasArrived()
    ensures LateAfter(ARRIVED) == World(map[1 := CAMERA], map[], true, Idle, Idle, Out, {}, map[])
  {
    LateNext([], Insert(1, CAMERA));
    LateNext([] + [Insert(1, CAMERA)], SignalArrival(1));
    ArrivalIsStored();
  }

  lemma ArrivalIsStored()
    ensures LateStep(LateStep(START, Insert(1, CAMERA)), SignalArrival(1))
         == World(map[1 := CAMERA], map[], true, Idle, Idle, Out, {}, map[])
  {
    var inserted := LateStep(START, Insert(1, CAMERA));
    assert inserted == START.(queue := map[1 := CAMERA], inserted := {1});
    assert {1} - {1} == {};
  }

  /** The first look is in vain; the arrival it had stored wakes it at once, and then it looks again. */
  lemma HasReturned()
    ensures LateAfter(RETURNED) == World(map[1 := CAMERA], map[], false, Idle, Idle, Out, {}, map[])
  {
    HasArrived();
    LookInVain(ARRIVED);
    var looked := ARRIVED + [BeginLook({})] + [Check(1)];
    LateNext(looked, EndLook(1, false));
    LateNext(looked + [EndLook(1, false)], Wake(false));
  }

  const READY: Actor := Actor(true, 0, 1)

  /** The camera comes online while the second look is on, and its signal finds nobody. */
  const STUCK: seq<Op> :=
    RETURNED + [BeginLook({})] + [Check(1)] + [Online(CAMERA, READY, 7)] + [SignalCapacity(7)] + [EndLook(1, false)]

  /** A run of that consumer ends parked on a descriptor it could take, with nothing owed to it and nothing
      that it can do about it. Enabling the waiters before the look is what rules this out. */
  lemma RegisteringLateLosesIt()
    ensures var w := LateAfter(STUCK);
      && w.place == Parked && Admissible(w, 1) && !Signalled(w) && w.inserted == {} && w.raisers == map[]
      && forall op :: IsConsume(op) ==> LateStep(w, op) == w
  {
    HasReturned();
    LookInVain(RETURNED);
    var looked := RETURNED + [BeginLook({})] + [Check(1)];
    SignalFindsNobody(looked, LateAfter(looked));
  }

  lemma SignalFindsNobody(looked: seq<Op>, w: World)
    requires w == LateAfter(looked) && w == World(map[1 := CAMERA], map[], false, Idle, Idle, Looking({}, {}), {}, map[])
    ensures LateAfter(looked + [Online(CAMERA, READY, 7)] + [SignalCapacity(7)] + [EndLook(1, false)])
         == World(map[1 := CAMERA], map[CAMERA := READY], false, Registered, Registered, Parked, {}, map[])
  {
    ThreeMore(looked, Online(CAMERA, READY, 7), SignalCapacity(7), EndLook(1, false));
    SignalLost(w);
  }

  lemma ThreeMore(ops: seq<Op>, a: Op, b: Op, c: Op)
    ensures LateAfter(ops + [a] + [b] + [c]) == LateStep(LateStep(LateStep(LateAfter(ops), a), b), c)
  {
    LateNext(ops, a);
    LateNext(ops + [a], b);
    LateNext(ops + [a] + [b], c);
  }

  lemma SignalLost(w: World)
    requires w == World(map[1 := CAMERA], map[], false, Idle, Idle, Looking({}, {}), {}, map[])
    ensures LateStep(LateStep(LateStep(w, Online(CAMERA, READY, 7)), SignalCapacity(7)), EndLook(1, false))
         == World(map[1 := CAMERA], map[CAMERA := READY], false, Registered, Registered, Parked, {}, map[])
  {
    var online := LateStep(w, Online(CAMERA, READY, 7));
    assert online == w.(online := map[CAMERA := READY], raisers := map[7 := CAMERA]);
    var signalled := LateStep(online, SignalCapacity(7));
    assert signalled == w.(online := map[CAMERA := READY]);
  }
}
