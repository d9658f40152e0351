/** An actor's slots: one counter, one queue of the same bound. */
module ActorSlots {
  import opened Sets

  datatype Phase = Held | Queued | Leaving

  datatype Actor = Actor(slots: map<nat, Phase>, used: nat)

  /** A slot that has given `used` back is gone; the signal it raises next belongs to the wake-up protocol. */
  datatype Op = Reserve(slot: nat) | Commit(slot: nat, refused: bool) | Dequeue(slot: nat) | Abandon(slot: nat) | Drop(slot: nat)

  datatype Answer = NotNow | Ok | Refused | QueueFull

  datatype Result = Result(actor: Actor, answer: Answer)

  function Waiting(slots: map<nat, Phase>): set<nat> {
    set s | s in slots && slots[s] == Queued
  }

  function Apply(maximum: nat, a: Actor, op: Op): Result {
    match op
    case Reserve(s) =>
      if s in a.slots then Result(a, NotNow)
      else if a.used >= maximum then Result(a, Refused)
      else Result(Actor(a.slots[s := Held], a.used + 1), Ok)
    case Commit(s, refused) =>
      if s !in a.slots || a.slots[s] != Held then Result(a, NotNow)
      else if refused then Result(a.(slots := a.slots[s := Leaving]), Refused)
      else if |Waiting(a.slots)| >= maximum then Result(a.(slots := a.slots[s := Leaving]), QueueFull)
      else Result(a.(slots := a.slots[s := Queued]), Ok)
    case Dequeue(s) =>
      if s !in a.slots || a.slots[s] != Queued then Result(a, NotNow) else Result(a.(slots := a.slots[s := Leaving]), Ok)
    case Abandon(s) =>
      if s !in a.slots || a.slots[s] != Held then Result(a, NotNow) else Result(a.(slots := a.slots[s := Leaving]), Ok)
    case Drop(s) =>
      if s !in a.slots || a.slots[s] != Leaving then Result(a, NotNow)
      else Result(Actor(a.slots - {s}, if a.used == 0 then 0 else a.used - 1), Ok)
  }

  predicate Inv(maximum: nat, a: Actor) {
    a.used == |a.slots.Keys| && a.used <= maximum
  }

  lemma StepKeeps(maximum: nat, a: Actor, op: Op)
    requires Inv(maximum, a)
    ensures Inv(maximum, Apply(maximum, a, op).actor)
    ensures Apply(maximum, a, op).answer != QueueFull
    ensures op.slot in a.slots ==> a.used >= 1
  {
    var s := op.slot;
    var next := Apply(maximum, a, op).actor.slots;
    assert next.Keys == a.slots.Keys || next.Keys == a.slots.Keys + {s} || next.Keys == a.slots.Keys - {s};
    if op.Commit? && s in a.slots && a.slots[s] == Held {
      assert Waiting(a.slots) <= a.slots.Keys - {s};
      Smaller(Waiting(a.slots), a.slots.Keys - {s});
    }
  }

  function After(maximum: nat, ops: seq<Op>): Actor {
    if ops == [] then Actor(map[], 0) else Apply(maximum, After(maximum, ops[..|ops| - 1]), ops[|ops| - 1]).actor
  }

  /** In every interleaving: waiting <= used <= maximum, and no commit is refused with QUEUE_FULL. */
  lemma {:induction false} CommitNeverFull(maximum: nat, ops: seq<Op>)
    ensures |Waiting(After(maximum, ops).slots)| <= After(maximum, ops).used <= maximum
    ensures ops != [] ==> Apply(maximum, After(maximum, ops[..|ops| - 1]), ops[|ops| - 1]).answer != QueueFull
    ensures Inv(maximum, After(maximum, ops))
  {
    if ops == [] {
      assert Waiting(After(maximum, ops).slots) == {};
    } else {
      CommitNeverFull(maximum, ops[..|ops| - 1]);
      StepKeeps(maximum, After(maximum, ops[..|ops| - 1]), ops[|ops| - 1]);
      var slots := After(maximum, ops).slots;
      assert Waiting(slots) <= slots.Keys;
      Smaller(Waiting(slots), slots.Keys);
    }
  }

  /** A slot is granted exactly when fewer slots are out than the actor has. */
  lemma ReserveExactly(maximum: nat, ops: seq<Op>, s: nat)
    requires s !in After(maximum, ops).slots
    ensures
      var a, r := After(maximum, ops), Apply(maximum, After(maximum, ops), Reserve(s));
      && (r.answer == Ok <==> |a.slots.Keys| < maximum)
      && (r.answer == Refused <==> |a.slots.Keys| == maximum)
      && r.actor.slots == if r.answer == Ok then a.slots[s := Held] else a.slots
  {
    CommitNeverFull(maximum, ops);
  }

  /** The ways of a granted slot: committed and dequeued, abandoned, or refused at commit; then dropped. */
  datatype Way = Dequeued | Abandoned | Turned

  function Along(way: Way, s: nat): seq<Op> {
    match way
    case Dequeued => [Commit(s, false), Dequeue(s)]
    case Abandoned => [Abandon(s)]
    case Turned => [Commit(s, true)]
  }

  lemma AfterOne(maximum: nat, ops: seq<Op>, op: Op)
    ensures After(maximum, ops + [op]) == Apply(maximum, After(maximum, ops), op).actor
  {
    assert (ops + [op])[..|ops|] == ops;
  }

  lemma AfterTwo(maximum: nat, ops: seq<Op>, x: Op, y: Op)
    ensures After(maximum, ops + [x, y]) == Apply(maximum, Apply(maximum, After(maximum, ops), x).actor, y).actor
  {
    AfterOne(maximum, ops, x);
    AfterOne(maximum, ops + [x], y);
    assert ops + [x] + [y] == ops + [x, y];
  }

  /** Whichever way a granted slot goes, it leaves the actor as it was before the reservation. */
  lemma SlotComesBack(maximum: nat, ops: seq<Op>, s: nat, way: Way)
    requires s !in After(maximum, ops).slots && |After(maximum, ops).slots.Keys| < maximum
    ensures After(maximum, ops + [Reserve(s)] + Along(way, s) + [Drop(s)]) == After(maximum, ops)
  {
    var a, held := After(maximum, ops), ops + [Reserve(s)];
    AfterOne(maximum, ops, Reserve(s));
    ReserveExactly(maximum, ops, s);
    LeavesAfter(maximum, held, s, way);
    AfterOne(maximum, held + Along(way, s), Drop(s));
    CommitNeverFull(maximum, ops);
    assert a.slots[s := Held][s := Leaving] - {s} == a.slots;
  }

  lemma LeavesAfter(maximum: nat, ops: seq<Op>, s: nat, way: Way)
    requires s in After(maximum, ops).slots && After(maximum, ops).slots[s] == Held
    ensures After(maximum, ops + Along(way, s)) == After(maximum, ops).(slots := After(maximum, ops).slots[s := Leaving])
  {
    var a := After(maximum, ops);
    match way
    case Dequeued =>
      CommitNeverFull(maximum, ops);
      StepKeeps(maximum, a, Commit(s, false));
      AfterTwo(maximum, ops, Commit(s, false), Dequeue(s));
      assert a.slots[s := Queued][s := Leaving] == a.slots[s := Leaving];
    case Abandoned => AfterOne(maximum, ops, Abandon(s));
    case Turned => AfterOne(maximum, ops, Commit(s, true));
  }
}
