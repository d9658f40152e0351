/** The scheduler's reservable slots against its queue, in every interleaving of the threads that reserve,
    commit, dequeue and drop. */
module FleetSlots {
  import opened Texts
  import opened Options
  import opened Sets

  /** Where one slot is: with its reservation, with a queued descriptor, on its way to be dropped, or
      half dropped, with `used` given back and `per_camera` not yet. */
  datatype Phase = Held | Queued | Leaving | Dropping

  datatype Slot = Slot(camera: Text, phase: Phase)

  datatype Limits = Limits(maximum: nat, perCamera: nat)

  /** `queue` maps a queued slot to the camera its descriptor names. `reserving` is the camera of the
      reservation that holds the `per_camera` lock. */
  datatype Fleet = Fleet(
    slots: map<nat, Slot>, queue: map<nat, Text>, used: nat, perCamera: map<Text, nat>, reserving: Option<Text>)

  const IDLE: Fleet := Fleet(map[], map[], 0, map[], None)

  datatype Op =
    | BeginReserve(camera: Text)
    | TakeGlobal(slot: nat)
    | Commit(slot: nat, camera: Text, refused: bool)
    | Dequeue(slot: nat)
    | Abandon(slot: nat)
    | GiveBackUsed(slot: nat)
    | GiveBackCamera(slot: nat)

  /** `NotNow` is a step that its thread cannot take yet. */
  datatype Answer = NotNow | Ok | Refused | QueueFull

  datatype Result = Result(fleet: Fleet, answer: Answer)

  function Count(counts: map<Text, nat>, camera: Text): nat {
    if camera in counts then counts[camera] else 0
  }

  /** The reservation enters the camera in the map before it looks, and leaves a zero behind when refused. */
  function BeginReserveStep(limits: Limits, f: Fleet, camera: Text): Result {
    if f.reserving.Some? then Result(f, NotNow)
    else
      var entered := f.(perCamera := f.perCamera[camera := Count(f.perCamera, camera)]);
      if Count(f.perCamera, camera) >= limits.perCamera then Result(entered, Refused)
      else Result(entered.(reserving := Some(camera)), Ok)
  }

  function TakeGlobalStep(limits: Limits, f: Fleet, s: nat): Result {
    if f.reserving.None? || s in f.slots then Result(f, NotNow)
    else if f.used >= limits.maximum then Result(f.(reserving := None), Refused)
    else
      var camera := f.reserving.value;
      Result(f.(slots := f.slots[s := Slot(camera, Held)], used := f.used + 1,
                perCamera := f.perCamera[camera := Count(f.perCamera, camera) + 1], reserving := None), Ok)
  }

  function OfQueue(queue: map<nat, Text>, camera: Text): set<nat> {
    set s | s in queue && queue[s] == camera
  }

  predicate In(f: Fleet, s: nat, phase: Phase) {
    s in f.slots && f.slots[s].phase == phase
  }

  function Moved(f: Fleet, s: nat, phase: Phase): map<nat, Slot>
    requires s in f.slots
  {
    f.slots[s := f.slots[s].(phase := phase)]
  }

  /** `refused` stands for the refusals that have nothing to do with capacity. */
  function CommitStep(limits: Limits, f: Fleet, s: nat, camera: Text, refused: bool): Result {
    if !In(f, s, Held) then Result(f, NotNow)
    else if refused then Result(f.(slots := Moved(f, s, Leaving)), Refused)
    else if |f.queue| >= limits.maximum || |OfQueue(f.queue, camera)| >= limits.perCamera then
      Result(f.(slots := Moved(f, s, Leaving)), QueueFull)
    else Result(f.(slots := Moved(f, s, Queued), queue := f.queue[s := camera]), Ok)
  }

  function GiveBackCameraStep(f: Fleet, s: nat): Result {
    if !In(f, s, Dropping) || f.reserving.Some? then Result(f, NotNow)
    else
      var camera := f.slots[s].camera;
      var rest := f.(slots := f.slots - {s});
      if camera !in f.perCamera then Result(rest, Ok)
      else if f.perCamera[camera] <= 1 then Result(rest.(perCamera := f.perCamera - {camera}), Ok)
      else Result(rest.(perCamera := f.perCamera[camera := f.perCamera[camera] - 1]), Ok)
  }

  function Apply(limits: Limits, f: Fleet, op: Op): Result {
    match op
    case BeginReserve(camera) => BeginReserveStep(limits, f, camera)
    case TakeGlobal(s) => TakeGlobalStep(limits, f, s)
    case Commit(s, camera, refused) => CommitStep(limits, f, s, camera, refused)
    case Dequeue(s) =>
      if !In(f, s, Queued) then Result(f, NotNow)
      else Result(f.(slots := Moved(f, s, Leaving), queue := f.queue - {s}), Ok)
    case Abandon(s) =>
      if !In(f, s, Held) then Result(f, NotNow) else Result(f.(slots := Moved(f, s, Leaving)), Ok)
    case GiveBackUsed(s) =>
      if !In(f, s, Leaving) then Result(f, NotNow)
      else Result(f.(slots := Moved(f, s, Dropping), used := if f.used == 0 then 0 else f.used - 1), Ok)
    case GiveBackCamera(s) => GiveBackCameraStep(f, s)
  }

  // ---- The invariant --------------------------------------------------------------------------------

  function Taken(slots: map<nat, Slot>): set<nat> {
    set s | s in slots && slots[s].phase != Dropping
  }

  function Of(slots: map<nat, Slot>, camera: Text): set<nat> {
    set s | s in slots && slots[s].camera == camera
  }

  ghost predicate CamerasCounted(f: Fleet) {
    forall c :: Count(f.perCamera, c) == |Of(f.slots, c)|
  }

  /** Whichever camera a descriptor names, it is queued with a slot of its own. */
  ghost predicate Queues(f: Fleet) {
    forall s :: s in f.queue <==> In(f, s, Queued)
  }

  ghost predicate Bounded(limits: Limits, f: Fleet) {
    && f.used <= limits.maximum && (forall c :: Count(f.perCamera, c) <= limits.perCamera)
    && (f.reserving.Some? ==> Count(f.perCamera, f.reserving.value) < limits.perCamera)
  }

  ghost predicate Inv(limits: Limits, f: Fleet) {
    f.used == |Taken(f.slots)| && CamerasCounted(f) && Queues(f) && Bounded(limits, f)
  }

  // ---- What a held slot is worth ----------------------------------------------------------------------

  /** Queued descriptors never outnumber the slots in use, and no camera holds more slots than it may. */
  lemma QueuedWithinUsed(limits: Limits, f: Fleet, camera: Text)
    requires Inv(limits, f)
    ensures |f.queue| <= f.used <= limits.maximum && Count(f.perCamera, camera) <= limits.perCamera
  {
    assert f.queue.Keys <= Taken(f.slots);
    Smaller(f.queue.Keys, Taken(f.slots));
  }

  /** A held slot always leaves global room for its descriptor. */
  lemma GlobalRoomForHeld(limits: Limits, f: Fleet, s: nat)
    requires Inv(limits, f) && In(f, s, Held)
    ensures |f.queue| < limits.maximum
  {
    assert f.queue.Keys <= Taken(f.slots) - {s} && s in Taken(f.slots);
    Smaller(f.queue.Keys, Taken(f.slots) - {s});
  }

  /** The descriptors queued under a camera's name from a slot of another camera. */
  function Foreign(f: Fleet, camera: Text): set<nat> {
    set s | s in f.queue && f.queue[s] == camera && !(s in f.slots && f.slots[s].camera == camera)
  }

  function Own(f: Fleet, camera: Text): set<nat> {
    set s | s in f.queue && f.queue[s] == camera && s in f.slots && f.slots[s].camera == camera
  }

  lemma OwnAndForeign(f: Fleet, camera: Text)
    ensures |OfQueue(f.queue, camera)| == |Own(f, camera)| + |Foreign(f, camera)|
  {
    assert OfQueue(f.queue, camera) == Own(f, camera) + Foreign(f, camera);
  }

  /** What is queued from a camera's own slots stays within its count, and a held one is not among it. */
  lemma OwnWithinCount(limits: Limits, f: Fleet, camera: Text)
    requires Inv(limits, f)
    ensures |Own(f, camera)| <= Count(f.perCamera, camera)
    ensures (exists s :: In(f, s, Held) && f.slots[s].camera == camera) ==> |Own(f, camera)| < Count(f.perCamera, camera)
  {
    assert Count(f.perCamera, camera) == |Of(f.slots, camera)|;
    Smaller(Own(f, camera), Of(f.slots, camera));
    if s :| In(f, s, Held) && f.slots[s].camera == camera {
      assert s !in f.queue && s in Of(f.slots, camera);
      Smaller(Own(f, camera), Of(f.slots, camera) - {s});
    }
  }

  /** Exactly when a holder's commit is refused for lack of room: never globally, and for its camera only
      when foreign descriptors under that name have taken up what its own slots left. */
  lemma RefusalIsExact(limits: Limits, f: Fleet, s: nat, camera: Text)
    requires Inv(limits, f) && In(f, s, Held)
    ensures CommitStep(limits, f, s, camera, false).answer == QueueFull
       <==> |Own(f, camera)| + |Foreign(f, camera)| >= limits.perCamera
    ensures f.slots[s].camera == camera ==> |Own(f, camera)| < limits.perCamera
    ensures f.slots[s].camera == camera && Foreign(f, camera) == {} ==> CommitStep(limits, f, s, camera, false).answer == Ok
  {
    GlobalRoomForHeld(limits, f, s);
    OwnAndForeign(f, camera);
    OwnWithinCount(limits, f, camera);
    assert Count(f.perCamera, camera) <= limits.perCamera;
  }

  // ---- Every access keeps it ----------------------------------------------------------------------------

  /** A change of phase leaves every camera's slots as they are. */
  lemma MoveKeepsCameras(f: Fleet, after: Fleet, s: nat, phase: Phase)
    requires s in f.slots && after.slots == Moved(f, s, phase) && after.perCamera == f.perCamera && CamerasCounted(f)
    ensures CamerasCounted(after)
  {
    forall c ensures Count(after.perCamera, c) == |Of(after.slots, c)| {
      assert Count(f.perCamera, c) == |Of(f.slots, c)| && Of(after.slots, c) == Of(f.slots, c);
    }
  }

  lemma MoveKeepsTaken(f: Fleet, s: nat, phase: Phase)
    requires s in f.slots && f.slots[s].phase != Dropping
    ensures s in Taken(f.slots) && |Taken(f.slots)| >= 1
    ensures Taken(Moved(f, s, phase)) == if phase == Dropping then Taken(f.slots) - {s} else Taken(f.slots)
  {
    assert Taken(f.slots) == (Taken(f.slots) - {s}) + {s};
  }

  lemma SlotAdded(slots: map<nat, Slot>, s: nat, slot: Slot, c: Text)
    requires s !in slots
    ensures |Of(slots[s := slot], c)| == |Of(slots, c)| + if slot.camera == c then 1 else 0
  {
    assert Of(slots[s := slot], c) == Of(slots, c) + if slot.camera == c then {s} else {};
  }

  lemma TakeCounts(limits: Limits, f: Fleet, s: nat, c: Text)
    requires CamerasCounted(f) && Bounded(limits, f) && TakeGlobalStep(limits, f, s).answer == Ok
    ensures var after := TakeGlobalStep(limits, f, s).fleet;
      Count(after.perCamera, c) == |Of(after.slots, c)| && Count(after.perCamera, c) <= limits.perCamera
  {
    var after := TakeGlobalStep(limits, f, s).fleet;
    assert Count(f.perCamera, c) == |Of(f.slots, c)|;
    SlotAdded(f.slots, s, Slot(f.reserving.value, Held), c);
  }

  lemma TakeCameras(limits: Limits, f: Fleet, s: nat)
    requires CamerasCounted(f) && Bounded(limits, f) && TakeGlobalStep(limits, f, s).answer == Ok
    ensures CamerasCounted(TakeGlobalStep(limits, f, s).fleet) && Bounded(limits, TakeGlobalStep(limits, f, s).fleet)
  {
    var after := TakeGlobalStep(limits, f, s).fleet;
    forall c ensures Count(after.perCamera, c) == |Of(after.slots, c)| && Count(after.perCamera, c) <= limits.perCamera {
      TakeCounts(limits, f, s, c);
    }
  }

  lemma TakeQueues(limits: Limits, f: Fleet, s: nat)
    requires Queues(f) && f.used == |Taken(f.slots)| && TakeGlobalStep(limits, f, s).answer == Ok
    ensures Queues(TakeGlobalStep(limits, f, s).fleet)
    ensures f.used + 1 == |Taken(TakeGlobalStep(limits, f, s).fleet.slots)|
  {
    var after := TakeGlobalStep(limits, f, s).fleet;
    assert Taken(after.slots) == Taken(f.slots) + {s};
    assert forall q :: In(after, q, Queued) <==> In(f, q, Queued);
  }

  lemma TakeKeeps(limits: Limits, f: Fleet, s: nat)
    requires Inv(limits, f)
    ensures Inv(limits, TakeGlobalStep(limits, f, s).fleet)
  {
    if TakeGlobalStep(limits, f, s).answer == Ok {
      TakeCameras(limits, f, s);
      TakeQueues(limits, f, s);
    }
  }

  /** The second half of a drop always finds its camera counted: nothing saturates. */
  lemma GiveBackCameraKeeps(limits: Limits, f: Fleet, s: nat)
    requires Inv(limits, f)
    ensures Inv(limits, GiveBackCameraStep(f, s).fleet)
    ensures In(f, s, Dropping) ==> f.slots[s].camera in f.perCamera && f.perCamera[f.slots[s].camera] >= 1
  {
    if In(f, s, Dropping) {
      SlotRemoved(f.slots, s, f.slots[s].camera);
      assert Count(f.perCamera, f.slots[s].camera) == |Of(f.slots, f.slots[s].camera)|;
      var r := GiveBackCameraStep(f, s);
      if r.answer == Ok {
        assert Taken(r.fleet.slots) == Taken(f.slots);
        forall c ensures Count(r.fleet.perCamera, c) == |Of(r.fleet.slots, c)| && Count(r.fleet.perCamera, c) <= limits.perCamera {
          SlotRemoved(f.slots, s, c);
          assert Count(f.perCamera, c) == |Of(f.slots, c)|;
        }
      }
    }
  }

  lemma SlotRemoved(slots: map<nat, Slot>, s: nat, c: Text)
    requires s in slots
    ensures |Of(slots - {s}, c)| == |Of(slots, c)| - if slots[s].camera == c then 1 else 0
  {
    assert (slots - {s})[s := slots[s]] == slots;
    SlotAdded(slots - {s}, s, slots[s], c);
  }

  lemma CommitKeeps(limits: Limits, f: Fleet, s: nat, camera: Text, refused: bool)
    requires Inv(limits, f)
    ensures Inv(limits, CommitStep(limits, f, s, camera, refused).fleet)
  {
    if In(f, s, Held) {
      var after := CommitStep(limits, f, s, camera, refused).fleet;
      MoveKeepsCameras(f, after, s, after.slots[s].phase);
      MoveKeepsTaken(f, s, after.slots[s].phase);
    }
  }

  lemma LeavesQueue(f: Fleet, after: Fleet, s: nat, phase: Phase)
    requires Queues(f) && s in f.slots && phase != Queued && after.slots == Moved(f, s, phase) && after.queue == f.queue - {s}
    ensures Queues(after)
  {
    forall q ensures q in after.queue <==> In(after, q, Queued) {
      assert q in f.queue <==> In(f, q, Queued);
    }
  }

  /** A slot that is given back was counted: `used` never runs below zero. */
  lemma MoveKeeps(limits: Limits, f: Fleet, op: Op)
    requires Inv(limits, f) && (op.Dequeue? || op.Abandon? || op.GiveBackUsed?)
    ensures Inv(limits, Apply(limits, f, op).fleet)
    ensures In(f, op.slot, Leaving) ==> f.used >= 1
  {
    var r := Apply(limits, f, op);
    if r.answer == Ok {
      MoveKeepsCameras(f, r.fleet, op.slot, r.fleet.slots[op.slot].phase);
      MoveKeepsTaken(f, op.slot, r.fleet.slots[op.slot].phase);
      assert r.fleet.queue == f.queue - {op.slot};
      LeavesQueue(f, r.fleet, op.slot, r.fleet.slots[op.slot].phase);
    }
    if In(f, op.slot, Leaving) { MoveKeepsTaken(f, op.slot, Dropping); }
  }

  /** Whatever cameras the commits name. */
  lemma StepKeeps(limits: Limits, f: Fleet, op: Op)
    requires Inv(limits, f)
    ensures Inv(limits, Apply(limits, f, op).fleet)
  {
    match op
    case BeginReserve(camera) => {}
    case TakeGlobal(s) => TakeKeeps(limits, f, s);
    case Commit(s, camera, refused) => CommitKeeps(limits, f, s, camera, refused);
    case Dequeue(s) => MoveKeeps(limits, f, op);
    case Abandon(s) => MoveKeeps(limits, f, op);
    case GiveBackUsed(s) => MoveKeeps(limits, f, op);
    case GiveBackCamera(s) => GiveBackCameraKeeps(limits, f, s);
  }

  // ---- Runs -------------------------------------------------------------------------------------------

  function After(limits: Limits, ops: seq<Op>): Fleet {
    if ops == [] then IDLE else Apply(limits, After(limits, ops[..|ops| - 1]), ops[|ops| - 1]).fleet
  }

  /** In every interleaving, whatever the commits name: queued <= used <= maximum, no camera holds more slots
      than it may, and a held slot always has global room. */
  lemma {:induction false} BoundsHold(limits: Limits, ops: seq<Op>, camera: Text)
    ensures Inv(limits, After(limits, ops))
    ensures |After(limits, ops).queue| <= After(limits, ops).used <= limits.maximum
    ensures Count(After(limits, ops).perCamera, camera) <= limits.perCamera
    ensures forall s :: In(After(limits, ops), s, Held) ==> |After(limits, ops).queue| < limits.maximum
  {
    if ops == [] {
      assert Taken(IDLE.slots) == {} && forall c :: Of(IDLE.slots, c) == {};
    } else {
      BoundsHold(limits, ops[..|ops| - 1], camera);
      StepKeeps(limits, After(limits, ops[..|ops| - 1]), ops[|ops| - 1]);
    }
    var f := After(limits, ops);
    QueuedWithinUsed(limits, f, camera);
    forall s | In(f, s, Held) ensures |f.queue| < limits.maximum { GlobalRoomForHeld(limits, f, s); }
  }

  /** A commit under this camera's name from a slot reserved for another. */
  predicate Trespasses(f: Fleet, op: Op, camera: Text) {
    op.Commit? && op.camera == camera && In(f, op.slot, Held) && f.slots[op.slot].camera != camera
  }

  lemma StepForeign(limits: Limits, f: Fleet, op: Op, camera: Text, s: nat)
    requires Inv(limits, f) && s in Foreign(Apply(limits, f, op).fleet, camera)
    ensures s in Foreign(f, camera) || (Trespasses(f, op, camera) && op.slot == s)
  {
    StepKeeps(limits, f, op);
    if !op.Commit? { QueuedBefore(limits, f, op, s); }
  }

  /** Only a commit puts a slot into the queue. */
  lemma QueuedBefore(limits: Limits, f: Fleet, op: Op, s: nat)
    requires !op.Commit? && s in Apply(limits, f, op).fleet.queue
    ensures s in f.queue && f.queue[s] == Apply(limits, f, op).fleet.queue[s]
    ensures s in f.slots && s in Apply(limits, f, op).fleet.slots ==> Apply(limits, f, op).fleet.slots[s].camera == f.slots[s].camera
  {}

  /** Every foreign descriptor in the queue was committed by a trespass. */
  lemma {:induction false} ForeignWasCommitted(limits: Limits, ops: seq<Op>, camera: Text, s: nat) returns (i: nat)
    requires s in Foreign(After(limits, ops), camera)
    ensures i < |ops| && Trespasses(After(limits, ops[..i]), ops[i], camera) && ops[i].slot == s
  {
    var front, op := ops[..|ops| - 1], ops[|ops| - 1];
    BoundsHold(limits, front, camera);
    StepForeign(limits, After(limits, front), op, camera, s);
    if s in Foreign(After(limits, front), camera) {
      i := ForeignWasCommitted(limits, front, camera, s);
      assert front[..i] == ops[..i];
    } else {
      i := |ops| - 1;
    }
  }

  ghost predicate NoTrespass(limits: Limits, ops: seq<Op>, camera: Text) {
    forall i :: 0 <= i < |ops| ==> !Trespasses(After(limits, ops[..i]), ops[i], camera)
  }

  /** So while nobody commits under a camera's name from another camera's slot, whatever the rest of the
      fleet does, its queue stays within its count and its holders are never refused with QUEUE_FULL. */
  lemma CommitNeverFull(limits: Limits, ops: seq<Op>, s: nat, camera: Text)
    requires NoTrespass(limits, ops, camera)
    ensures var f := After(limits, ops);
      && |OfQueue(f.queue, camera)| <= Count(f.perCamera, camera) <= limits.perCamera
      && (In(f, s, Held) && f.slots[s].camera == camera ==> Apply(limits, f, Commit(s, camera, false)).answer == Ok)
  {
    var f := After(limits, ops);
    BoundsHold(limits, ops, camera);
    if q :| q in Foreign(f, camera) {
      var i := ForeignWasCommitted(limits, ops, camera, q);
    }
    assert Foreign(f, camera) == {};
    OwnAndForeign(f, camera);
    OwnWithinCount(limits, f, camera);
    if In(f, s, Held) { RefusalIsExact(limits, f, s, camera); }
  }

  /** And a holder that is refused has been trespassed on: some earlier commit put a descriptor under its
      camera's name from another camera's slot, and that descriptor is still queued. */
  lemma RefusedHolderWasTrespassedOn(limits: Limits, ops: seq<Op>, s: nat) returns (i: nat)
    requires var f := After(limits, ops);
      In(f, s, Held) && Apply(limits, f, Commit(s, f.slots[s].camera, false)).answer == QueueFull
    ensures i < |ops| && Trespasses(After(limits, ops[..i]), ops[i], After(limits, ops).slots[s].camera)
    ensures ops[i].slot in Foreign(After(limits, ops), After(limits, ops).slots[s].camera)
  {
    var f := After(limits, ops);
    var camera := f.slots[s].camera;
    BoundsHold(limits, ops, camera);
    RefusalIsExact(limits, f, s, camera);
    var q :| q in Foreign(f, camera);
    i := ForeignWasCommitted(limits, ops, camera, q);
  }

  const FIRST: Text := [0x61]
  const SECOND: Text := [0x62]
  const ONE_EACH: Limits := Limits(2, 1)
  const RESERVED: seq<Op> := [BeginReserve(FIRST), TakeGlobal(0), BeginReserve(SECOND), TakeGlobal(1)]
  const BOTH_HELD: Fleet :=
    Fleet(map[0 := Slot(FIRST, Held), 1 := Slot(SECOND, Held)], map[], 2, map[FIRST := 1, SECOND := 1], None)

  lemma BothReserved()
    ensures After(ONE_EACH, RESERVED) == BOTH_HELD
  {
    assert FIRST[0] != SECOND[0];
    assert RESERVED[..3][..2] == RESERVED[..2] && RESERVED[..2][..1] == RESERVED[..1] && RESERVED[..1][..0] == [];
    assert After(ONE_EACH, RESERVED[..1]) == Fleet(map[], map[], 0, map[FIRST := 0], Some(FIRST));
    assert After(ONE_EACH, RESERVED[..2]) == Fleet(map[0 := Slot(FIRST, Held)], map[], 1, map[FIRST := 1], None);
    assert After(ONE_EACH, RESERVED[..3]) == Fleet(map[0 := Slot(FIRST, Held)], map[], 1, map[FIRST := 1, SECOND := 0], Some(SECOND));
  }

  /** The scheduler does not compare the two cameras, and that is what the promise hangs on: a commit
      under another camera's name can fill that camera's queue and refuse its rightful holder. */
  lemma ForeignCommitFills()
    ensures var f := After(ONE_EACH, RESERVED + [Commit(0, SECOND, false)]);
      In(f, 1, Held) && f.slots[1].camera == SECOND && Apply(ONE_EACH, f, Commit(1, SECOND, false)).answer == QueueFull
  {
    BothReserved();
    var ops := RESERVED + [Commit(0, SECOND, false)];
    assert ops[..|ops| - 1] == RESERVED;
    assert OfQueue(BOTH_HELD.queue, SECOND) == {};
    var f := After(ONE_EACH, ops);
    assert f.queue == map[0 := SECOND];
    assert OfQueue(f.queue, SECOND) == {0};
  }

  // ---- The way there and back --------------------------------------------------------------------------------

  /** In every reachable state with no reservation under way: one is admitted exactly while its camera has fewer slots
      out than it may, and then granted exactly while fewer slots than the maximum are in use. */
  lemma ReserveExactly(limits: Limits, ops: seq<Op>, camera: Text, s: nat)
    requires After(limits, ops).reserving == None && s !in After(limits, ops).slots
    ensures
      var f := After(limits, ops);
      var begun := Apply(limits, f, BeginReserve(camera));
      var granted := Apply(limits, begun.fleet, TakeGlobal(s));
      && (begun.answer == Ok <==> |Of(f.slots, camera)| < limits.perCamera)
      && (begun.answer == Refused <==> |Of(f.slots, camera)| == limits.perCamera)
      && begun.fleet.slots == f.slots && begun.fleet.queue == f.queue && begun.fleet.used == f.used
      && (begun.answer == Ok ==>
            && (granted.answer == Ok <==> |Taken(f.slots)| < limits.maximum)
            && (granted.answer == Refused <==> |Taken(f.slots)| == limits.maximum)
            && granted.fleet.reserving == None && granted.fleet.queue == f.queue
            && granted.fleet.slots == if granted.answer == Ok then f.slots[s := Slot(camera, Held)] else f.slots)
  {
    BoundsHold(limits, ops, camera);
  }

  /** What each later access does to its slot. A commit that is refused or finds no room sends it on its way back. */
  lemma SlotMoves(limits: Limits, f: Fleet, s: nat, camera: Text)
    requires s in f.slots
    ensures f.slots[s].phase == Held ==>
      Apply(limits, f, Commit(s, camera, true)) == Result(f.(slots := Moved(f, s, Leaving)), Refused)
    ensures f.slots[s].phase == Held && (|f.queue| >= limits.maximum || |OfQueue(f.queue, camera)| >= limits.perCamera) ==>
      Apply(limits, f, Commit(s, camera, false)) == Result(f.(slots := Moved(f, s, Leaving)), QueueFull)
    ensures f.slots[s].phase == Held && |f.queue| < limits.maximum && |OfQueue(f.queue, camera)| < limits.perCamera ==>
      Apply(limits, f, Commit(s, camera, false)) == Result(f.(slots := Moved(f, s, Queued), queue := f.queue[s := camera]), Ok)
    ensures f.slots[s].phase == Queued ==>
      Apply(limits, f, Dequeue(s)) == Result(f.(slots := Moved(f, s, Leaving), queue := f.queue - {s}), Ok)
    ensures f.slots[s].phase == Held ==> Apply(limits, f, Abandon(s)) == Result(f.(slots := Moved(f, s, Leaving)), Ok)
    ensures f.slots[s].phase == Leaving ==>
      var r := Apply(limits, f, GiveBackUsed(s)); r.answer == Ok && r.fleet.slots == Moved(f, s, Dropping) && r.fleet.queue == f.queue
    ensures f.slots[s].phase == Dropping && f.reserving == None ==>
      var r := Apply(limits, f, GiveBackCamera(s)); r.answer == Ok && r.fleet.slots == f.slots - {s} && r.fleet.queue == f.queue
  {}

  /** Two states with the same slots count the same: whatever way a slot went, once it is gone everything is as before. */
  lemma SameSlotsCountSame(limits: Limits, ops: seq<Op>, more: seq<Op>)
    requires After(limits, more).slots == After(limits, ops).slots
    ensures After(limits, more).used == After(limits, ops).used
    ensures forall c :: Count(After(limits, more).perCamera, c) == Count(After(limits, ops).perCamera, c)
  {
    BoundsHold(limits, ops, []);
    BoundsHold(limits, more, []);
  }

  lemma AfterOne(limits: Limits, ops: seq<Op>, op: Op)
    ensures After(limits, ops + [op]) == Apply(limits, After(limits, ops), op).fleet
  {
    assert (ops + [op])[..|ops|] == ops;
  }

  /** What its holder does with a granted slot: abandon it, or commit it under some camera's name, whatever comes of that,
      and have whatever was queued dequeued. */
  datatype Way = Abandoned | Committed(named: Text, refused: bool)

  function Along(way: Way, s: nat): seq<Op> {
    match way
    case Abandoned => [Abandon(s)]
    case Committed(named, refused) => [Commit(s, named, refused), Dequeue(s)]
  }

  /** Whichever way it goes, once it is dropped slots, queue and every count are as they were before the reservation. */
  lemma SlotComesBack(limits: Limits, ops: seq<Op>, camera: Text, s: nat, way: Way) returns (more: seq<Op>)
    requires var f := After(limits, ops);
      f.reserving == None && s !in f.slots && |Of(f.slots, camera)| < limits.perCamera && |Taken(f.slots)| < limits.maximum
    ensures more == ops + [BeginReserve(camera)] + [TakeGlobal(s)] + Along(way, s) + [GiveBackUsed(s)] + [GiveBackCamera(s)]
    ensures After(limits, more).slots == After(limits, ops).slots && After(limits, more).queue == After(limits, ops).queue
    ensures After(limits, more).used == After(limits, ops).used
    ensures forall c :: Count(After(limits, more).perCamera, c) == Count(After(limits, ops).perCamera, c)
  {
    var held := ReservedIn(limits, ops, camera, s);
    QueuesOnlySlots(limits, ops, s);
    LeavesAfter(limits, held, s, way);
    more := DroppedIn(limits, held + Along(way, s), s);
    PutBack(After(limits, ops).slots, s, Slot(camera, Held), Slot(camera, Leaving));
    SameSlotsCountSame(limits, ops, more);
  }

  lemma PutBack(slots: map<nat, Slot>, s: nat, x: Slot, y: Slot)
    requires s !in slots
    ensures slots[s := x][s := y] - {s} == slots
  {}

  lemma QueuesOnlySlots(limits: Limits, ops: seq<Op>, s: nat)
    requires s !in After(limits, ops).slots
    ensures s !in After(limits, ops).queue
  {
    BoundsHold(limits, ops, []);
    assert !In(After(limits, ops), s, Queued);
  }

  lemma ReservedIn(limits: Limits, ops: seq<Op>, camera: Text, s: nat) returns (more: seq<Op>)
    requires var f := After(limits, ops);
      f.reserving == None && s !in f.slots && |Of(f.slots, camera)| < limits.perCamera && |Taken(f.slots)| < limits.maximum
    ensures more == ops + [BeginReserve(camera)] + [TakeGlobal(s)]
    ensures var f, g := After(limits, ops), After(limits, more);
      g.slots == f.slots[s := Slot(camera, Held)] && g.queue == f.queue && g.reserving == None
  {
    more := ops + [BeginReserve(camera)] + [TakeGlobal(s)];
    AfterOne(limits, ops, BeginReserve(camera));
    AfterOne(limits, ops + [BeginReserve(camera)], TakeGlobal(s));
    ReserveExactly(limits, ops, camera, s);
  }

  lemma LeavesAfter(limits: Limits, ops: seq<Op>, s: nat, way: Way)
    requires In(After(limits, ops), s, Held) && s !in After(limits, ops).queue
    ensures var f, g := After(limits, ops), After(limits, ops + Along(way, s));
      g.slots == f.slots[s := f.slots[s].(phase := Leaving)] && g.queue == f.queue && g.reserving == f.reserving
  {
    match way
    case Abandoned =>
      AfterOne(limits, ops, Abandon(s));
      SlotMoves(limits, After(limits, ops), s, []);
    case Committed(named, refused) =>
      AfterOne(limits, ops, Commit(s, named, refused));
      AfterOne(limits, ops + [Commit(s, named, refused)], Dequeue(s));
      assert ops + [Commit(s, named, refused)] + [Dequeue(s)] == ops + Along(way, s);
      CommittedLeaves(limits, After(limits, ops), s, named, refused);
  }

  lemma CommittedLeaves(limits: Limits, f: Fleet, s: nat, named: Text, refused: bool)
    requires In(f, s, Held) && s !in f.queue
    ensures var g := Apply(limits, Apply(limits, f, Commit(s, named, refused)).fleet, Dequeue(s)).fleet;
      g.slots == f.slots[s := f.slots[s].(phase := Leaving)] && g.queue == f.queue && g.reserving == f.reserving
  {
    SlotMoves(limits, f, s, named);
    var q := Apply(limits, f, Commit(s, named, refused)).fleet;
    SlotMoves(limits, q, s, named);
    assert f.queue[s := named] - {s} == f.queue;
    assert Moved(f, s, Queued)[s := f.slots[s].(phase := Leaving)] == f.slots[s := f.slots[s].(phase := Leaving)];
  }

  lemma DroppedIn(limits: Limits, ops: seq<Op>, s: nat) returns (more: seq<Op>)
    requires In(After(limits, ops), s, Leaving) && After(limits, ops).reserving == None
    ensures more == ops + [GiveBackUsed(s)] + [GiveBackCamera(s)]
    ensures After(limits, more).slots == After(limits, ops).slots - {s} && After(limits, more).queue == After(limits, ops).queue
  {
    more := ops + [GiveBackUsed(s)] + [GiveBackCamera(s)];
    var f := After(limits, ops);
    AfterOne(limits, ops, GiveBackUsed(s));
    SlotMoves(limits, f, s, []);
    var d := After(limits, ops + [GiveBackUsed(s)]);
    AfterOne(limits, ops + [GiveBackUsed(s)], GiveBackCamera(s));
    SlotMoves(limits, d, s, []);
    assert Moved(f, s, Dropping) - {s} == f.slots - {s};
  }
}
