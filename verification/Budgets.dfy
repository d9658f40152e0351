/** The memory and disk budgets under interleaved loads, compare-exchanges and releases. */
module Budgets {
  import opened Options
  import opened Sums

  const TWO64: nat := 0x1_0000_0000_0000_0000
  const TWO128: nat := 0x1_0000_0000_0000_0000_0000_0000_0000_0000

  // ---- Memory -----------------------------------------------------------------------------------------

  /** `seen` is what each reserving thread last loaded. `transit` is what each releasing thread has taken
      off its reservation and not yet added back. */
  datatype Memory = Memory(available: nat, reserved: map<nat, nat>, transit: map<nat, nat>, seen: map<nat, nat>)

  datatype MemoryOp =
    | Load(thread: nat)
    | Exchange(thread: nat, id: nat, amount: nat, spurious: bool)
    | Shrink(thread: nat, id: nat, amount: nat)
    | Release(thread: nat, id: nat)
    | AddBack(thread: nat)

  function MemoryStep(capacity: nat, m: Memory, op: MemoryOp): Memory {
    match op
    case Load(thread) => m.(seen := m.seen[thread := m.available])
    case Exchange(thread, id, amount, spurious) =>
      if amount == 0 || amount > capacity || thread !in m.seen || id in m.reserved then m
      else if m.seen[thread] < amount || spurious || m.available != m.seen[thread] then m.(seen := m.seen - {thread})
      else m.(available := m.seen[thread] - amount, reserved := m.reserved[id := amount], seen := m.seen - {thread})
    case Shrink(thread, id, amount) =>
      if id !in m.reserved || thread in m.transit || amount > m.reserved[id] then m
      else m.(reserved := m.reserved[id := amount], transit := m.transit[thread := m.reserved[id] - amount])
    case Release(thread, id) =>
      if id !in m.reserved || thread in m.transit then m
      else m.(reserved := m.reserved - {id}, transit := m.transit[thread := m.reserved[id]])
    case AddBack(thread) =>
      if thread !in m.transit then m
      else m.(available := (m.available + m.transit[thread]) % TWO64, transit := m.transit - {thread})
  }

  ghost predicate Conserved(capacity: nat, m: Memory) {
    m.available + Sum(m.reserved) + Sum(m.transit) == capacity
  }

  lemma MemoryStepConserves(capacity: nat, m: Memory, op: MemoryOp)
    requires capacity < TWO64 && Conserved(capacity, m)
    ensures Conserved(capacity, MemoryStep(capacity, m, op))
  {
    match op
    case Load(_) => {}
    case Exchange(thread, id, amount, _) => if id !in m.reserved { SumWith(m.reserved, id, amount); }
    case Shrink(thread, id, amount) =>
      if id in m.reserved && thread !in m.transit && amount <= m.reserved[id] {
        SumChanged(m.reserved, id, amount);
        SumWith(m.transit, thread, m.reserved[id] - amount);
      }
    case Release(thread, id) =>
      if id in m.reserved && thread !in m.transit {
        SumWithout(m.reserved, id);
        SumWith(m.transit, thread, m.reserved[id]);
      }
    case AddBack(thread) => if thread in m.transit { SumWithout(m.transit, thread); }
  }

  function MemoryAfter(capacity: nat, ops: seq<MemoryOp>): Memory {
    if ops == [] then Memory(capacity, map[], map[], map[])
    else MemoryStep(capacity, MemoryAfter(capacity, ops[..|ops| - 1]), ops[|ops| - 1])
  }

  /** In every interleaving, stale loads and spurious failures included: available, reserved and in-transit
      bytes add up to the capacity. Nothing is lost, counted twice or wrapped around. */
  lemma {:induction false} MemoryConserved(capacity: nat, ops: seq<MemoryOp>)
    requires capacity < TWO64
    ensures Conserved(capacity, MemoryAfter(capacity, ops))
  {
    if ops != [] {
      MemoryConserved(capacity, ops[..|ops| - 1]);
      MemoryStepConserves(capacity, MemoryAfter(capacity, ops[..|ops| - 1]), ops[|ops| - 1]);
    }
  }

  /** In every reachable state an undisturbed reservation succeeds exactly if it asks for something and fits beside what
      is reserved and on its way back; then it takes exactly that, and otherwise nothing. */
  lemma MemoryReservedExactly(capacity: nat, ops: seq<MemoryOp>, thread: nat, id: nat, amount: nat)
    requires capacity < TWO64 && id !in MemoryAfter(capacity, ops).reserved
    ensures
      var m := MemoryAfter(capacity, ops);
      var after := MemoryStep(capacity, MemoryStep(capacity, m, Load(thread)), Exchange(thread, id, amount, false));
      && (id in after.reserved <==> 0 < amount && amount + Sum(m.reserved) + Sum(m.transit) <= capacity)
      && (id in after.reserved ==> after.reserved == m.reserved[id := amount] && after.available == m.available - amount)
      && (id !in after.reserved ==> after.reserved == m.reserved && after.available == m.available)
      && after.transit == m.transit
  {
    MemoryConserved(capacity, ops);
  }

  /** A release gives back what its reservation held; nobody else's bytes move. */
  lemma MemoryComesBack(capacity: nat, ops: seq<MemoryOp>, thread: nat, id: nat)
    requires capacity < TWO64 && id in MemoryAfter(capacity, ops).reserved && thread !in MemoryAfter(capacity, ops).transit
    ensures
      var m := MemoryAfter(capacity, ops);
      MemoryStep(capacity, MemoryStep(capacity, m, Release(thread, id)), AddBack(thread))
        == m.(available := m.available + m.reserved[id], reserved := m.reserved - {id})
  {
    var m := MemoryAfter(capacity, ops);
    MemoryConserved(capacity, ops);
    SumWithout(m.reserved, id);
    assert m.transit[thread := m.reserved[id]] - {thread} == m.transit;
  }

  /** A shrink gives back the difference. */
  lemma ShrinkComesBack(capacity: nat, ops: seq<MemoryOp>, thread: nat, id: nat, less: nat)
    requires capacity < TWO64 && id in MemoryAfter(capacity, ops).reserved && thread !in MemoryAfter(capacity, ops).transit
    requires less <= MemoryAfter(capacity, ops).reserved[id]
    ensures
      var m := MemoryAfter(capacity, ops);
      MemoryStep(capacity, MemoryStep(capacity, m, Shrink(thread, id, less)), AddBack(thread))
        == m.(available := m.available + (m.reserved[id] - less), reserved := m.reserved[id := less])
  {
    var m := MemoryAfter(capacity, ops);
    MemoryConserved(capacity, ops);
    SumWithout(m.reserved, id);
    assert m.transit[thread := m.reserved[id] - less] - {thread} == m.transit;
  }

  // ---- Room for the advertised concurrency ----------------------------------------------------------

  const MIB: nat := 1024 * 1024
  const GIB: nat := 1024 * MIB

  function SaturatingMul(a: nat, b: nat): nat {
    if a * b < TWO64 then a * b else TWO64 - 1
  }

  /** The configuration's ranges and its budget rule. */
  predicate AcceptedLimits(captures: nat, frame: nat, inFlight: nat) {
    && 1 <= captures <= 256 && MIB <= frame <= 2 * GIB && 64 * MIB <= inFlight < TWO64
    && !(inFlight < SaturatingMul(captures, frame))
  }

  /** Within those ranges the saturating product never saturates: the rule means what it says. */
  lemma BudgetRuleIsExact(captures: nat, frame: nat, inFlight: nat)
    requires 1 <= captures <= 256 && MIB <= frame <= 2 * GIB && 64 * MIB <= inFlight < TWO64
    ensures AcceptedLimits(captures, frame, inFlight) <==> captures * frame <= inFlight
  {
    assert captures * frame <= 256 * (2 * GIB) by {
      assert captures * frame <= 256 * frame;
    }
  }

  lemma RoomBelow(live: nat, captures: nat, frame: nat)
    requires live < captures
    ensures live * frame + frame <= captures * frame
  {
    assert (live + 1) * frame <= captures * frame;
  }

  /** At rest, under an accepted configuration, fewer live reservations than the advertised captures, each
      within the frame cap, leave room for one more. */
  lemma RoomForOneMore(captures: nat, frame: nat, inFlight: nat, ops: seq<MemoryOp>)
    requires AcceptedLimits(captures, frame, inFlight)
    requires var m := MemoryAfter(inFlight, ops);
      m.transit == map[] && |m.reserved| < captures && forall id :: id in m.reserved ==> m.reserved[id] <= frame
    ensures MemoryAfter(inFlight, ops).available >= frame
  {
    var m := MemoryAfter(inFlight, ops);
    MemoryConserved(inFlight, ops);
    SumBounded(m.reserved, frame);
    BudgetRuleIsExact(captures, frame, inFlight);
    RoomBelow(|m.reserved|, captures, frame);
  }

  // ---- The disk floor -----------------------------------------------------------------------------------

  /** Percent of a 64-bit total in 128-bit arithmetic, rounded up. */
  function PercentageFloor(total: nat, percent: nat): Option<nat> {
    RoundedUp(total * percent)
  }

  function RoundedUp(n: nat): Option<nat> {
    if n >= TWO128 || n + 99 >= TWO128 || (n + 99) / 100 >= TWO64 then None else Some((n + 99) / 100)
  }

  /** For every 64-bit total and up to 100 percent it succeeds with the exact ceiling, within the total. */
  lemma PercentageFloorIsExact(total: nat, percent: nat)
    requires total < TWO64 && percent <= 100
    ensures PercentageFloor(total, percent).Some?
    ensures var r := PercentageFloor(total, percent).value;
      r <= total && 100 * r >= total * percent && (r > 0 ==> 100 * (r - 1) < total * percent)
  {
    AtMostAll(total, percent);
    Ceiling(total * percent, total);
  }

  lemma AtMostAll(total: nat, percent: nat)
    requires percent <= 100
    ensures total * percent <= total * 100
  {}

  lemma Ceiling(n: nat, total: nat)
    requires n <= total * 100
    ensures total < TWO64 ==> RoundedUp(n).Some?
    ensures RoundedUp(n).Some? ==>
      var r := RoundedUp(n).value; r <= total && 100 * r >= n && (r > 0 ==> 100 * (r - 1) < n)
  {}

  datatype Space = Space(available: nat, total: nat)

  datatype Floor = Floor(bytes: nat, percent: nat)

  function FloorBytes(floor: Floor, space: Space): nat {
    var p := PercentageFloor(space.total, floor.percent);
    if p.Some? && p.value > floor.bytes then p.value else floor.bytes
  }

  /** The floor is the least number of bytes that covers both the configured bytes and the configured percentage. */
  lemma FloorIsLeast(floor: Floor, space: Space, n: nat)
    requires space.total < TWO64 && floor.percent <= 100
    ensures FloorBytes(floor, space) <= n <==> floor.bytes <= n && space.total * floor.percent <= 100 * n
  {
    PercentageFloorIsExact(space.total, floor.percent);
  }

  datatype Probe = Probe(space: Space, loaded: Option<nat>)

  datatype Disk = Disk(outstanding: nat, reserved: map<nat, nat>, transit: map<nat, nat>, probes: map<nat, Probe>)

  datatype DiskOp =
    | Look(thread: nat, space: Space)
    | LoadOutstanding(thread: nat)
    | Swap(thread: nat, id: nat, amount: nat, spurious: bool)
    | ShrinkDisk(thread: nat, id: nat, amount: nat)
    | ReleaseDisk(thread: nat, id: nat)
    | TakeOff(thread: nat)

  datatype DiskAnswer = NotNow | Ok | Retry | Overflow | StoragePressure | BadProbe

  datatype DiskResult = DiskResult(disk: Disk, answer: DiskAnswer)

  function SwapStep(floor: Floor, d: Disk, thread: nat, id: nat, amount: nat, spurious: bool): DiskResult {
    if amount == 0 || amount >= TWO64 || thread !in d.probes || d.probes[thread].loaded.None? || id in d.reserved then
      DiskResult(d, NotNow)
    else
      var space, loaded := d.probes[thread].space, d.probes[thread].loaded.value;
      if loaded + amount >= TWO64 || loaded + amount + FloorBytes(floor, space) >= TWO64 then
        DiskResult(d.(probes := d.probes - {thread}), Overflow)
      else if loaded + amount + FloorBytes(floor, space) > space.available then
        DiskResult(d.(probes := d.probes - {thread}), StoragePressure)
      else if spurious || d.outstanding != loaded then
        DiskResult(d.(probes := d.probes[thread := Probe(space, None)]), Retry)
      else
        DiskResult(d.(outstanding := loaded + amount, reserved := d.reserved[id := amount], probes := d.probes - {thread}), Ok)
  }

  function DiskStep(floor: Floor, d: Disk, op: DiskOp): DiskResult {
    match op
    case Look(thread, space) =>
      if space.available > space.total then DiskResult(d, BadProbe)
      else if PercentageFloor(space.total, floor.percent).None? then DiskResult(d, Overflow)
      else DiskResult(d.(probes := d.probes[thread := Probe(space, None)]), Ok)
    case LoadOutstanding(thread) =>
      if thread !in d.probes then DiskResult(d, NotNow)
      else DiskResult(d.(probes := d.probes[thread := d.probes[thread].(loaded := Some(d.outstanding))]), Ok)
    case Swap(thread, id, amount, spurious) => SwapStep(floor, d, thread, id, amount, spurious)
    case ShrinkDisk(thread, id, amount) =>
      if id !in d.reserved || thread in d.transit || amount > d.reserved[id] then DiskResult(d, NotNow)
      else DiskResult(d.(reserved := d.reserved[id := amount], transit := d.transit[thread := d.reserved[id] - amount]), Ok)
    case ReleaseDisk(thread, id) =>
      if id !in d.reserved || thread in d.transit then DiskResult(d, NotNow)
      else DiskResult(d.(reserved := d.reserved - {id}, transit := d.transit[thread := d.reserved[id]]), Ok)
    case TakeOff(thread) =>
      if thread !in d.transit then DiskResult(d, NotNow)
      else DiskResult(d.(outstanding := WrappingSub(d.outstanding, d.transit[thread]), transit := d.transit - {thread}), Ok)
  }

  ghost predicate Tracked(d: Disk) {
    d.outstanding < TWO64 && d.outstanding == Sum(d.reserved) + Sum(d.transit)
  }

  function WrappingSub(x: nat, y: nat): nat {
    (x + TWO64 - y % TWO64) % TWO64
  }

  lemma NoUnderflow(x: nat, y: nat)
    requires y <= x < TWO64
    ensures WrappingSub(x, y) == x - y
  {
    assert x + TWO64 - y == (x - y) + TWO64;
  }

  lemma SwapTracks(floor: Floor, d: Disk, thread: nat, id: nat, amount: nat, spurious: bool)
    requires Tracked(d)
    ensures Tracked(SwapStep(floor, d, thread, id, amount, spurious).disk)
  {
    if id !in d.reserved { SumWith(d.reserved, id, amount); }
  }

  lemma DiskStepTracks(floor: Floor, d: Disk, op: DiskOp)
    requires Tracked(d)
    ensures Tracked(DiskStep(floor, d, op).disk)
    ensures op.TakeOff? && op.thread in d.transit ==> DiskStep(floor, d, op).disk.outstanding == d.outstanding - d.transit[op.thread]
  {
    match op
    case Look(_, _) => {}
    case LoadOutstanding(_) => {}
    case Swap(thread, id, amount, spurious) => SwapTracks(floor, d, thread, id, amount, spurious);
    case ShrinkDisk(thread, id, amount) =>
      if id in d.reserved && thread !in d.transit && amount <= d.reserved[id] {
        SumChanged(d.reserved, id, amount);
        SumWith(d.transit, thread, d.reserved[id] - amount);
      }
    case ReleaseDisk(thread, id) =>
      if id in d.reserved && thread !in d.transit {
        SumWithout(d.reserved, id);
        SumWith(d.transit, thread, d.reserved[id]);
      }
    case TakeOff(thread) =>
      if thread in d.transit {
        SumWithout(d.transit, thread);
        NoUnderflow(d.outstanding, d.transit[thread]);
      }
  }

  function DiskAfter(floor: Floor, ops: seq<DiskOp>): Disk {
    if ops == [] then Disk(0, map[], map[], map[]) else DiskStep(floor, DiskAfter(floor, ops[..|ops| - 1]), ops[|ops| - 1]).disk
  }

  /** In every interleaving, outstanding bytes are the reserved ones plus those still being taken off. */
  lemma {:induction false} DiskTracked(floor: Floor, ops: seq<DiskOp>)
    ensures Tracked(DiskAfter(floor, ops))
  {
    if ops != [] {
      DiskTracked(floor, ops[..|ops| - 1]);
      DiskStepTracks(floor, DiskAfter(floor, ops[..|ops| - 1]), ops[|ops| - 1]);
    }
  }

  /** Each reservation that succeeds leaves the floor free of what was probed for it, however stale its
      first loads were. */
  lemma ReservationRespectsFloor(floor: Floor, d: Disk, thread: nat, id: nat, amount: nat, spurious: bool)
    requires SwapStep(floor, d, thread, id, amount, spurious).answer == Ok
    ensures var after := SwapStep(floor, d, thread, id, amount, spurious).disk;
      && after.outstanding == d.outstanding + amount
      && after.outstanding + FloorBytes(floor, d.probes[thread].space) <= d.probes[thread].space.available
  {}

  /** In every reachable state an undisturbed disk reservation, with a probe the system can give, succeeds exactly if it
      and the floor fit beside what is reserved and on its way off; then it takes exactly that, and otherwise nothing. */
  lemma DiskReservedExactly(floor: Floor, ops: seq<DiskOp>, space: Space, thread: nat, id: nat, amount: nat)
    requires floor.percent <= 100 && space.available <= space.total < TWO64
    requires 0 < amount < TWO64 && id !in DiskAfter(floor, ops).reserved
    ensures
      var d := DiskAfter(floor, ops);
      var loaded := DiskStep(floor, DiskStep(floor, d, Look(thread, space)).disk, LoadOutstanding(thread)).disk;
      var r := DiskStep(floor, loaded, Swap(thread, id, amount, false));
      && (r.answer == Ok <==> Sum(d.reserved) + Sum(d.transit) + amount + FloorBytes(floor, space) <= space.available)
      && (r.answer != Ok ==> r.answer in {Overflow, StoragePressure} && r.disk.reserved == d.reserved && r.disk.outstanding == d.outstanding)
      && (r.answer == Ok ==> r.disk.reserved == d.reserved[id := amount] && r.disk.outstanding == d.outstanding + amount)
      && r.disk.transit == d.transit
  {
    DiskTracked(floor, ops);
    PercentageFloorIsExact(space.total, floor.percent);
  }

  /** A probe that reports more free than there is, or a percentage that does not fit, reserves nothing. */
  lemma BadProbesAreRefused(floor: Floor, d: Disk, thread: nat, space: Space)
    ensures
      var r := DiskStep(floor, d, Look(thread, space));
      && (r.answer == BadProbe <==> space.available > space.total)
      && (space.total < TWO64 && floor.percent <= 100 && space.available <= space.total ==> r.answer == Ok)
      && (r.answer != Ok ==> r.disk == d)
  {
    if space.total < TWO64 && floor.percent <= 100 { PercentageFloorIsExact(space.total, floor.percent); }
  }

  /** A release takes off what its reservation held. */
  lemma DiskComesBack(floor: Floor, ops: seq<DiskOp>, thread: nat, id: nat)
    requires id in DiskAfter(floor, ops).reserved && thread !in DiskAfter(floor, ops).transit
    ensures
      var d := DiskAfter(floor, ops);
      d.outstanding >= d.reserved[id] &&
      DiskStep(floor, DiskStep(floor, d, ReleaseDisk(thread, id)).disk, TakeOff(thread)).disk
        == d.(outstanding := d.outstanding - d.reserved[id], reserved := d.reserved - {id})
  {
    var d := DiskAfter(floor, ops);
    DiskTracked(floor, ops);
    SumWithout(d.reserved, id);
    NoUnderflow(d.outstanding, d.reserved[id]);
    assert d.transit[thread := d.reserved[id]] - {thread} == d.transit;
  }

  /** A shrink takes off the difference. */
  lemma DiskShrinkComesBack(floor: Floor, ops: seq<DiskOp>, thread: nat, id: nat, less: nat)
    requires id in DiskAfter(floor, ops).reserved && thread !in DiskAfter(floor, ops).transit
    requires less <= DiskAfter(floor, ops).reserved[id]
    ensures
      var d := DiskAfter(floor, ops);
      d.outstanding >= d.reserved[id] &&
      DiskStep(floor, DiskStep(floor, d, ShrinkDisk(thread, id, less)).disk, TakeOff(thread)).disk
        == d.(outstanding := d.outstanding - (d.reserved[id] - less), reserved := d.reserved[id := less])
  {
    var d := DiskAfter(floor, ops);
    DiskTracked(floor, ops);
    SumWithout(d.reserved, id);
    NoUnderflow(d.outstanding, d.reserved[id] - less);
    assert d.transit[thread := d.reserved[id] - less] - {thread} == d.transit;
  }

  ghost predicate AllProbed(d: Disk, space: Space) {
    forall thread :: thread in d.probes ==> d.probes[thread].space == space
  }

  ghost predicate ConstantProbe(ops: seq<DiskOp>, space: Space) {
    forall i :: 0 <= i < |ops| && ops[i].Look? ==> ops[i].space == space
  }

  /** With a constant probe the floor holds in every reachable state in which anything is outstanding. */
  lemma {:induction false} FloorHolds(floor: Floor, ops: seq<DiskOp>, space: Space)
    requires ConstantProbe(ops, space)
    ensures AllProbed(DiskAfter(floor, ops), space)
    ensures DiskAfter(floor, ops).outstanding > 0 ==> DiskAfter(floor, ops).outstanding + FloorBytes(floor, space) <= space.available
  {
    if ops != [] {
      var front, op := ops[..|ops| - 1], ops[|ops| - 1];
      assert forall i :: 0 <= i < |front| ==> front[i] == ops[i];
      FloorHolds(floor, front, space);
      DiskTracked(floor, front);
      DiskStepTracks(floor, DiskAfter(floor, front), op);
      if op.Look? { assert op.space == space; }
    }
  }
}
