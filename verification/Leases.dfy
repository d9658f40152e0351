/** Acquisition leases: four resources taken in order, given back in reverse, in any interleaving, beside the
    previews that borrow memory from the same budget without a lease. */
module Leases {
  import opened Texts
  import opened Options
  import opened Sums

  /** `Settling` has its frame and is returning its permits; `Ending` is dropping whatever it still holds. */
  datatype Stage = Acquiring | Leased | Settling | Processing | Ending

  datatype Lease = Lease(
    stage: Stage, group: Option<Text>, wanted: nat, global: bool, inGroup: bool, memory: nat, disk: nat)

  datatype Limits = Limits(captures: nat, groups: map<Text, nat>, memory: nat)

  /** `previews` are the reservations made without a lease, for decoding a preview. */
  datatype Controller = Controller(
    global: nat, groups: map<Text, nat>, memory: nat, disk: nat, leases: map<nat, Lease>, previews: map<nat, nat>)

  function Fresh(limits: Limits): Controller {
    Controller(limits.captures, limits.groups, limits.memory, 0, map[], map[])
  }

  datatype Op =
    | Start(id: nat, group: Option<Text>, wanted: nat)
    | TakeGlobal(id: nat)
    | TakeGroup(id: nat)
    | TakeMemory(id: nat)
    | TakeDisk(id: nat)
    | Fail(id: nat)
    | Finish(id: nat, actual: nat)
    | ShrinkMemory(id: nat, bytes: nat)
    | ShrinkDisk(id: nat, bytes: nat)
    | Drop(id: nat)
    | DropDisk(id: nat)
    | DropMemory(id: nat)
    | DropGroup(id: nat)
    | DropGlobal(id: nat)
    | Gone(id: nat)
    | Preview(id: nat, bytes: nat)
    | EndPreview(id: nat)

  predicate OfPreview(op: Op) { op.Preview? || op.EndPreview? }

  predicate Returns(l: Lease) { l.stage == Settling || (l.stage == Ending && l.disk == 0 && l.memory == 0) }

  /** Whether its thread may take this step now. A semaphore or budget with no room makes it wait. */
  predicate Enabled(c: Controller, op: Op) {
    if op.Start? then op.id !in c.leases && op.wanted > 0
    else if op.Preview? then op.id !in c.previews && 0 < op.bytes <= c.memory
    else if op.EndPreview? then op.id in c.previews
    else
      op.id in c.leases && var l := c.leases[op.id];
      match op
      case TakeGlobal(_) => l.stage == Acquiring && !l.global && c.global > 0
      case TakeGroup(_) =>
        l.stage == Acquiring && l.global && !l.inGroup && l.group.Some? && l.group.value in c.groups && c.groups[l.group.value] > 0
      case TakeMemory(_) =>
        l.stage == Acquiring && l.global && (l.group.None? || l.inGroup) && l.memory == 0 && l.wanted <= c.memory
      case TakeDisk(_) => l.stage == Acquiring && l.memory > 0
      case Fail(_) => l.stage == Acquiring
      case Finish(_, _) => l.stage == Leased
      case ShrinkMemory(_, bytes) => l.stage == Processing && bytes <= l.memory
      case ShrinkDisk(_, bytes) => l.stage == Processing && bytes <= l.disk
      case Drop(_) => l.stage == Leased || l.stage == Processing
      case DropDisk(_) => l.stage == Ending
      case DropMemory(_) => l.stage == Ending && l.disk == 0
      case DropGroup(_) => Returns(l) && l.inGroup
      case DropGlobal(_) => Returns(l) && !l.inGroup && l.global
      case Gone(_) => Returns(l) && !l.inGroup && !l.global
      case _ => false
  }

  /** The lease after its own step. Growth is rejected by ending the lease. */
  function Moved(l: Lease, op: Op): Lease {
    match op
    case TakeGlobal(_) => l.(global := true)
    case TakeGroup(_) => l.(inGroup := true)
    case TakeMemory(_) => l.(memory := l.wanted)
    case TakeDisk(_) => l.(disk := l.wanted, stage := Leased)
    case Fail(_) => l.(stage := Ending)
    case Finish(_, actual) => if actual > l.memory then l.(stage := Ending) else l.(memory := actual, stage := Settling)
    case ShrinkMemory(_, bytes) => l.(memory := bytes)
    case ShrinkDisk(_, bytes) => l.(disk := bytes)
    case Drop(_) => l.(stage := Ending)
    case DropDisk(_) => l.(disk := 0)
    case DropMemory(_) => l.(memory := 0)
    case DropGroup(_) => l.(inGroup := false)
    case DropGlobal(_) => l.(global := false)
    case Gone(_) => l.(stage := Processing)
    case _ => l
  }

  function Apply(c: Controller, op: Op): Controller {
    if !Enabled(c, op) then c
    else if op.Start? then
      c.(leases := c.leases[op.id := Lease(Acquiring, op.group, op.wanted, false, false, 0, 0)])
    else if op.Preview? then c.(previews := c.previews[op.id := op.bytes], memory := c.memory - op.bytes)
    else if op.EndPreview? then c.(previews := c.previews - {op.id}, memory := c.memory + c.previews[op.id])
    else
      var l := c.leases[op.id];
      var next := c.(leases := c.leases[op.id := Moved(l, op)]);
      match op
      case TakeGlobal(_) => next.(global := c.global - 1)
      case TakeGroup(_) => next.(groups := c.groups[l.group.value := c.groups[l.group.value] - 1])
      case TakeMemory(_) => next.(memory := c.memory - l.wanted)
      case TakeDisk(_) => next.(disk := c.disk + l.wanted)
      case Finish(_, actual) => if actual > l.memory then next else next.(memory := c.memory + (l.memory - actual))
      case ShrinkMemory(_, bytes) => next.(memory := c.memory + (l.memory - bytes))
      case ShrinkDisk(_, bytes) => next.(disk := if c.disk < l.disk - bytes then 0 else c.disk - (l.disk - bytes))
      case DropDisk(_) => next.(disk := if c.disk < l.disk then 0 else c.disk - l.disk)
      case DropMemory(_) => next.(memory := c.memory + l.memory)
      case DropGroup(_) =>
        if l.group.Some? && l.group.value in c.groups then next.(groups := c.groups[l.group.value := c.groups[l.group.value] + 1]) else next
      case DropGlobal(_) => next.(global := c.global + 1)
      case Gone(_) => if l.stage == Ending then c.(leases := c.leases - {op.id}) else next
      case _ => next
  }

  // ---- Conservation -------------------------------------------------------------------------------------

  function MemoryHeld(leases: map<nat, Lease>): map<nat, nat> { map a | a in leases :: leases[a].memory }

  function DiskHeld(leases: map<nat, Lease>): map<nat, nat> { map a | a in leases :: leases[a].disk }

  function GlobalHeld(leases: map<nat, Lease>): set<nat> { set a | a in leases && leases[a].global }

  function GroupHeld(leases: map<nat, Lease>, g: Text): set<nat> {
    set a | a in leases && leases[a].inGroup && leases[a].group == Some(g)
  }

  /** Every resource is what its limit leaves after the leases, and for memory also after the previews:
      nothing else holds any. */
  ghost predicate Conserved(limits: Limits, c: Controller) {
    && c.global + |GlobalHeld(c.leases)| == limits.captures
    && c.groups.Keys == limits.groups.Keys
    && (forall g :: g in c.groups ==> c.groups[g] + |GroupHeld(c.leases, g)| == limits.groups[g])
    && c.memory + Sum(MemoryHeld(c.leases)) + Sum(c.previews) == limits.memory
    && c.disk == Sum(DiskHeld(c.leases))
  }

  /** What a lease holds at each stage. */
  predicate LeaseGood(groups: map<Text, nat>, l: Lease) {
    && l.wanted > 0 && l.memory <= l.wanted
    && (l.inGroup ==> l.group.Some? && l.group.value in groups)
    && (l.inGroup ==> l.global)
    && (l.stage == Acquiring ==> l.disk == 0 && (l.memory == 0 || l.memory == l.wanted) && (l.memory > 0 ==> l.global && (l.group.None? || l.inGroup)))
    && (l.stage == Leased ==> l.global && (l.group.None? || l.inGroup) && l.memory == l.wanted == l.disk)
    && (l.stage == Processing ==> !l.global && !l.inGroup)
  }

  ghost predicate Inv(limits: Limits, c: Controller) {
    Conserved(limits, c) && forall a {:trigger LeaseGood(c.groups, c.leases[a])} :: a in c.leases ==> LeaseGood(c.groups, c.leases[a])
  }

  lemma SetSwap(before: set<nat>, after: set<nat>, a: nat)
    requires forall x :: x != a ==> (x in before <==> x in after)
    ensures |after| + (if a in before then 1 else 0) == |before| + (if a in after then 1 else 0)
  {
    assert before - {a} == after - {a};
    assert a in before ==> before == (before - {a}) + {a};
    assert a in after ==> after == (after - {a}) + {a};
  }

  function Bit(b: bool): nat { if b then 1 else 0 }

  /** One lease changes: each total moves by that lease's own difference. */
  lemma Replaced(leases: map<nat, Lease>, a: nat, l: Lease)
    requires a in leases
    ensures Sum(MemoryHeld(leases[a := l])) == Sum(MemoryHeld(leases)) - leases[a].memory + l.memory
    ensures Sum(DiskHeld(leases[a := l])) == Sum(DiskHeld(leases)) - leases[a].disk + l.disk
    ensures |GlobalHeld(leases[a := l])| + Bit(leases[a].global) == |GlobalHeld(leases)| + Bit(l.global)
  {
    SumChanged(MemoryHeld(leases), a, l.memory);
    assert MemoryHeld(leases)[a := l.memory] == MemoryHeld(leases[a := l]);
    SumChanged(DiskHeld(leases), a, l.disk);
    assert DiskHeld(leases)[a := l.disk] == DiskHeld(leases[a := l]);
    SetSwap(GlobalHeld(leases), GlobalHeld(leases[a := l]), a);
  }

  lemma ReplacedGroup(leases: map<nat, Lease>, a: nat, l: Lease, g: Text)
    requires a in leases && l.group == leases[a].group
    ensures |GroupHeld(leases[a := l], g)| + Bit(leases[a].inGroup && l.group == Some(g))
         == |GroupHeld(leases, g)| + Bit(l.inGroup && l.group == Some(g))
  {
    SetSwap(GroupHeld(leases, g), GroupHeld(leases[a := l], g), a);
  }

  lemma Added(leases: map<nat, Lease>, a: nat, l: Lease, g: Text)
    requires a !in leases && l.memory == 0 && l.disk == 0 && !l.global && !l.inGroup
    ensures Sum(MemoryHeld(leases[a := l])) == Sum(MemoryHeld(leases))
    ensures Sum(DiskHeld(leases[a := l])) == Sum(DiskHeld(leases))
    ensures GlobalHeld(leases[a := l]) == GlobalHeld(leases) && GroupHeld(leases[a := l], g) == GroupHeld(leases, g)
  {
    SumWith(MemoryHeld(leases), a, 0);
    assert MemoryHeld(leases)[a := 0] == MemoryHeld(leases[a := l]);
    SumWith(DiskHeld(leases), a, 0);
    assert DiskHeld(leases)[a := 0] == DiskHeld(leases[a := l]);
  }

  lemma StartKeeps(limits: Limits, c: Controller, op: Op)
    requires Inv(limits, c) && op.Start? && Enabled(c, op)
    ensures Inv(limits, Apply(c, op))
  {
    var l := Lease(Acquiring, op.group, op.wanted, false, false, 0, 0);
    var after := Apply(c, op);
    Added(c.leases, op.id, l, []);
    forall g | g in c.groups ensures after.groups[g] + |GroupHeld(after.leases, g)| == limits.groups[g] { Added(c.leases, op.id, l, g); }
    forall a | a in after.leases ensures LeaseGood(after.groups, after.leases[a]) {
      if a != op.id { assert LeaseGood(c.groups, c.leases[a]); }
    }
  }

  lemma GoneKeeps(limits: Limits, c: Controller, op: Op)
    requires Inv(limits, c) && op.Gone? && Enabled(c, op) && c.leases[op.id].stage == Ending
    ensures Inv(limits, Apply(c, op))
  {
    var after := Apply(c, op);
    var l := c.leases[op.id];
    assert after.leases[op.id := l] == c.leases;
    Added(after.leases, op.id, l, []);
    forall g | g in c.groups ensures after.groups[g] + |GroupHeld(after.leases, g)| == limits.groups[g] { Added(after.leases, op.id, l, g); }
    forall a | a in after.leases ensures LeaseGood(after.groups, after.leases[a]) { assert LeaseGood(c.groups, c.leases[a]); }
  }

  predicate Moves(c: Controller, op: Op) {
    Enabled(c, op) && !op.Start? && !OfPreview(op) && !(op.Gone? && c.leases[op.id].stage == Ending)
  }

  lemma MoveGood(c: Controller, op: Op)
    requires Moves(c, op) && LeaseGood(c.groups, c.leases[op.id])
    ensures LeaseGood(c.groups, Moved(c.leases[op.id], op))
  {}

  lemma MoveTotals(limits: Limits, c: Controller, op: Op)
    requires Conserved(limits, c) && Moves(c, op) && LeaseGood(c.groups, c.leases[op.id])
    ensures var after := Apply(c, op);
      && after.leases == c.leases[op.id := Moved(c.leases[op.id], op)]
      && after.global + |GlobalHeld(after.leases)| == limits.captures
      && after.memory + Sum(MemoryHeld(after.leases)) + Sum(after.previews) == limits.memory
      && after.disk == Sum(DiskHeld(after.leases))
  {
    SumWithout(DiskHeld(c.leases), op.id);
    MoveDeltas(c, op);
    Replaced(c.leases, op.id, Moved(c.leases[op.id], op));
  }

  /** A step moves each resource by what its own lease takes or gives. */
  lemma MoveDeltas(c: Controller, op: Op)
    requires Moves(c, op) && LeaseGood(c.groups, c.leases[op.id]) && c.leases[op.id].disk <= c.disk
    ensures var after := Apply(c, op); var l := c.leases[op.id]; var next := Moved(l, op);
      && after.leases == c.leases[op.id := next] && after.previews == c.previews
      && after.global + Bit(next.global) == c.global + Bit(l.global)
      && after.memory + next.memory == c.memory + l.memory
      && after.disk + l.disk == c.disk + next.disk
  {}

  lemma MoveGroup(limits: Limits, c: Controller, op: Op, g: Text)
    requires Conserved(limits, c) && Moves(c, op) && LeaseGood(c.groups, c.leases[op.id]) && g in c.groups
    ensures var after := Apply(c, op);
      g in after.groups && after.groups[g] + |GroupHeld(after.leases, g)| == limits.groups[g]
  {
    assert Apply(c, op).leases == c.leases[op.id := Moved(c.leases[op.id], op)] by {
      SumWithout(DiskHeld(c.leases), op.id);
      MoveDeltas(c, op);
    }
    GroupDelta(c, op, g);
    ReplacedGroup(c.leases, op.id, Moved(c.leases[op.id], op), g);
  }

  lemma GroupDelta(c: Controller, op: Op, g: Text)
    requires Moves(c, op) && LeaseGood(c.groups, c.leases[op.id]) && g in c.groups
    ensures var after := Apply(c, op); var l := c.leases[op.id]; var next := Moved(l, op);
      && next.group == l.group && g in after.groups
      && after.groups[g] + Bit(next.inGroup && l.group == Some(g)) == c.groups[g] + Bit(l.inGroup && l.group == Some(g))
  {}

  lemma PreviewKeeps(limits: Limits, c: Controller, op: Op)
    requires Inv(limits, c) && OfPreview(op)
    ensures Inv(limits, Apply(c, op))
  {
    if Enabled(c, op) {
      if op.Preview? {
        SumWith(c.previews, op.id, op.bytes);
      } else {
        SumWithout(c.previews, op.id);
      }
    }
  }

  lemma StepKeeps(limits: Limits, c: Controller, op: Op)
    requires Inv(limits, c)
    ensures Inv(limits, Apply(c, op))
  {
    if Moves(c, op) {
      var after := Apply(c, op);
      assert LeaseGood(c.groups, c.leases[op.id]);
      MoveTotals(limits, c, op);
      forall g | g in c.groups ensures g in after.groups && after.groups[g] + |GroupHeld(after.leases, g)| == limits.groups[g] {
        MoveGroup(limits, c, op, g);
      }
      assert after.groups.Keys == c.groups.Keys;
      MoveGood(c, op);
      forall a | a in after.leases ensures LeaseGood(after.groups, after.leases[a]) {
        assert a == op.id || LeaseGood(c.groups, c.leases[a]);
      }
    } else if OfPreview(op) {
      PreviewKeeps(limits, c, op);
    } else if op.Start? && Enabled(c, op) {
      StartKeeps(limits, c, op);
    } else if Enabled(c, op) {
      GoneKeeps(limits, c, op);
    }
  }

  // ---- Runs ---------------------------------------------------------------------------------------------

  function After(limits: Limits, ops: seq<Op>): Controller {
    if ops == [] then Fresh(limits) else Apply(After(limits, ops[..|ops| - 1]), ops[|ops| - 1])
  }

  /** Without leases only the previews are missing from the limits. */
  ghost function WithPreviews(limits: Limits, previews: map<nat, nat>): Controller
    requires Sum(previews) <= limits.memory
  {
    Fresh(limits).(memory := limits.memory - Sum(previews), previews := previews)
  }

  lemma NoLeases(limits: Limits, c: Controller)
    requires Inv(limits, c) && c.leases == map[]
    ensures Sum(c.previews) <= limits.memory && c == WithPreviews(limits, c.previews)
  {
    assert GlobalHeld(c.leases) == {} && forall g :: GroupHeld(c.leases, g) == {};
    assert c.groups == limits.groups;
  }

  /** In every interleaving of acquisitions, failures, finishes, drops and previews, each of the four resources
      is its limit minus what the live leases and previews hold. A lease that has gone leaves no trace,
      whichever path it took, and a lease that is processing holds no permit. */
  lemma {:induction false} ResourcesConserved(limits: Limits, ops: seq<Op>)
    ensures Inv(limits, After(limits, ops))
    ensures After(limits, ops).leases == map[] ==> After(limits, ops) == WithPreviews(limits, After(limits, ops).previews)
    ensures After(limits, ops).leases == map[] && After(limits, ops).previews == map[] ==> After(limits, ops) == Fresh(limits)
  {
    if ops == [] {
      assert GlobalHeld(map[]) == {} && forall g :: GroupHeld(map[], g) == {};
    } else {
      ResourcesConserved(limits, ops[..|ops| - 1]);
      StepKeeps(limits, After(limits, ops[..|ops| - 1]), ops[|ops| - 1]);
    }
    if After(limits, ops).leases == map[] { NoLeases(limits, After(limits, ops)); }
  }

  lemma Determined(limits: Limits, c: Controller, d: Controller)
    requires Inv(limits, c) && Inv(limits, d) && c.leases == d.leases
    ensures c.memory + Sum(c.previews) == d.memory + Sum(d.previews)
    ensures d == c.(memory := d.memory, previews := d.previews)
  {
    assert forall g :: g in c.groups ==> c.groups[g] + |GroupHeld(c.leases, g)| == limits.groups[g];
    assert forall g :: g in d.groups ==> d.groups[g] + |GroupHeld(c.leases, g)| == limits.groups[g];
    assert c.groups == d.groups;
  }

  /** The resources are determined by what is live: whatever happened in between, failed attempts and
      rejected growth included, the same leases mean the same permits and disk, and the same memory up to
      what the previews differ by. */
  lemma FailuresLeaveNoTrace(limits: Limits, a: seq<Op>, b: seq<Op>)
    requires After(limits, a).leases == After(limits, b).leases
    ensures var c, d := After(limits, a), After(limits, b);
      && c.global == d.global && c.groups == d.groups && c.disk == d.disk
      && c.memory + Sum(c.previews) == d.memory + Sum(d.previews)
      && (c.previews == d.previews ==> c == d)
  {
    ResourcesConserved(limits, a);
    ResourcesConserved(limits, b);
    Determined(limits, After(limits, a), After(limits, b));
  }

  /** An acquisition in its own order, undisturbed: the two permits, then the bytes. */
  function Permitted(c: Controller, a: nat, group: Option<Text>, wanted: nat): Controller {
    var counted := Apply(Apply(c, Start(a, group, wanted)), TakeGlobal(a));
    if group.Some? then Apply(counted, TakeGroup(a)) else counted
  }

  function Acquired(c: Controller, a: nat, group: Option<Text>, wanted: nat): Controller {
    Apply(Apply(Permitted(c, a, group, wanted), TakeMemory(a)), TakeDisk(a))
  }

  predicate HasPermits(l: Lease) { l.global && (l.group.None? || l.inGroup) }

  lemma StartsAndCounts(c: Controller, a: nat, group: Option<Text>, wanted: nat)
    requires a !in c.leases && wanted > 0
    ensures
      var l := Lease(Acquiring, group, wanted, false, false, 0, 0);
      Apply(Apply(c, Start(a, group, wanted)), TakeGlobal(a)) ==
        if c.global > 0 then c.(global := c.global - 1, leases := c.leases[a := l.(global := true)])
        else c.(leases := c.leases[a := l])
  {
    assert Apply(c, Start(a, group, wanted)) == c.(leases := c.leases[a := Lease(Acquiring, group, wanted, false, false, 0, 0)]);
  }

  /** It gets its permits exactly if both are there. */
  lemma PermittedExactly(c: Controller, a: nat, group: Option<Text>, wanted: nat)
    requires a !in c.leases && wanted > 0
    ensures
      var p := Permitted(c, a, group, wanted);
      && a in p.leases && p.leases == c.leases[a := p.leases[a]] && p.memory == c.memory && p.previews == c.previews
      && p.leases[a] == Lease(Acquiring, group, wanted, p.leases[a].global, p.leases[a].inGroup, 0, 0)
      && (HasPermits(p.leases[a]) <==> c.global > 0 && (group.Some? ==> group.value in c.groups && c.groups[group.value] > 0))
      && p.leases[a].inGroup == (HasPermits(p.leases[a]) && group.Some?)
  {
    StartsAndCounts(c, a, group, wanted);
  }

  lemma TakesBytes(p: Controller, a: nat)
    requires a in p.leases && p.leases[a].stage == Acquiring && p.leases[a].memory == 0 && p.leases[a].wanted > 0
    ensures
      var d, l := Apply(Apply(p, TakeMemory(a)), TakeDisk(a)), p.leases[a];
      if HasPermits(l) && l.wanted <= p.memory then
        d.leases == p.leases[a := l.(stage := Leased, memory := l.wanted, disk := l.wanted)] && d.previews == p.previews
      else d == p
  {
    var l := p.leases[a];
    assert p.leases[a := l.(memory := l.wanted)][a := l.(memory := l.wanted, disk := l.wanted, stage := Leased)]
        == p.leases[a := l.(stage := Leased, memory := l.wanted, disk := l.wanted)];
  }

  /** In every reachable state it gets its lease exactly if it asks for something and all of it is there: a capture
      permit, a permit of its group, and memory beside leases and previews. Then the lease holds exactly that. */
  lemma AcquiredExactly(limits: Limits, ops: seq<Op>, a: nat, group: Option<Text>, wanted: nat)
    requires a !in After(limits, ops).leases && wanted > 0
    ensures
      var c := After(limits, ops);
      var d := Acquired(c, a, group, wanted);
      && a in d.leases
      && (d.leases[a].stage == Leased <==>
            && |GlobalHeld(c.leases)| < limits.captures
            && (group.Some? ==> group.value in limits.groups && |GroupHeld(c.leases, group.value)| < limits.groups[group.value])
            && wanted + Sum(MemoryHeld(c.leases)) + Sum(c.previews) <= limits.memory)
      && (d.leases[a].stage == Leased ==>
            d.leases == c.leases[a := Lease(Leased, group, wanted, true, group.Some?, wanted, wanted)])
      && d.previews == c.previews
  {
    ResourcesConserved(limits, ops);
    var c := After(limits, ops);
    PermittedExactly(c, a, group, wanted);
    var p := Permitted(c, a, group, wanted);
    TakesBytes(p, a);
    var leased := Lease(Leased, group, wanted, true, group.Some?, wanted, wanted);
    assert c.leases[a := p.leases[a]][a := leased] == c.leases[a := leased];
  }

  /** Nothing is acquired for nothing. */
  lemma EmptyRequestIsRefused(c: Controller, a: nat, group: Option<Text>)
    requires a !in c.leases
    ensures Acquired(c, a, group, 0) == c
  {}

  /** What dropping a lease does, one resource at a time and in this order. */
  function Unwinding(a: nat): seq<Op> { [DropDisk(a), DropMemory(a), DropGroup(a), DropGlobal(a), Gone(a)] }

  function Dropped(l: Lease, n: nat): Lease {
    l.(disk := if n > 0 then 0 else l.disk, memory := if n > 1 then 0 else l.memory,
       inGroup := n <= 2 && l.inGroup, global := n <= 3 && l.global)
  }

  lemma DropStep(c: Controller, l: Lease, a: nat, n: nat)
    requires a in c.leases && n < 4 && l.stage == Ending && c.leases[a] == Dropped(l, n)
    ensures Apply(c, Unwinding(a)[n]).leases == c.leases[a := Dropped(l, n + 1)]
  {
    assert n == 2 && !l.inGroup ==> c.leases[a := c.leases[a]] == c.leases;
    assert n == 3 && !l.global ==> c.leases[a := c.leases[a]] == c.leases;
  }

  /** The first `n` steps of the drop. */
  function Unwound(c: Controller, a: nat, n: nat): Controller
    requires n <= 5
  {
    if n == 0 then c else Apply(Unwound(c, a, n - 1), Unwinding(a)[n - 1])
  }

  lemma {:induction false} DropSteps(c: Controller, a: nat, n: nat)
    requires n <= 4 && a in c.leases && c.leases[a].stage == Ending
    ensures Unwound(c, a, n).leases == c.leases[a := Dropped(c.leases[a], n)]
  {
    if n > 0 {
      DropSteps(c, a, n - 1);
      DropStep(Unwound(c, a, n - 1), c.leases[a], a, n - 1);
    }
  }

  lemma SparesPreviews(c: Controller, op: Op)
    requires !OfPreview(op)
    ensures Apply(c, op).previews == c.previews
  {}

  lemma {:induction false} UnwindingSparesPreviews(c: Controller, a: nat, n: nat)
    requires n <= 5
    ensures Unwound(c, a, n).previews == c.previews
  {
    if n > 0 {
      UnwindingSparesPreviews(c, a, n - 1);
      SparesPreviews(Unwound(c, a, n - 1), Unwinding(a)[n - 1]);
    }
  }

  lemma {:induction false} UnwoundKeeps(limits: Limits, c: Controller, a: nat, n: nat)
    requires Inv(limits, c) && n <= 5
    ensures Inv(limits, Unwound(c, a, n))
  {
    if n > 0 {
      UnwoundKeeps(limits, c, a, n - 1);
      StepKeeps(limits, Unwound(c, a, n - 1), Unwinding(a)[n - 1]);
    }
  }

  lemma GoneStep(c: Controller, a: nat)
    requires a in c.leases && c.leases[a].stage == Ending && c.leases[a] == Dropped(c.leases[a], 4)
    ensures Apply(c, Gone(a)).leases == c.leases - {a}
  {}

  lemma EndingUnwinds(limits: Limits, c: Controller, a: nat)
    requires Inv(limits, c) && a in c.leases && c.leases[a].stage == Ending
    ensures Unwound(c, a, 5).leases == c.leases - {a} && Inv(limits, Unwound(c, a, 5))
  {
    DropSteps(c, a, 4);
    UnwoundKeeps(limits, c, a, 5);
    GoneStep(Unwound(c, a, 4), a);
  }

  /** Without a lease, its resources are back: each by exactly what that lease held. */
  ghost predicate GivenBack(c: Controller, l: Lease, after: Controller) {
    && after.global == c.global + Bit(l.global) && after.memory == c.memory + l.memory && after.disk == c.disk - l.disk
    && after.groups.Keys == c.groups.Keys
    && forall g :: g in c.groups ==> after.groups[g] == c.groups[g] + Bit(l.inGroup && l.group == Some(g))
  }

  lemma HeldWithout(leases: map<nat, Lease>, a: nat)
    requires a in leases
    ensures Sum(MemoryHeld(leases)) == leases[a].memory + Sum(MemoryHeld(leases - {a}))
    ensures Sum(DiskHeld(leases)) == leases[a].disk + Sum(DiskHeld(leases - {a}))
    ensures |GlobalHeld(leases)| == Bit(leases[a].global) + |GlobalHeld(leases - {a})|
  {
    SumWithout(MemoryHeld(leases), a);
    assert MemoryHeld(leases - {a}) == MemoryHeld(leases) - {a};
    SumWithout(DiskHeld(leases), a);
    assert DiskHeld(leases - {a}) == DiskHeld(leases) - {a};
    SetSwap(GlobalHeld(leases), GlobalHeld(leases - {a}), a);
  }

  lemma GoneGivesBack(limits: Limits, c: Controller, a: nat, after: Controller)
    requires Inv(limits, c) && Inv(limits, after) && a in c.leases && after.leases == c.leases - {a}
    requires after.previews == c.previews
    ensures GivenBack(c, c.leases[a], after)
  {
    var l := c.leases[a];
    HeldWithout(c.leases, a);
    forall g | g in c.groups ensures after.groups[g] == c.groups[g] + Bit(l.inGroup && l.group == Some(g)) {
      SetSwap(GroupHeld(c.leases, g), GroupHeld(after.leases, g), a);
    }
  }

  /** An acquisition that fails, at whatever stage, a frame that outgrew its reservation, and a lease that is dropped. */
  predicate Aborts(c: Controller, op: Op) {
    (op.Fail? || op.Finish? || op.Drop?) && op.id in c.leases
    && (op.Drop? ==> c.leases[op.id].stage == Leased || c.leases[op.id].stage == Processing)
    && (op.Fail? ==> c.leases[op.id].stage == Acquiring)
    && (op.Finish? ==> c.leases[op.id].stage == Leased && op.actual > c.leases[op.id].memory)
  }

  lemma AbortEnds(c: Controller, op: Op)
    requires Aborts(c, op)
    ensures op.id in Apply(c, op).leases && Apply(c, op).leases[op.id].stage == Ending
    ensures Apply(c, op).leases - {op.id} == c.leases - {op.id} && Apply(c, op).previews == c.previews
  {}

  /** In every reachable state, each of these unwinds completely: no part of the drop waits for anything, the
      lease is gone, and exactly what it held of the four resources is back. */
  lemma FailureUnwinds(limits: Limits, ops: seq<Op>, op: Op)
    requires Aborts(After(limits, ops), op)
    ensures var c := After(limits, ops); var after := Unwound(Apply(c, op), op.id, 5);
      after.leases == c.leases - {op.id} && after.previews == c.previews && GivenBack(c, c.leases[op.id], after)
  {
    var c := After(limits, ops);
    ResourcesConserved(limits, ops);
    StepKeeps(limits, c, op);
    AbortEnds(c, op);
    EndingUnwinds(limits, Apply(c, op), op.id);
    UnwindingSparesPreviews(Apply(c, op), op.id, 5);
    GoneGivesBack(limits, c, op.id, Unwound(Apply(c, op), op.id, 5));
  }

  /** The steps after a frame that fits. */
  function Settled(c: Controller, a: nat): Controller {
    Apply(Apply(Apply(c, DropGroup(a)), DropGlobal(a)), Gone(a))
  }

  /** A frame that fits keeps its disk reservation and just its own bytes of memory, and returns the rest:
      the surplus memory and both permits. */
  lemma FinishReturnsPermits(limits: Limits, ops: seq<Op>, a: nat, actual: nat)
    requires var c := After(limits, ops); a in c.leases && c.leases[a].stage == Leased && actual <= c.leases[a].memory
    ensures var c := After(limits, ops); var l := c.leases[a]; var after := Settled(Apply(c, Finish(a, actual)), a);
      && after.leases == c.leases[a := Lease(Processing, l.group, l.wanted, false, false, actual, l.disk)]
      && GivenBack(c, l.(memory := l.memory - actual, disk := 0), after)
  {
    var c := After(limits, ops);
    ResourcesConserved(limits, ops);
    assert LeaseGood(c.groups, c.leases[a]);
    FinishSettles(c, a, actual);
  }

  lemma FinishSettles(c: Controller, a: nat, actual: nat)
    requires a in c.leases && c.leases[a].stage == Leased && actual <= c.leases[a].memory && LeaseGood(c.groups, c.leases[a])
    ensures var l := c.leases[a]; var after := Settled(Apply(c, Finish(a, actual)), a);
      && after.leases == c.leases[a := Lease(Processing, l.group, l.wanted, false, false, actual, l.disk)]
      && GivenBack(c, l.(memory := l.memory - actual, disk := 0), after)
  {
    SettleSteps(Apply(c, Finish(a, actual)), a);
  }

  lemma SettleSteps(c: Controller, a: nat)
    requires a in c.leases && c.leases[a].stage == Settling && c.leases[a].global && LeaseGood(c.groups, c.leases[a])
    ensures var l := c.leases[a]; var after := Settled(c, a);
      && after.leases == c.leases[a := Lease(Processing, l.group, l.wanted, false, false, l.memory, l.disk)]
      && GivenBack(c, l.(memory := 0, disk := 0), after)
  {
    var l := c.leases[a];
    var d := Apply(c, DropGroup(a));
    assert d.leases == c.leases[a := l.(inGroup := false)];
    var e := Apply(d, DropGlobal(a));
    assert e.leases == c.leases[a := l.(inGroup := false, global := false)];
  }

  /** A lease in processing gives memory up and keeps the rest. */
  lemma ShrinkGivesMemoryBack(c: Controller, a: nat, bytes: nat)
    requires a in c.leases && c.leases[a].stage == Processing && bytes <= c.leases[a].memory
    ensures Apply(c, ShrinkMemory(a, bytes)).memory + bytes == c.memory + c.leases[a].memory
    ensures Apply(c, ShrinkMemory(a, bytes)).leases == c.leases[a := c.leases[a].(memory := bytes)]
  {}

  lemma DiskCoversLease(limits: Limits, c: Controller, a: nat)
    requires Conserved(limits, c) && a in c.leases
    ensures c.disk >= c.leases[a].disk
  {
    HeldWithout(c.leases, a);
  }

  /** And disk likewise, which in no reachable state is more than is outstanding. */
  lemma ShrinkGivesDiskBack(limits: Limits, ops: seq<Op>, a: nat, bytes: nat)
    requires a in After(limits, ops).leases && After(limits, ops).leases[a].stage == Processing
    requires bytes <= After(limits, ops).leases[a].disk
    ensures
      var c := After(limits, ops);
      var d := Apply(c, ShrinkDisk(a, bytes));
      d.disk + c.leases[a].disk == c.disk + bytes && d.leases == c.leases[a := c.leases[a].(disk := bytes)]
  {
    ResourcesConserved(limits, ops);
    DiskCoversLease(limits, After(limits, ops), a);
  }

  /** A preview gets its bytes exactly if it asks for some and they are there beside leases and previews; ending it gives
      them back. */
  lemma PreviewExactly(limits: Limits, ops: seq<Op>, p: nat, bytes: nat)
    requires p !in After(limits, ops).previews
    ensures
      var c := After(limits, ops);
      var d := Apply(c, Preview(p, bytes));
      && (p in d.previews <==> 0 < bytes && bytes + Sum(MemoryHeld(c.leases)) + Sum(c.previews) <= limits.memory)
      && (p in d.previews ==> d.memory == c.memory - bytes && d.previews == c.previews[p := bytes] && Apply(d, EndPreview(p)) == c)
      && (p !in d.previews ==> d == c)
  {
    var c := After(limits, ops);
    ResourcesConserved(limits, ops);
    assert c.previews[p := bytes] - {p} == c.previews;
  }
}
