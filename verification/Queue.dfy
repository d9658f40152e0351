/** The bounded capture queue: a vector with swap-remove, per-camera counts, and priority aging. */
module Queue {
  import opened Texts
  import opened Options
  import opened Sets

  const MAX_TICKET: nat := 0xffff_ffff_ffff_ffff

  datatype Priority = Direct | Submitted | Scheduled

  function Base(p: Priority): nat {
    match p
    case Direct => 2
    case Submitted => 1
    case Scheduled => 0
  }

  datatype Entry = Entry(ticket: nat, camera: Text, priority: Priority, at: int, deadline: int, payload: Text)

  /** One point per complete aging interval; a clock that reads before the enqueue time counts as age zero. */
  function Score(e: Entry, now: int, aging: nat): nat
    requires aging > 0
  {
    Base(e.priority) + (if now > e.at then now - e.at else 0) / aging
  }

  /** Higher score first, then lower ticket. */
  predicate Beats(a: Entry, b: Entry, now: int, aging: nat)
    requires aging > 0
  {
    Score(a, now, aging) > Score(b, now, aging) || (Score(a, now, aging) == Score(b, now, aging) && a.ticket < b.ticket)
  }

  // ---- The queue as a set -------------------------------------------------------------------------

  function Elements(entries: seq<Entry>): set<Entry> {
    set e | e in entries
  }

  predicate Dead(e: Entry, now: int, cancelled: set<nat>) {
    e.ticket in cancelled || e.deadline <= now
  }

  function Live(queue: set<Entry>, now: int, cancelled: set<nat>): set<Entry> {
    set e | e in queue && !Dead(e, now, cancelled)
  }

  function OfCamera(queue: set<Entry>, camera: Text): set<Entry> {
    set e | e in queue && e.camera == camera
  }

  /** `cancelled` and `allowed` are the tickets whose cancellation and admissibility checks answered
      yes; each check is made once per entry, at its own moment. */
  datatype Clock = Clock(now: int, cancelled: set<nat>, allowed: set<nat>)

  ghost predicate IsBest(live: set<Entry>, clock: Clock, aging: nat, best: Entry)
    requires aging > 0
  {
    && best in live && best.ticket in clock.allowed
    && forall e :: e in live && e.ticket in clock.allowed && e != best ==> Beats(best, e, clock.now, aging)
  }

  /** What a pop may do: drop exactly the dead, hand out the best admissible live entry if there is one. */
  ghost predicate Pops(queue: set<Entry>, clock: Clock, aging: nat, after: set<Entry>, out: Option<Entry>)
    requires aging > 0
  {
    var live := Live(queue, clock.now, clock.cancelled);
    match out
    case None => after == live && forall e :: e in live ==> e.ticket !in clock.allowed
    case Some(best) => IsBest(live, clock, aging, best) && after == live - {best}
  }

  /** A pop has exactly one possible result. */
  lemma PopIsUnique(queue: set<Entry>, clock: Clock, aging: nat, a1: set<Entry>, o1: Option<Entry>, a2: set<Entry>, o2: Option<Entry>)
    requires aging > 0 && Pops(queue, clock, aging, a1, o1) && Pops(queue, clock, aging, a2, o2)
    ensures a1 == a2 && o1 == o2
  {
  }

  /** What is left of the queue and what is handed out, entry by entry: everything not cancelled and due after the clock,
      and nothing else; it comes back empty-handed only if none of that is allowed. */
  lemma PopExactly(queue: set<Entry>, clock: Clock, aging: nat, after: set<Entry>, out: Option<Entry>)
    requires aging > 0 && Pops(queue, clock, aging, after, out)
    ensures forall e :: e in after || out == Some(e) <==> e in queue && e.ticket !in clock.cancelled && e.deadline > clock.now
    ensures out.Some? ==> out.value !in after && out.value.ticket in clock.allowed
    ensures out.None? <==>
      forall e :: e in queue && e.ticket in clock.allowed ==> e.ticket in clock.cancelled || e.deadline <= clock.now
  {}

  // ---- Aging ----------------------------------------------------------------------------------------

  /** How many intervals one class is ahead of another. */
  function Head(a: Priority, b: Priority): int {
    match (a, b)
    case (Direct, Submitted) => 1
    case (Direct, Scheduled) => 2
    case (Submitted, Scheduled) => 1
    case (Submitted, Direct) => -1
    case (Scheduled, Submitted) => -1
    case (Scheduled, Direct) => -2
    case _ => 0
  }

  /** The entry has waited `n` complete intervals; a clock that has not reached it yet counts as no wait. */
  ghost predicate HasWaited(e: Entry, now: int, aging: nat, n: nat) {
    if now <= e.at then n == 0 else n * aging <= now - e.at < (n + 1) * aging
  }

  lemma Multiples(m: int, n: int, aging: nat)
    ensures m <= n ==> m * aging <= n * aging
  {
    if m <= n { assert (n - m) * aging >= 0; }
  }

  lemma WaitIsQuotient(x: nat, aging: nat, n: nat)
    requires aging > 0 && n * aging <= x < (n + 1) * aging
    ensures x / aging == n
  {
    assert x == x / aging * aging + x % aging;
    Multiples(x / aging + 1, n, aging);
    Multiples(n + 1, x / aging, aging);
  }

  /** Which of two entries goes first: the one that has waited more intervals once its class's head start is added, or
      on a tie the one with the lower ticket. */
  lemma GoesFirstExactly(a: Entry, b: Entry, now: int, aging: nat, waitedA: nat, waitedB: nat)
    requires aging > 0 && HasWaited(a, now, aging, waitedA) && HasWaited(b, now, aging, waitedB)
    ensures Beats(a, b, now, aging) <==>
      var ahead := waitedA + Head(a.priority, b.priority) - waitedB;
      ahead > 0 || (ahead == 0 && a.ticket < b.ticket)
  {
    if now > a.at { WaitIsQuotient(now - a.at, aging, waitedA); }
    if now > b.at { WaitIsQuotient(now - b.at, aging, waitedB); }
  }

  /** Every entry has waited some number of intervals, so the rule above is about all of them. */
  lemma EveryWaitIsCounted(e: Entry, now: int, aging: nat) returns (n: nat)
    requires aging > 0
    ensures HasWaited(e, now, aging, n)
  {
    if now <= e.at { return 0; }
    n := (now - e.at) / aging;
    assert now - e.at == n * aging + (now - e.at) % aging;
  }

  /** With equal waits the classes go DIRECT, SUBMITTED, SCHEDULED, whatever the tickets. */
  lemma ClassesInOrder(a: Entry, b: Entry, now: int, aging: nat)
    requires aging > 0 && a.at == b.at
    requires (a.priority, b.priority) in {(Direct, Submitted), (Direct, Scheduled), (Submitted, Scheduled)}
    ensures Beats(a, b, now, aging) && !Beats(b, a, now, aging)
  {
    var n := EveryWaitIsCounted(a, now, aging);
    GoesFirstExactly(a, b, now, aging, n, n);
    GoesFirstExactly(b, a, now, aging, n, n);
  }

  /** What a lower class has to wait to go first: past DIRECT, a submitted capture one interval more and a scheduled one
      two; past SUBMITTED, a scheduled one one; exactly that much more decides by ticket. */
  lemma LowerClassGoesFirst(low: Entry, high: Entry, now: int, aging: nat, waitedLow: nat, waitedHigh: nat)
    requires aging > 0 && HasWaited(low, now, aging, waitedLow) && HasWaited(high, now, aging, waitedHigh)
    ensures low.priority == Submitted && high.priority == Direct ==>
      (Beats(low, high, now, aging) <==>
        waitedLow > waitedHigh + 1 || (waitedLow == waitedHigh + 1 && low.ticket < high.ticket))
    ensures low.priority == Scheduled && high.priority == Submitted ==>
      (Beats(low, high, now, aging) <==>
        waitedLow > waitedHigh + 1 || (waitedLow == waitedHigh + 1 && low.ticket < high.ticket))
    ensures low.priority == Scheduled && high.priority == Direct ==>
      (Beats(low, high, now, aging) <==>
        waitedLow > waitedHigh + 2 || (waitedLow == waitedHigh + 2 && low.ticket < high.ticket))
  {
    GoesFirstExactly(low, high, now, aging, waitedLow, waitedHigh);
  }

  function Earlier(a: int, b: int): int { if a < b then a else b }

  lemma QuotientGap(x: nat, y: nat, aging: nat, d: int)
    requires aging > 0 && d + y / aging > x / aging
    ensures x - y < d * aging
  {
    var gap := d - 1 - (x / aging - y / aging);
    assert x == x / aging * aging + x % aging && y == y / aging * aging + y % aging;
    assert (x / aging - y / aging + gap) * aging == (d - 1) * aging;
    assert gap * aging >= 0;
    assert (d - 1) * aging == d * aging - aging;
    assert (x / aging - y / aging + gap) * aging == x / aging * aging - y / aging * aging + gap * aging;
  }

  /** The aging bound with no assumption on clocks: a later ticket wins only if it entered less than
      (class difference) intervals later, both times read as no later than the pop. */
  lemma OvertakingBound(e: Entry, p: Entry, now: int, aging: nat)
    requires aging > 0 && e.ticket < p.ticket && Beats(p, e, now, aging)
    ensures Earlier(p.at, now) - Earlier(e.at, now) < Head(p.priority, e.priority) * aging
    ensures Earlier(p.at, now) - Earlier(e.at, now) < 2 * aging
  {
    var d := Head(p.priority, e.priority);
    QuotientGap(now - Earlier(e.at, now), now - Earlier(p.at, now), aging, d);
    assert (2 - d) * aging >= 0;
    assert (2 - d) * aging == 2 * aging - d * aging;
  }

  lemma TicketOrder(e: Entry, p: Entry, now: int, aging: nat)
    requires aging > 0 && e.ticket < p.ticket && e.priority == p.priority && e.at <= p.at
    ensures Beats(e, p, now, aging)
  {
    if Beats(p, e, now, aging) {
      OvertakingBound(e, p, now, aging);
    }
  }

  /** Within one class the earlier ticket goes first at every pop clock if and only if it was not enqueued
      later: one interval after the other's time, an entry with the later ticket and the earlier time wins. */
  lemma TicketOrderIsExact(e: Entry, p: Entry, aging: nat)
    requires aging > 0 && e.ticket < p.ticket && e.priority == p.priority
    ensures (forall now :: Beats(e, p, now, aging)) <==> e.at <= p.at
  {
    if e.at <= p.at {
      forall now ensures Beats(e, p, now, aging) { TicketOrder(e, p, now, aging); }
    } else {
      assert Score(p, p.at + aging, aging) == Base(p.priority) + 1;
      assert Score(e, p.at + aging, aging) == Base(e.priority);
      assert !Beats(e, p, p.at + aging, aging);
    }
  }

  /** The bound in terms of enqueue times: a later ticket that wins entered less than (class difference)
      intervals after. */
  ghost predicate WithinBound(e: Entry, p: Entry, now: int, aging: nat)
    requires aging > 0
  {
    e.ticket < p.ticket && Beats(p, e, now, aging) ==> p.at - e.at < Head(p.priority, e.priority) * aging
  }

  lemma ClockAheadKeepsTheBound(e: Entry, p: Entry, now: int, aging: nat)
    requires aging > 0 && p.at <= now
    ensures WithinBound(e, p, now, aging)
  {
    if e.ticket < p.ticket && Beats(p, e, now, aging) {
      OvertakingBound(e, p, now, aging);
    }
  }

  /** A scheduled descriptor two intervals older loses to a direct one that the clock has not reached yet. */
  lemma ClockBehindBreaksTheBound(now: int, aging: nat, t: int)
    requires aging > 0 && t > now
    ensures exists e: Entry, p: Entry :: p.at == t && !WithinBound(e, p, now, aging)
  {
    var e, p := Entry(1, [0], Scheduled, t - 2 * aging, t + 1, []), Entry(2, [0], Direct, t, t + 1, []);
    var age := if now > e.at then now - e.at else 0;
    assert age < 2 * aging;
    assert age / aging < 2 by {
      if age / aging >= 2 { QuotientAtLeastTwo(age, aging); }
    }
    assert Beats(p, e, now, aging) && p.at - e.at == 2 * aging;
    assert !WithinBound(e, p, now, aging);
  }

  lemma QuotientAtLeastTwo(x: nat, aging: nat)
    requires aging > 0 && x / aging >= 2
    ensures x >= 2 * aging
  {
    assert x == x / aging * aging + x % aging;
    assert (x / aging - 2) * aging >= 0;
    assert (x / aging - 2) * aging == x / aging * aging - 2 * aging;
  }

  /** The pop clock is read before the lock, so it may be behind the time of the entry it selects. The bound
      on enqueue times holds for everything enqueued at `t` if and only if the clock has reached `t`. */
  lemma ClockConditionIsExact(now: int, aging: nat, t: int)
    requires aging > 0
    ensures (forall e: Entry, p: Entry :: p.at == t ==> WithinBound(e, p, now, aging)) <==> t <= now
  {
    if t <= now {
      forall e: Entry, p: Entry | p.at == t ensures WithinBound(e, p, now, aging) {
        ClockAheadKeepsTheBound(e, p, now, aging);
      }
    } else {
      ClockBehindBreaksTheBound(now, aging, t);
    }
  }

  // ---- Runs -------------------------------------------------------------------------------------------

  datatype Event =
    | Enqueued(entry: Entry)
    | Removed(ticket: nat)
    | Popped(clock: Clock, out: Option<Entry>)

  ghost predicate Step(queue: set<Entry>, event: Event, aging: nat, after: set<Entry>)
    requires aging > 0
  {
    match event
    case Enqueued(entry) => after == queue + {entry}
    case Removed(ticket) => after == set e | e in queue && e.ticket != ticket
    case Popped(clock, out) => Pops(queue, clock, aging, after, out)
  }

  /** `queues[i]` is the queue before event `i`. */
  ghost predicate IsRun(queues: seq<set<Entry>>, events: seq<Event>, aging: nat)
    requires aging > 0
  {
    |queues| == |events| + 1 && forall i :: 0 <= i < |events| ==> Step(queues[i], events[i], aging, queues[i + 1])
  }

  /** Entry `e` is neither cancelled, expired nor inadmissible at this pop. */
  ghost predicate Eligible(event: Event, e: Entry) {
    event.Popped? ==> !Dead(e, event.clock.now, event.clock.cancelled) && e.ticket in event.clock.allowed
  }

  ghost predicate Keeps(event: Event, e: Entry) {
    && (event.Removed? ==> event.ticket != e.ticket)
    && (event.Popped? ==> event.out != Some(e))
  }

  /** Over any run in which `e` stays eligible, whatever the clocks read: until `e` itself is handed out it
      stays queued. */
  lemma {:induction false} StaysQueued(queues: seq<set<Entry>>, events: seq<Event>, aging: nat, e: Entry, k: nat)
    requires aging > 0 && IsRun(queues, events, aging) && e in queues[0] && k < |queues|
    requires forall i :: 0 <= i < k ==> Eligible(events[i], e) && Keeps(events[i], e)
    ensures e in queues[k]
  {
    if k > 0 {
      StaysQueued(queues, events, aging, e, k - 1);
      assert Step(queues[k - 1], events[k - 1], aging, queues[k]);
      assert Keeps(events[k - 1], e) && Eligible(events[k - 1], e);
    }
  }

  /** Then every pop hands something out, and whatever goes ahead of `e` with a later ticket entered less than
      (class difference) intervals after it, in times read as no later than the pop; in enqueue times
      themselves if this pop's clock is not behind what it hands out. So nothing that enters two intervals
      later ever passes it. */
  lemma BoundedOvertaking(queues: seq<set<Entry>>, events: seq<Event>, aging: nat, e: Entry, k: nat)
    requires aging > 0 && IsRun(queues, events, aging) && e in queues[0] && k < |events|
    requires forall i :: 0 <= i <= k ==> Eligible(events[i], e)
    requires forall i :: 0 <= i < k ==> Keeps(events[i], e)
    ensures e in queues[k]
    ensures events[k].Popped? ==> events[k].out.Some?
    ensures events[k].Popped? && events[k].out.value.ticket > e.ticket ==>
      var p, now := events[k].out.value, events[k].clock.now;
      && Earlier(p.at, now) - Earlier(e.at, now) < Head(p.priority, e.priority) * aging
      && (p.at <= now ==> p.at - e.at < Head(p.priority, e.priority) * aging && p.at < e.at + 2 * aging)
  {
    StaysQueued(queues, events, aging, e, k);
    assert Step(queues[k], events[k], aging, queues[k + 1]) && Eligible(events[k], e);
    if events[k].Popped? {
      assert e in Live(queues[k], events[k].clock.now, events[k].clock.cancelled);
      var p := events[k].out.value;
      if p.ticket > e.ticket {
        OvertakingBound(e, p, events[k].clock.now, aging);
        if p.at <= events[k].clock.now {
          ClockAheadKeepsTheBound(e, p, events[k].clock.now, aging);
        }
      }
    }
  }

  // ---- Counting -----------------------------------------------------------------------------------------

  ghost predicate Counted(perCamera: map<Text, nat>, queue: set<Entry>) {
    && (forall c :: c in perCamera ==> perCamera[c] == |OfCamera(queue, c)|)
    && (forall c :: c in perCamera <==> OfCamera(queue, c) != {})
  }

  predicate Unique(entries: seq<Entry>) {
    forall i, j :: 0 <= i < j < |entries| ==> entries[i].ticket != entries[j].ticket
  }

  lemma {:induction false} ElementsCounted(entries: seq<Entry>)
    requires Unique(entries)
    ensures |Elements(entries)| == |entries|
  {
    if entries != [] {
      var front, last := entries[..|entries| - 1], entries[|entries| - 1];
      ElementsCounted(front);
      assert entries == front + [last];
      assert Elements(entries) == Elements(front) + {last} && last !in front;
    }
  }

  lemma CountWithout(queue: set<Entry>, e: Entry, c: Text)
    requires e in queue
    ensures |OfCamera(queue - {e}, c)| == |OfCamera(queue, c)| - (if e.camera == c then 1 else 0)
    ensures e.camera != c ==> OfCamera(queue - {e}, c) == OfCamera(queue, c)
  {
    if e.camera == c {
      assert OfCamera(queue, c) == OfCamera(queue - {e}, c) + {e};
    } else {
      assert OfCamera(queue, c) == OfCamera(queue - {e}, c);
    }
  }

  lemma CountWith(queue: set<Entry>, e: Entry, c: Text)
    requires e !in queue
    ensures |OfCamera(queue + {e}, c)| == |OfCamera(queue, c)| + (if e.camera == c then 1 else 0)
    ensures e.camera != c ==> OfCamera(queue + {e}, c) == OfCamera(queue, c)
  {
    assert (queue + {e}) - {e} == queue;
    CountWithout(queue + {e}, e, c);
  }

  function Decremented(perCamera: map<Text, nat>, c: Text): map<Text, nat> {
    if c !in perCamera then perCamera
    else if perCamera[c] <= 1 then perCamera - {c}
    else perCamera[c := perCamera[c] - 1]
  }

  function Incremented(perCamera: map<Text, nat>, c: Text): map<Text, nat> {
    perCamera[c := (if c in perCamera then perCamera[c] else 0) + 1]
  }

  lemma DecrementCounts(perCamera: map<Text, nat>, queue: set<Entry>, e: Entry)
    requires Counted(perCamera, queue) && e in queue
    ensures Counted(Decremented(perCamera, e.camera), queue - {e})
  {
    assert e in OfCamera(queue, e.camera);
    forall c ensures c in Decremented(perCamera, e.camera) <==> OfCamera(queue - {e}, c) != {} {
      CountWithout(queue, e, c);
    }
    forall c | c in Decremented(perCamera, e.camera) ensures Decremented(perCamera, e.camera)[c] == |OfCamera(queue - {e}, c)| {
      CountWithout(queue, e, c);
    }
  }

  lemma IncrementCounts(perCamera: map<Text, nat>, queue: set<Entry>, e: Entry)
    requires Counted(perCamera, queue) && e !in queue
    ensures Counted(Incremented(perCamera, e.camera), queue + {e})
  {
    forall c ensures c in Incremented(perCamera, e.camera) <==> OfCamera(queue + {e}, c) != {} {
      CountWith(queue, e, c);
      assert e in OfCamera(queue + {e}, e.camera);
    }
    forall c | c in Incremented(perCamera, e.camera) ensures Incremented(perCamera, e.camera)[c] == |OfCamera(queue + {e}, c)| {
      CountWith(queue, e, c);
    }
  }

  // ---- The queue itself -----------------------------------------------------------------------------------

  datatype Refusal = NoCamera | Cancelled | TimedOut | NoRuntime | TicketsExhausted | GlobalFull | CameraFull

  datatype Enqueue = Accepted(ticket: nat) | Refused(why: Refusal)

  class CaptureQueue {
    var entries: seq<Entry>
    var perCamera: map<Text, nat>
    var nextTicket: nat
    /** Tickets drawn by producers that have yet to take the lock. */
    ghost var drawn: set<nat>
    const maxGlobal: nat
    const maxPerCamera: nat
    const aging: nat

    function Contents(): set<Entry>
      reads this
    {
      Elements(entries)
    }

    ghost predicate Consistent()
      reads this
    {
      && Unique(entries) && Counted(perCamera, Contents())
      && (forall e :: e in entries ==> e.ticket < nextTicket && e.ticket !in drawn)
      && (forall t :: t in drawn ==> t < nextTicket) && nextTicket <= MAX_TICKET
    }

    /** Both bounds, whatever sequence of enqueues, removals and pops led here. */
    ghost predicate Valid()
      reads this
    {
      && maxGlobal > 0 && maxPerCamera > 0 && aging > 0
      && Consistent() && |Contents()| <= maxGlobal
      && forall c :: |OfCamera(Contents(), c)| <= maxPerCamera
    }

    constructor (maxGlobal: nat, maxPerCamera: nat, aging: nat)
      requires maxGlobal > 0 && maxPerCamera > 0 && aging > 0
      ensures Valid() && Contents() == {} && nextTicket == 1 && drawn == {}
      ensures this.maxGlobal == maxGlobal && this.maxPerCamera == maxPerCamera && this.aging == aging
    {
      this.maxGlobal, this.maxPerCamera, this.aging := maxGlobal, maxPerCamera, aging;
      entries, perCamera, nextTicket, drawn := [], map[], 1, {};
      new;
      assert forall c :: OfCamera(Contents(), c) == {};
    }

    static method New(maxGlobal: nat, maxPerCamera: nat, aging: nat) returns (r: Option<CaptureQueue>)
      ensures r.Some? <==> maxGlobal > 0 && maxPerCamera > 0 && aging > 0
      ensures r.Some? ==> fresh(r.value) && r.value.Valid() && r.value.Contents() == {}
      ensures r.Some? ==> r.value.maxGlobal == maxGlobal && r.value.maxPerCamera == maxPerCamera && r.value.aging == aging
    {
      if maxGlobal == 0 || maxPerCamera == 0 || aging == 0 {
        return None;
      }
      var queue := new CaptureQueue(maxGlobal, maxPerCamera, aging);
      r := Some(queue);
    }

    /** Drawing a ticket takes no lock: other producers may draw, insert and be refused in between. */
    method DrawTicket() returns (ticket: Option<nat>)
      requires Valid()
      modifies `nextTicket, `drawn
      ensures Valid()
      ensures ticket.None? <==> old(nextTicket) == MAX_TICKET
      ensures ticket.None? ==> nextTicket == old(nextTicket) && drawn == old(drawn)
      ensures ticket.Some? ==>
        && ticket.value == old(nextTicket) && nextTicket == ticket.value + 1
        && ticket.value !in old(drawn) && drawn == old(drawn) + {ticket.value}
    {
      if nextTicket == MAX_TICKET {
        return None;
      }
      ticket := Some(nextTicket);
      drawn := drawn + {nextTicket};
      nextTicket := nextTicket + 1;
    }

    /** Under the lock, with any ticket drawn earlier. */
    method Insert(e: Entry) returns (r: Enqueue)
      requires Valid() && e.ticket in drawn
      modifies `entries, `perCamera, `drawn
      ensures Valid() && drawn == old(drawn) - {e.ticket}
      ensures r.Accepted? <==> |old(Contents())| < maxGlobal && |OfCamera(old(Contents()), e.camera)| < maxPerCamera
      ensures r.Accepted? ==> r.ticket == e.ticket && Contents() == old(Contents()) + {e}
      ensures r.Refused? ==> Contents() == old(Contents())
      ensures r.Refused? ==> r.why == if |old(Contents())| == maxGlobal then GlobalFull else CameraFull
    {
      drawn := drawn - {e.ticket};
      ElementsCounted(entries);
      if |entries| >= maxGlobal {
        return Refused(GlobalFull);
      }
      var pending := if e.camera in perCamera then perCamera[e.camera] else 0;
      assert pending == |OfCamera(Contents(), e.camera)|;
      if pending >= maxPerCamera {
        return Refused(CameraFull);
      }
      Push(e);
      r := Accepted(e.ticket);
    }

    /** The whole call, when nothing intervenes. A refusal for capacity uses a ticket up; any earlier one
        does not. */
    method TryEnqueue(camera: Text, priority: Priority, deadline: int, cancelled: bool, now: int, runtime: bool, at: int, payload: Text) returns (r: Enqueue)
      requires Valid()
      modifies `entries, `perCamera, `nextTicket, `drawn
      ensures Valid() && drawn == old(drawn)
      ensures r.Accepted? ==>
        r.ticket == old(nextTicket) && Contents() == old(Contents()) + {Entry(r.ticket, camera, priority, at, deadline, payload)}
      ensures r.Refused? ==> Contents() == old(Contents())
      ensures r.Refused? ==>
        (r.why == if camera == [] then NoCamera else if cancelled then Cancelled else if deadline <= now then TimedOut
                  else if !runtime then NoRuntime else if old(nextTicket) == MAX_TICKET then TicketsExhausted
                  else if |old(Contents())| == maxGlobal then GlobalFull else CameraFull)
      ensures r.Accepted? <==>
        && camera != [] && !cancelled && deadline > now && runtime && old(nextTicket) < MAX_TICKET
        && |old(Contents())| < maxGlobal && |OfCamera(old(Contents()), camera)| < maxPerCamera
      ensures nextTicket == old(nextTicket) + if r.Accepted? || r.why == GlobalFull || r.why == CameraFull then 1 else 0
    {
      if camera == [] {
        return Refused(NoCamera);
      }
      if cancelled {
        return Refused(Cancelled);
      }
      if deadline <= now {
        return Refused(TimedOut);
      }
      if !runtime {
        return Refused(NoRuntime);
      }
      var ticket := DrawTicket();
      if ticket.None? {
        return Refused(TicketsExhausted);
      }
      r := Insert(Entry(ticket.value, camera, priority, at, deadline, payload));
    }

    method Push(e: Entry)
      requires Valid() && e.ticket < nextTicket && e.ticket !in drawn && (forall q :: q in entries ==> q.ticket != e.ticket)
      requires |Contents()| < maxGlobal && |OfCamera(Contents(), e.camera)| < maxPerCamera
      modifies `entries, `perCamera
      ensures Valid() && Contents() == old(Contents()) + {e}
    {
      IncrementCounts(perCamera, Contents(), e);
      StillWithin(Contents(), e, maxPerCamera);
      Appended(entries, e);
      perCamera := Incremented(perCamera, e.camera);
      entries := entries + [e];
    }

    /** Moves the last entry into the hole, and counts the camera down. */
    method SwapRemove(index: nat) returns (e: Entry)
      requires Consistent() && index < |entries|
      modifies `entries, `perCamera
      ensures Consistent() && e == old(entries[index]) && |entries| == |old(entries)| - 1
      ensures Contents() == old(Contents()) - {e}
      ensures entries[..index] == old(entries[..index])
    {
      e := entries[index];
      DecrementCounts(perCamera, Contents(), e);
      var last := entries[|entries| - 1];
      entries := entries[index := last][..|entries| - 1];
      perCamera := Decremented(perCamera, e.camera);
      SwappedOut(old(entries), index);
    }

    method Remove(ticket: nat) returns (found: bool)
      requires Valid()
      modifies `entries, `perCamera
      ensures Valid()
      ensures found <==> exists e :: e in old(Contents()) && e.ticket == ticket
      ensures Contents() == set e | e in old(Contents()) && e.ticket != ticket
    {
      var index := 0;
      while index < |entries|
        invariant 0 <= index <= |entries| && entries == old(entries) && perCamera == old(perCamera)
        invariant forall i :: 0 <= i < index ==> entries[i].ticket != ticket
      {
        if entries[index].ticket == ticket {
          var e := SwapRemove(index);
          assert forall q :: q in old(Contents()) && q != e ==> q.ticket != ticket;
          Fewer(old(Contents()), Contents());
          return true;
        }
        index := index + 1;
      }
      found := false;
    }

    /** The sweep: every dead entry goes and no other, in one pass over the shrinking vector. */
    method Sweep(clock: Clock)
      requires Valid()
      modifies `entries, `perCamera
      ensures Valid() && Contents() == Live(old(Contents()), clock.now, clock.cancelled)
    {
      var index := 0;
      while index < |entries|
        invariant 0 <= index <= |entries| && Consistent() && Contents() <= old(Contents())
        invariant forall e :: e in old(Contents()) && e !in Contents() ==> Dead(e, clock.now, clock.cancelled)
        invariant forall i :: 0 <= i < index ==> !Dead(entries[i], clock.now, clock.cancelled)
        decreases |entries| - index
      {
        if Dead(entries[index], clock.now, clock.cancelled) {
          ghost var kept := entries[..index];
          var e := SwapRemove(index);
          assert forall i :: 0 <= i < index ==> entries[i] == kept[i];
        } else {
          index := index + 1;
        }
      }
      Fewer(old(Contents()), Contents());
    }

    /** The scan for the best admissible entry. */
    method Best(clock: Clock) returns (best: Option<nat>)
      requires Consistent() && aging > 0
      ensures best.None? ==> forall e :: e in entries ==> e.ticket !in clock.allowed
      ensures best.Some? ==> best.value < |entries| && IsBest(Contents(), clock, aging, entries[best.value])
    {
      best := None;
      var index := 0;
      while index < |entries|
        invariant 0 <= index <= |entries|
        invariant best.None? ==> forall i :: 0 <= i < index ==> entries[i].ticket !in clock.allowed
        invariant best.Some? ==> best.value < index && entries[best.value].ticket in clock.allowed
        invariant best.Some? ==> forall i :: 0 <= i < index && entries[i].ticket in clock.allowed && i != best.value ==>
          Beats(entries[best.value], entries[i], clock.now, aging)
      {
        if entries[index].ticket in clock.allowed {
          if best.None? || !Beats(entries[best.value], entries[index], clock.now, aging) {
            best := Some(index);
          }
        }
        index := index + 1;
      }
    }

    method PopBestAdmissible(clock: Clock) returns (out: Option<Entry>)
      requires Valid()
      modifies `entries, `perCamera
      ensures Valid() && Pops(old(Contents()), clock, aging, Contents(), out)
    {
      Sweep(clock);
      var best := Best(clock);
      if best.None? {
        return None;
      }
      ghost var live := Contents();
      var e := SwapRemove(best.value);
      Fewer(live, Contents());
      out := Some(e);
    }
  }

  lemma Appended(entries: seq<Entry>, e: Entry)
    requires Unique(entries) && forall q :: q in entries ==> q.ticket != e.ticket
    ensures Unique(entries + [e]) && Elements(entries + [e]) == Elements(entries) + {e}
    ensures forall q :: q in entries + [e] ==> q == e || q in entries
  {}

  lemma StillWithin(queue: set<Entry>, e: Entry, bound: nat)
    requires e !in queue && |OfCamera(queue, e.camera)| < bound && forall c :: |OfCamera(queue, c)| <= bound
    ensures |queue + {e}| == |queue| + 1 && forall c :: |OfCamera(queue + {e}, c)| <= bound
  {
    forall c ensures |OfCamera(queue + {e}, c)| <= bound { CountWith(queue, e, c); }
  }

  lemma SwappedOut(entries: seq<Entry>, index: nat)
    requires Unique(entries) && index < |entries|
    ensures var after := entries[index := entries[|entries| - 1]][..|entries| - 1];
      Unique(after) && Elements(after) == Elements(entries) - {entries[index]} && after[..index] == entries[..index]
  {
    var after := entries[index := entries[|entries| - 1]][..|entries| - 1];
    forall e | e in Elements(entries) - {entries[index]} ensures e in Elements(after) {
      var i :| 0 <= i < |entries| && entries[i] == e;
      assert i == |entries| - 1 ==> after[index] == e;
      assert i < |entries| - 1 ==> after[i] == e;
    }
  }

  /** Fewer entries keep both bounds. */
  lemma Fewer(queue: set<Entry>, after: set<Entry>)
    requires after <= queue
    ensures |after| <= |queue| && forall c :: |OfCamera(after, c)| <= |OfCamera(queue, c)|
  {
    Smaller(after, queue);
    forall c ensures |OfCamera(after, c)| <= |OfCamera(queue, c)| {
      Smaller(OfCamera(after, c), OfCamera(queue, c));
    }
  }
}
