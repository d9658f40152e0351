/** One camera's control lanes: a coalescing safety stop ahead of a bounded FIFO. */
module ControlLanes {
  import opened Texts
  import opened Options

  datatype Stop = Stop(pan: bool, tilt: bool, zoom: bool, deadline: int)

  function Merge(a: Stop, b: Stop): Stop {
    Stop(a.pan || b.pan, a.tilt || b.tilt, a.zoom || b.zoom, if b.deadline < a.deadline then b.deadline else a.deadline)
  }

  predicate AnyAxis(s: Stop) { s.pan || s.tilt || s.zoom }

  datatype Work = SafetyStop(stop: Stop) | Ordinary(item: Text)

  datatype Push = Pushed | BadArgs | QueueFull

  datatype State = State(safety: Option<Stop>, ordinary: seq<Text>)

  const EMPTY: State := State(None, [])

  class Lanes {
    var safety: Option<Stop>
    var ordinary: seq<Text>
    const capacity: nat

    function Contents(): State
      reads this
    {
      State(safety, ordinary)
    }

    predicate Valid()
      reads this
    {
      1 <= capacity <= 1024 && |ordinary| <= capacity && (safety.Some? ==> AnyAxis(safety.value))
    }

    constructor (capacity: nat)
      requires 1 <= capacity <= 1024
      ensures Valid() && this.capacity == capacity && Contents() == EMPTY
    {
      this.capacity := capacity;
      safety, ordinary := None, [];
    }

    static method New(capacity: nat) returns (r: Option<Lanes>)
      ensures r.Some? <==> 1 <= capacity <= 1024
      ensures r.Some? ==> fresh(r.value) && r.value.Valid() && r.value.capacity == capacity && r.value.Contents() == EMPTY
    {
      if capacity < 1 || capacity > 1024 {
        return None;
      }
      var lanes := new Lanes(capacity);
      r := Some(lanes);
    }

    method TryPushOrdinary(item: Text) returns (r: Push)
      requires Valid()
      modifies `ordinary
      ensures Valid()
      ensures Contents() == After(capacity, old(Contents()), PushOrdinary(item)).state
      ensures r == QueueFull <==> |old(ordinary)| == capacity
      ensures r == After(capacity, old(Contents()), PushOrdinary(item)).push
    {
      if |ordinary| >= capacity {
        return QueueFull;
      }
      ordinary := ordinary + [item];
      r := Pushed;
    }

    /** Never refused for lack of room, and never touches the ordinary lane. */
    method PushSafetyStop(stop: Stop) returns (r: Push)
      requires Valid()
      modifies `safety
      ensures Valid()
      ensures Contents() == After(capacity, old(Contents()), PushStop(stop)).state
      ensures r == Pushed <==> AnyAxis(stop)
      ensures r == After(capacity, old(Contents()), PushStop(stop)).push
    {
      if !stop.pan && !stop.tilt && !stop.zoom {
        return BadArgs;
      }
      safety := Some(if safety.Some? then Merge(safety.value, stop) else stop);
      r := Pushed;
    }

    method PopNext() returns (work: Option<Work>)
      requires Valid()
      modifies `safety, `ordinary
      ensures Valid()
      ensures Contents() == After(capacity, old(Contents()), Pop).state
      ensures work == After(capacity, old(Contents()), Pop).work
    {
      if safety.Some? {
        work := Some(SafetyStop(safety.value));
        safety := None;
      } else if ordinary != [] {
        work := Some(Ordinary(ordinary[0]));
        ordinary := ordinary[1..];
      } else {
        work := None;
      }
    }
  }

  // ---- Runs ---------------------------------------------------------------------------------------------

  datatype Event = PushStop(stop: Stop) | PushOrdinary(item: Text) | Pop

  datatype Result = Result(state: State, push: Push, work: Option<Work>)

  function After(capacity: nat, s: State, e: Event): Result {
    match e
    case PushStop(stop) =>
      if !AnyAxis(stop) then Result(s, BadArgs, None)
      else Result(s.(safety := Some(if s.safety.Some? then Merge(s.safety.value, stop) else stop)), Pushed, None)
    case PushOrdinary(item) =>
      if |s.ordinary| >= capacity then Result(s, QueueFull, None)
      else Result(s.(ordinary := s.ordinary + [item]), Pushed, None)
    case Pop =>
      if s.safety.Some? then Result(s.(safety := None), Pushed, Some(SafetyStop(s.safety.value)))
      else if s.ordinary != [] then Result(s.(ordinary := s.ordinary[1..]), Pushed, Some(Ordinary(s.ordinary[0])))
      else Result(s, Pushed, None)
  }

  function Front(events: seq<Event>): seq<Event>
    requires events != []
  {
    events[..|events| - 1]
  }

  function Reached(capacity: nat, events: seq<Event>): State {
    if events == [] then EMPTY else After(capacity, Reached(capacity, Front(events)), events[|events| - 1]).state
  }

  /** What the last event of a run did. */
  function Last(capacity: nat, events: seq<Event>): Result
    requires events != []
  {
    After(capacity, Reached(capacity, Front(events)), events[|events| - 1])
  }

  /** The stops accepted since a stop was last handed out. */
  function Waiting(capacity: nat, events: seq<Event>): seq<Stop> {
    if events == [] then []
    else
      var before, event, r := Waiting(capacity, Front(events)), events[|events| - 1], Last(capacity, events);
      if event.PushStop? && r.push == Pushed then before + [event.stop]
      else if r.work.Some? && r.work.value.SafetyStop? then []
      else before
  }

  /** The ordinary items accepted, and those handed out, in order. */
  function Taken(capacity: nat, events: seq<Event>): seq<Text> {
    if events == [] then []
    else
      var event, r := events[|events| - 1], Last(capacity, events);
      Taken(capacity, Front(events)) + if event.PushOrdinary? && r.push == Pushed then [event.item] else []
  }

  function Handed(capacity: nat, events: seq<Event>): seq<Text> {
    if events == [] then []
    else
      var r := Last(capacity, events);
      Handed(capacity, Front(events)) + if r.work.Some? && r.work.value.Ordinary? then [r.work.value.item] else []
  }

  /** `s` is the axis-wise union and the tightest deadline of `stops`. */
  ghost predicate IsUnion(s: Stop, stops: seq<Stop>) {
    && (s.pan <==> exists i :: 0 <= i < |stops| && stops[i].pan)
    && (s.tilt <==> exists i :: 0 <= i < |stops| && stops[i].tilt)
    && (s.zoom <==> exists i :: 0 <= i < |stops| && stops[i].zoom)
    && (forall i :: 0 <= i < |stops| ==> s.deadline <= stops[i].deadline)
    && (exists i :: 0 <= i < |stops| && stops[i].deadline == s.deadline)
  }

  ghost predicate Holds(safety: Option<Stop>, stops: seq<Stop>) {
    if safety.None? then stops == [] else IsUnion(safety.value, stops)
  }

  lemma UnionGrows(safety: Option<Stop>, stops: seq<Stop>, stop: Stop)
    requires Holds(safety, stops)
    ensures Holds(Some(if safety.Some? then Merge(safety.value, stop) else stop), stops + [stop])
  {
    var more := stops + [stop];
    assert more[|stops|] == stop && forall i :: 0 <= i < |stops| ==> more[i] == stops[i];
  }

  lemma {:induction false} LaneHolds(capacity: nat, events: seq<Event>)
    ensures Holds(Reached(capacity, events).safety, Waiting(capacity, events))
  {
    if events != [] {
      var front, event := Front(events), events[|events| - 1];
      LaneHolds(capacity, front);
      if event.PushStop? {
        UnionGrows(Reached(capacity, front).safety, Waiting(capacity, front), event.stop);
      }
    }
  }

  /** Every pop of every run: with a stop waiting, whatever the ordinary lane holds, it hands out one stop,
      the axis-wise union with the tightest deadline of all stops accepted since the last one handed out.
      Without, it hands out no stop. */
  lemma StopsAreNeverLost(capacity: nat, events: seq<Event>)
    requires events != [] && events[|events| - 1] == Pop
    ensures var waiting := Waiting(capacity, Front(events)); var work := Last(capacity, events).work;
      && (waiting != [] <==> work.Some? && work.value.SafetyStop?)
      && (waiting != [] ==> IsUnion(work.value.stop, waiting))
      && (waiting == [] ==> (work.None? <==> Reached(capacity, Front(events)).ordinary == []))
  {
    LaneHolds(capacity, Front(events));
  }

  /** Ordinary work stays first-in first-out and within capacity, regardless of stops: what was handed out,
      followed by what is queued, is what was accepted. */
  lemma {:induction false} OrdinaryIsFifo(capacity: nat, events: seq<Event>)
    ensures Handed(capacity, events) + Reached(capacity, events).ordinary == Taken(capacity, events)
    ensures |Reached(capacity, events).ordinary| <= capacity
  {
    if events != [] {
      var front, event := Front(events), events[|events| - 1];
      OrdinaryIsFifo(capacity, front);
      var queued, handed := Reached(capacity, front).ordinary, Handed(capacity, front);
      if event.PushOrdinary? && |queued| < capacity {
        Regrouped(handed, queued, [event.item]);
      } else if event.Pop? && Last(capacity, events).work.Some? && Last(capacity, events).work.value.Ordinary? {
        Regrouped(handed, [queued[0]], queued[1..]);
        assert [queued[0]] + queued[1..] == queued;
      } else {
        assert handed + [] == handed && Taken(capacity, front) + [] == Taken(capacity, front);
      }
    }
  }

  lemma Regrouped(a: seq<Text>, b: seq<Text>, c: seq<Text>)
    ensures (a + b) + c == a + (b + c)
    ensures a + [] == a
  {}

  /** A pop with no stop waiting hands out the oldest accepted item that has not been handed out, and comes back
      empty-handed only if there is none. A push is refused exactly when as many are waiting as fit. */
  lemma NothingIsHeldBack(capacity: nat, events: seq<Event>)
    requires events != []
    ensures
      var front, event, r := Front(events), events[|events| - 1], Last(capacity, events);
      var taken, handed := Taken(capacity, front), Handed(capacity, front);
      && |handed| <= |taken|
      && (event == Pop && Waiting(capacity, front) == [] ==>
            r.work == if |handed| == |taken| then None else Some(Ordinary(taken[|handed|])))
      && (event.PushOrdinary? ==> r.push == if |taken| - |handed| == capacity then QueueFull else Pushed)
      && (event.PushStop? ==> r.push == if event.stop.pan || event.stop.tilt || event.stop.zoom then Pushed else BadArgs)
  {
    OrdinaryIsFifo(capacity, Front(events));
    LaneHolds(capacity, Front(events));
  }
}
