/** The bounded output writer: a byte ceiling and an exact count over any use of a seekable sink. */
module BoundedWriter {
  import opened Texts
  import opened Options

  // ---- The sink -----------------------------------------------------------------------------------------

  datatype Sink = Sink(content: seq<Byte>, cursor: nat)

  function Longer(a: nat, b: nat): nat { if a < b then b else a }

  function Padded(content: seq<Byte>, length: nat): seq<Byte> {
    if |content| >= length then content else content + seq(length - |content|, _ => 0)
  }

  /** Bytes go in at the cursor, over what is there, after zeros if the cursor is past the end. Writing no
      bytes changes nothing. */
  function Put(s: Sink, bytes: seq<Byte>): Sink {
    if bytes == [] then s
    else
      var base := Padded(s.content, s.cursor + |bytes|);
      Sink(base[..s.cursor] + bytes + base[s.cursor + |bytes|..], s.cursor + |bytes|)
  }

  datatype SeekFrom = FromStart(offset: nat) | FromEnd(delta: int) | FromCurrent(delta: int)

  function Target(s: Sink, from: SeekFrom): int {
    match from
    case FromStart(offset) => offset
    case FromEnd(delta) => |s.content| + delta
    case FromCurrent(delta) => s.cursor + delta
  }

  lemma PutLength(s: Sink, bytes: seq<Byte>)
    ensures Put(s, bytes).cursor == s.cursor + |bytes|
    ensures bytes != [] ==> |Put(s, bytes).content| == Longer(|s.content|, s.cursor + |bytes|)
    ensures bytes == [] ==> |Put(s, bytes).content| == |s.content|
  {}

  /** Byte by byte: the new bytes at the cursor, what was there elsewhere, zeros in a gap. */
  lemma PutAt(s: Sink, bytes: seq<Byte>, i: nat)
    requires i < |Put(s, bytes).content|
    ensures Put(s, bytes).content[i] ==
      if s.cursor <= i < s.cursor + |bytes| then bytes[i - s.cursor] else if i < |s.content| then s.content[i] else 0
  {}

  /** Where seeks land: a byte count from the start, from the end of what is there, or from where the cursor is. So a
      seek to the end appends, and a seek back over what was just written rewrites it. */
  lemma SeeksLand(s: Sink, offset: nat, delta: int, bytes: seq<Byte>, again: seq<Byte>)
    requires |again| == |bytes|
    ensures Target(s, FromStart(offset)) == offset
    ensures Put(s.(cursor := Target(s, FromEnd(0))), bytes).content == s.content + bytes
    ensures Target(s, FromEnd(delta)) - |s.content| == Target(s, FromCurrent(delta)) - s.cursor == delta
    ensures
      var back := Target(Put(s, bytes), FromCurrent(-|bytes|));
      back == s.cursor && Put(Put(s, bytes).(cursor := back), again) == Put(s, again)
  {}

  // ---- The writer -----------------------------------------------------------------------------------------

  datatype Violation = Cancelled | Limit

  datatype Writer = Writer(sink: Sink, position: nat, highWater: nat, violation: Option<Violation>)

  const NEW: Writer := Writer(Sink([], 0), 0, 0, None)

  /** `accepts` is how many bytes the sink takes, or nothing if it fails; `fails` is a failing sink seek. */
  datatype Op =
    | Write(buffer: seq<Byte>, cancelled: bool, accepts: Option<nat>)
    | Seek(from: SeekFrom, cancelled: bool, fails: bool)

  predicate Proper(op: Op) {
    op.Write? && op.accepts.Some? ==> op.accepts.value <= |op.buffer|
  }

  function Step(maximum: nat, w: Writer, op: Op): Writer
    requires Proper(op)
  {
    match op
    case Write(buffer, cancelled, accepts) =>
      if cancelled then w.(violation := Some(Cancelled))
      else if w.position + |buffer| > maximum then w.(violation := Some(Limit))
      else if accepts.None? then w
      else
        var position := w.position + accepts.value;
        Writer(Put(w.sink, buffer[..accepts.value]), position, Longer(w.highWater, position), w.violation)
    case Seek(from, cancelled, fails) =>
      var target := Target(w.sink, from);
      if cancelled then w.(violation := Some(Cancelled))
      else if fails || target < 0 then w
      else if target > maximum then w.(sink := w.sink.(cursor := target), violation := Some(Limit))
      else w.(sink := w.sink.(cursor := target), position := target)
  }

  ghost predicate AllProper(ops: seq<Op>) {
    forall i :: 0 <= i < |ops| ==> Proper(ops[i])
  }

  function Front(ops: seq<Op>): seq<Op>
    requires ops != []
  {
    ops[..|ops| - 1]
  }

  ghost function After(maximum: nat, ops: seq<Op>): Writer
    requires AllProper(ops)
  {
    if ops == [] then NEW else Step(maximum, After(maximum, Front(ops)), ops[|ops| - 1])
  }

  /** A write that puts down no byte still raises the high-water mark to its position. The furthest such
      position of a run: */
  ghost function HollowMark(maximum: nat, ops: seq<Op>): nat
    requires AllProper(ops)
  {
    if ops == [] then 0
    else
      var w, op := After(maximum, Front(ops)), ops[|ops| - 1];
      var mark := HollowMark(maximum, Front(ops));
      if op.Write? && !op.cancelled && op.accepts == Some(0) && w.position + |op.buffer| <= maximum
      then Longer(mark, w.position) else mark
  }

  /** A recorded violation never clears. */
  lemma {:induction false} ViolationIsForever(maximum: nat, ops: seq<Op>, k: nat)
    requires AllProper(ops) && k <= |ops| && After(maximum, ops[..k]).violation.Some?
    ensures After(maximum, ops).violation.Some?
  {
    if k < |ops| {
      assert Front(ops)[..k] == ops[..k];
      ViolationIsForever(maximum, Front(ops), k);
    } else {
      assert ops[..k] == ops;
    }
  }

  /** The operation breaks a rule: it finds the job cancelled, or a write would end past the maximum, or a seek that the
      sink carries out lands past it. */
  predicate Breaks(maximum: nat, w: Writer, op: Op) {
    match op
    case Write(buffer, cancelled, _) => cancelled || w.position + |buffer| > maximum
    case Seek(from, cancelled, fails) => cancelled || (!fails && Target(w.sink, from) > maximum)
  }

  lemma StepBreaks(maximum: nat, w: Writer, op: Op)
    requires Proper(op)
    ensures Step(maximum, w, op).violation ==
      if Breaks(maximum, w, op) then Some(if op.cancelled then Cancelled else Limit) else w.violation
  {}

  ghost predicate BrokeAt(maximum: nat, ops: seq<Op>, k: nat)
    requires AllProper(ops) && k < |ops|
  {
    AllProper(ops[..k]) && Breaks(maximum, After(maximum, ops[..k]), ops[k])
  }

  lemma SameBefore(maximum: nat, ops: seq<Op>, k: nat)
    requires AllProper(ops) && k < |ops| - 1
    ensures AllProper(Front(ops)) && (BrokeAt(maximum, Front(ops), k) <==> BrokeAt(maximum, ops, k))
  {
    assert Front(ops)[..k] == ops[..k];
  }

  /** A violation is on record exactly if some operation broke a rule, and it is the one of the last that did. */
  lemma {:induction false} ViolationExactly(maximum: nat, ops: seq<Op>)
    requires AllProper(ops)
    ensures After(maximum, ops).violation.Some? <==> exists k :: 0 <= k < |ops| && BrokeAt(maximum, ops, k)
    ensures ops != [] && BrokeAt(maximum, ops, |ops| - 1) ==>
      After(maximum, ops).violation == Some(if ops[|ops| - 1].cancelled then Cancelled else Limit)
    ensures ops != [] && !BrokeAt(maximum, ops, |ops| - 1) ==>
      After(maximum, ops).violation == After(maximum, Front(ops)).violation
  {
    if ops != [] {
      var front := Front(ops);
      assert ops[..|ops| - 1] == front;
      ViolationExactly(maximum, front);
      StepBreaks(maximum, After(maximum, front), ops[|ops| - 1]);
      forall k | 0 <= k < |front| ensures BrokeAt(maximum, front, k) <==> BrokeAt(maximum, ops, k) {
        SameBefore(maximum, ops, k);
      }
      assert BrokeAt(maximum, ops, |ops| - 1) <==> Breaks(maximum, After(maximum, front), ops[|ops| - 1]);
      if After(maximum, front).violation.Some? {
        var k :| 0 <= k < |front| && BrokeAt(maximum, front, k);
        assert BrokeAt(maximum, ops, k);
      }
    }
  }

  lemma StepTracks(maximum: nat, w: Writer, op: Op, mark: nat)
    requires Proper(op) && w.position == w.sink.cursor && w.position <= maximum
    requires w.highWater == Longer(|w.sink.content|, mark) && w.highWater <= maximum
    requires Step(maximum, w, op).violation.None?
    ensures var after := Step(maximum, w, op);
      var next := if op.Write? && op.accepts == Some(0) then Longer(mark, w.position) else mark;
      && after.position == after.sink.cursor && after.position <= maximum
      && after.highWater == Longer(|after.sink.content|, next) && after.highWater <= maximum
  {
    if op.Write? && op.accepts.Some? {
      PutLength(w.sink, op.buffer[..op.accepts.value]);
    }
  }

  /** In every run without a recorded violation the tracked position is the sink's cursor, the sink never
      exceeds the maximum, and the high-water mark is the sink's length or the furthest hollow write,
      whichever is larger. */
  lemma {:induction false} WriterTracks(maximum: nat, ops: seq<Op>)
    requires AllProper(ops) && After(maximum, ops).violation.None?
    ensures var w := After(maximum, ops);
      && w.position == w.sink.cursor <= maximum && |w.sink.content| <= w.highWater <= maximum
      && w.highWater == Longer(|w.sink.content|, HollowMark(maximum, ops))
  {
    if ops != [] {
      var front := Front(ops);
      var w := After(maximum, front);
      assert w.violation.None?;
      WriterTracks(maximum, front);
      StepTracks(maximum, w, ops[|ops| - 1], HollowMark(maximum, front));
    }
  }

  /** So the byte count is exact if and only if no hollow write lies beyond the end of the sink. */
  lemma CountIsExact(maximum: nat, ops: seq<Op>)
    requires AllProper(ops) && After(maximum, ops).violation.None?
    ensures After(maximum, ops).highWater == |After(maximum, ops).sink.content|
       <==> HollowMark(maximum, ops) <= |After(maximum, ops).sink.content|
  {
    WriterTracks(maximum, ops);
  }

  predicate WritesSomething(op: Op) { op.Write? ==> op.accepts != Some(0) }

  /** Writes that put down at least one byte each, whole or partial, always leave an exact count. */
  lemma {:induction false} NonEmptyWritesCountExactly(maximum: nat, ops: seq<Op>)
    requires AllProper(ops) && After(maximum, ops).violation.None? && forall i :: 0 <= i < |ops| ==> WritesSomething(ops[i])
    ensures HollowMark(maximum, ops) == 0
    ensures After(maximum, ops).highWater == |After(maximum, ops).sink.content|
  {
    if ops != [] {
      assert WritesSomething(ops[|ops| - 1]);
      NonEmptyWritesCountExactly(maximum, Front(ops));
    }
    CountIsExact(maximum, ops);
  }

  /** Seeking past the end and writing nothing there makes the count wrong. */
  lemma HollowWriteMiscounts()
    ensures var ops := [Seek(FromStart(5), false, false), Write([], false, Some(0))];
      AllProper(ops) && After(10, ops).violation.None? && After(10, ops).highWater == 5 && After(10, ops).sink.content == []
  {
    var seek, write := Seek(FromStart(5), false, false), Write([], false, Some(0));
    var ops := [seek, write];
    assert Front(ops) == [seek] && Front([seek]) == [];
    assert AllProper([seek]);
    assert After(10, [seek]) == Writer(Sink([], 5), 5, 0, None);
  }

  // ---- The stateful form ------------------------------------------------------------------------------------

  datatype Encoded = Ok(bytes: nat) | Failed(why: Failure)

  datatype Failure =
    | ResourceLimit | BadArgs | CaptureCancelled | Unsupported | EncodingFailed | FlushFailed

  /** What is checked before the writer is built. Whether the frame is well formed and the encoding exists for
      its pixel format are taken as answers. */
  datatype Request = Request(frameValid: bool, maximum: nat, quality: nat, cancelled: bool, supported: bool)

  /** The first check that fails, in order. */
  function Refused(q: Request): Option<Failure> {
    if !q.frameValid then Some(Unsupported)
    else if q.maximum == 0 then Some(ResourceLimit)
    else if !(1 <= q.quality <= 100) then Some(BadArgs)
    else if q.cancelled then Some(CaptureCancelled)
    else if !q.supported then Some(Unsupported)
    else None
  }

  /** Each check, told apart. */
  lemma RefusedExactly(q: Request)
    ensures Refused(q) == None <==> q.frameValid && q.maximum > 0 && 1 <= q.quality <= 100 && !q.cancelled && q.supported
    ensures Refused(q) == Some(ResourceLimit) <==> q.frameValid && q.maximum == 0
    ensures Refused(q) == Some(BadArgs) <==> q.frameValid && q.maximum > 0 && (q.quality == 0 || q.quality > 100)
    ensures Refused(q) == Some(CaptureCancelled) <==> q.frameValid && q.maximum > 0 && 1 <= q.quality <= 100 && q.cancelled
  {}

  class Bounded {
    var sink: Sink
    var position: nat
    var highWater: nat
    var violation: Option<Violation>
    const maximum: nat

    function Contents(): Writer
      reads this
    {
      Writer(sink, position, highWater, violation)
    }

    constructor (maximum: nat)
      ensures Contents() == NEW && this.maximum == maximum
    {
      this.maximum := maximum;
      sink, position, highWater, violation := Sink([], 0), 0, 0, None;
    }

    method WriteBytes(buffer: seq<Byte>, cancelled: bool, accepts: Option<nat>) returns (r: Option<nat>)
      requires Proper(Write(buffer, cancelled, accepts))
      modifies this
      ensures Contents() == Step(maximum, old(Contents()), Write(buffer, cancelled, accepts))
      ensures r.Some? <==> !cancelled && old(position) + |buffer| <= maximum && accepts.Some?
      ensures r.Some? ==> r == accepts && position == old(position) + r.value
    {
      if cancelled {
        violation := Some(Cancelled);
        return None;
      }
      if position + |buffer| > maximum {
        violation := Some(Limit);
        return None;
      }
      if accepts.None? {
        return None;
      }
      sink := Put(sink, buffer[..accepts.value]);
      position := position + accepts.value;
      highWater := Longer(highWater, position);
      r := accepts;
    }

    method SeekTo(from: SeekFrom, cancelled: bool, fails: bool) returns (r: Option<nat>)
      modifies this
      ensures Contents() == Step(maximum, old(Contents()), Seek(from, cancelled, fails))
      ensures r.Some? ==> r.value == position == sink.cursor <= maximum
    {
      if cancelled {
        violation := Some(Cancelled);
        return None;
      }
      var target := Target(sink, from);
      if fails || target < 0 {
        return None;
      }
      sink := sink.(cursor := target);
      if target > maximum {
        violation := Some(Limit);
        return None;
      }
      position := target;
      r := Some(target);
    }
  }

  /** Encoding, for an encoder that performs any writes and seeks whatever and may go on after an error. It
      returns Ok only with a sink within the maximum, and with its exact length unless a hollow write lies
      beyond the end. A refused request leaves the sink alone. */
  method EncodeTo(q: Request, ops: seq<Op>, cancelled: bool, encoded: bool, flushed: bool) returns (r: Encoded, sink: Sink)
    requires AllProper(ops)
    ensures Refused(q).Some? ==> r == Failed(Refused(q).value) && sink == NEW.sink
    ensures Refused(q).None? ==> sink == After(q.maximum, ops).sink
    ensures r.Ok? <==> Refused(q).None? && After(q.maximum, ops).violation.None? && !cancelled && encoded && flushed
    ensures r.Ok? ==> |sink.content| <= r.bytes <= q.maximum
    ensures r.Ok? ==> (r.bytes == |sink.content| <==> HollowMark(q.maximum, ops) <= |sink.content|)
    ensures Refused(q).None? && r.Failed? ==>
      (r.why == match After(q.maximum, ops).violation
                case Some(Limit) => ResourceLimit
                case Some(Cancelled) => CaptureCancelled
                case None => if cancelled then CaptureCancelled else if !encoded then EncodingFailed else FlushFailed)
    ensures (exists k :: 0 <= k <= |ops| && After(q.maximum, ops[..k]).violation.Some?) ==> r.Failed?
  {
    if !q.frameValid {
      return Failed(Unsupported), NEW.sink;
    }
    if q.maximum == 0 {
      return Failed(ResourceLimit), NEW.sink;
    }
    if q.quality < 1 || q.quality > 100 {
      return Failed(BadArgs), NEW.sink;
    }
    if q.cancelled {
      return Failed(CaptureCancelled), NEW.sink;
    }
    if !q.supported {
      return Failed(Unsupported), NEW.sink;
    }
    r, sink := Drive(q.maximum, ops, cancelled, encoded, flushed);
  }

  method Drive(maximum: nat, ops: seq<Op>, cancelled: bool, encoded: bool, flushed: bool) returns (r: Encoded, sink: Sink)
    requires AllProper(ops)
    ensures sink == After(maximum, ops).sink
    ensures r.Ok? <==> After(maximum, ops).violation.None? && !cancelled && encoded && flushed
    ensures r.Ok? ==> |sink.content| <= r.bytes <= maximum
    ensures r.Ok? ==> (r.bytes == |sink.content| <==> HollowMark(maximum, ops) <= |sink.content|)
    ensures r.Failed? ==>
      (r.why == match After(maximum, ops).violation
                case Some(Limit) => ResourceLimit
                case Some(Cancelled) => CaptureCancelled
                case None => if cancelled then CaptureCancelled else if !encoded then EncodingFailed else FlushFailed)
    ensures (exists k :: 0 <= k <= |ops| && After(maximum, ops[..k]).violation.Some?) ==> r.Failed?
  {
    var writer := new Bounded(maximum);
    var index := 0;
    while index < |ops|
      invariant 0 <= index <= |ops| && writer.maximum == maximum
      invariant writer.Contents() == After(maximum, ops[..index])
    {
      assert Front(ops[..index + 1]) == ops[..index] && Proper(ops[index]);
      match ops[index] {
        case Write(buffer, stop, accepts) => var _ := writer.WriteBytes(buffer, stop, accepts);
        case Seek(from, stop, fails) => var _ := writer.SeekTo(from, stop, fails);
      }
      index := index + 1;
    }
    assert ops[..|ops|] == ops;
    sink := writer.sink;
    if writer.violation.Some? {
      return Failed(if writer.violation.value == Limit then ResourceLimit else CaptureCancelled), sink;
    }
    forall k | 0 <= k <= |ops| ensures After(maximum, ops[..k]).violation.None? {
      if After(maximum, ops[..k]).violation.Some? { ViolationIsForever(maximum, ops, k); }
    }
    if cancelled {
      return Failed(CaptureCancelled), sink;
    }
    if !encoded {
      return Failed(EncodingFailed), sink;
    }
    if !flushed {
      return Failed(FlushFailed), sink;
    }
    WriterTracks(maximum, ops);
    r := Ok(writer.highWater);
  }
}
