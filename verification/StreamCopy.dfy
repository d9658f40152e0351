/** Copying a frame through the bounded writer, chunk by chunk, with the retry loop of `write_all`: an interrupted
    write is tried again, and a cancelled writer reports every write as interrupted. */
module StreamCopy {
  import opened Texts
  import opened Options
  import opened BoundedWriter

  /** What the sink answers when it is asked. */
  datatype Answer = Took(count: nat) | Interrupted | Broken

  /** One turn of a loop: what the token says, and what the sink would answer. */
  datatype Turn = Turn(cancelled: bool, answer: Answer)

  datatype Ending = Copied | Stopped | WroteNothing | TooLarge | SinkFailed

  /** `Checking` is between chunks, where the token is looked at; `Writing` is inside `write_all`, with `rest` of the
      chunk to go. */
  datatype Copy =
    | Checking(writer: Writer, later: seq<seq<Byte>>)
    | Writing(writer: Writer, rest: seq<Byte>, later: seq<seq<Byte>>)
    | Ended(writer: Writer, how: Ending)

  function WriteTurn(maximum: nat, w: Writer, rest: seq<Byte>, later: seq<seq<Byte>>, turn: Turn): Copy {
    if rest == [] then Checking(w, later)
    else if turn.cancelled then Writing(Step(maximum, w, Write(rest, true, None)), rest, later)
    else if w.position + |rest| > maximum then Ended(Step(maximum, w, Write(rest, false, None)), TooLarge)
    else
      match turn.answer
      case Interrupted => Writing(Step(maximum, w, Write(rest, false, None)), rest, later)
      case Broken => Ended(Step(maximum, w, Write(rest, false, None)), SinkFailed)
      case Took(count) =>
        var taken := if count > |rest| then |rest| else count;
        var after := Step(maximum, w, Write(rest, false, Some(taken)));
        if taken == 0 then Ended(after, WroteNothing) else Writing(after, rest[taken..], later)
  }

  function CopyTurn(maximum: nat, c: Copy, turn: Turn): Copy {
    match c
    case Checking(w, later) =>
      if later == [] then Ended(w, Copied)
      else if turn.cancelled then Ended(w, Stopped)
      else Writing(w, later[0], later[1..])
    case Writing(w, rest, later) => WriteTurn(maximum, w, rest, later, turn)
    case Ended(_, _) => c
  }

  type Turns = nat -> Turn

  function After(maximum: nat, chunks: seq<seq<Byte>>, turns: Turns, n: nat): Copy {
    if n == 0 then Checking(NEW, chunks) else CopyTurn(maximum, After(maximum, chunks, turns, n - 1), turns(n - 1))
  }

  /** A cancelled token stays cancelled. */
  ghost predicate Monotone(turns: Turns) {
    forall m, n :: m <= n && turns(m).cancelled ==> turns(n).cancelled
  }

  /** The sink does not answer "interrupted" for ever. */
  ghost predicate Answers(turns: Turns) {
    forall n :: AnsweredFrom(turns, n)
  }

  ghost predicate AnsweredFrom(turns: Turns, n: nat) {
    exists m :: n <= m && turns(m).answer != Interrupted
  }

  /** The token is cancelled while part of a chunk is still to be written. */
  ghost predicate CaughtAt(maximum: nat, chunks: seq<seq<Byte>>, turns: Turns, k: nat) {
    var c := After(maximum, chunks, turns, k);
    c.Writing? && c.rest != [] && turns(k).cancelled
  }

  // ---- Caught in a chunk, it spins ------------------------------------------------------------------------

  /** From then on it writes nothing, moves nowhere and does not end, however long it runs. */
  lemma {:induction false} CaughtSpins(maximum: nat, chunks: seq<seq<Byte>>, turns: Turns, k: nat, n: nat)
    requires Monotone(turns) && CaughtAt(maximum, chunks, turns, k) && k < n
    ensures var c, d := After(maximum, chunks, turns, k), After(maximum, chunks, turns, n);
      d == Writing(c.writer.(violation := Some(Cancelled)), c.rest, c.later)
  {
    if n > k + 1 {
      CaughtSpins(maximum, chunks, turns, k, n - 1);
      assert turns(n - 1).cancelled;
    }
  }

  lemma {:induction false} EndedStays(maximum: nat, chunks: seq<seq<Byte>>, turns: Turns, m: nat, n: nat)
    requires m <= n && After(maximum, chunks, turns, m).Ended?
    ensures After(maximum, chunks, turns, n) == After(maximum, chunks, turns, m)
  {
    if m < n { EndedStays(maximum, chunks, turns, m, n - 1); }
  }

  // ---- Otherwise it ends ------------------------------------------------------------------------------------

  function Size(chunks: seq<seq<Byte>>): nat {
    if chunks == [] then 1 else |chunks[0]| + 3 + Size(chunks[1..])
  }

  /** What is left to do. */
  function Left(c: Copy): nat {
    match c
    case Checking(_, later) => Size(later)
    case Writing(_, rest, later) => |rest| + 1 + Size(later)
    case Ended(_, _) => 0
  }

  lemma TurnProgresses(maximum: nat, c: Copy, turn: Turn)
    requires !(c.Writing? && c.rest != [] && turn.cancelled)
    ensures Left(CopyTurn(maximum, c, turn)) <= Left(c)
    ensures turn.answer != Interrupted && !c.Ended? ==> Left(CopyTurn(maximum, c, turn)) < Left(c)
  {}

  ghost predicate NeverCaught(maximum: nat, chunks: seq<seq<Byte>>, turns: Turns) {
    forall k :: !CaughtAt(maximum, chunks, turns, k)
  }

  lemma {:induction false} LeftShrinks(maximum: nat, chunks: seq<seq<Byte>>, turns: Turns, m: nat, n: nat)
    requires NeverCaught(maximum, chunks, turns) && m <= n
    ensures Left(After(maximum, chunks, turns, n)) <= Left(After(maximum, chunks, turns, m))
  {
    if m < n {
      LeftShrinks(maximum, chunks, turns, m, n - 1);
      assert !CaughtAt(maximum, chunks, turns, n - 1);
      TurnProgresses(maximum, After(maximum, chunks, turns, n - 1), turns(n - 1));
    }
  }

  lemma {:induction false} UncaughtEnds(maximum: nat, chunks: seq<seq<Byte>>, turns: Turns, n: nat) returns (end: nat)
    requires Answers(turns) && NeverCaught(maximum, chunks, turns)
    ensures After(maximum, chunks, turns, end).Ended?
    decreases Left(After(maximum, chunks, turns, n))
  {
    if After(maximum, chunks, turns, n).Ended? {
      end := n;
    } else {
      assert AnsweredFrom(turns, n);
      var m :| n <= m && turns(m).answer != Interrupted;
      LeftShrinks(maximum, chunks, turns, n, m);
      assert !CaughtAt(maximum, chunks, turns, m);
      TurnProgresses(maximum, After(maximum, chunks, turns, m), turns(m));
      if After(maximum, chunks, turns, m).Ended? {
        end := m;
      } else {
        end := UncaughtEnds(maximum, chunks, turns, m + 1);
      }
    }
  }

  /** For every frame, limit, token and sink that answers: the copy ends if and only if the token is never found
      cancelled while part of a chunk is still to be written. */
  lemma CopyEndsExactly(maximum: nat, chunks: seq<seq<Byte>>, turns: Turns)
    requires Monotone(turns) && Answers(turns)
    ensures (exists n :: After(maximum, chunks, turns, n).Ended?) <==> NeverCaught(maximum, chunks, turns)
  {
    if NeverCaught(maximum, chunks, turns) {
      var n := UncaughtEnds(maximum, chunks, turns, 0);
    }
    if n :| After(maximum, chunks, turns, n).Ended? {
      forall k ensures !CaughtAt(maximum, chunks, turns, k) {
        if CaughtAt(maximum, chunks, turns, k) {
          if k < n { CaughtSpins(maximum, chunks, turns, k, n); } else { EndedStays(maximum, chunks, turns, n, k); }
        }
      }
    }
  }

  // ---- What it has copied -----------------------------------------------------------------------------------

  function Joined(chunks: seq<seq<Byte>>): seq<Byte> {
    if chunks == [] then [] else chunks[0] + Joined(chunks[1..])
  }

  /** The part of the frame that is not in the sink yet. */
  function Remaining(c: Copy): seq<Byte>
    requires !c.Ended?
  {
    if c.Checking? then Joined(c.later) else c.rest + Joined(c.later)
  }

  /** The sink holds the frame up to where the copy is, and the writer has counted just that. */
  predicate Exact(w: Writer, done: seq<Byte>) {
    w.sink == Sink(done, |done|) && w.position == |done| == w.highWater
  }

  lemma AppendExact(maximum: nat, w: Writer, done: seq<Byte>, rest: seq<Byte>, taken: nat)
    requires Exact(w, done) && 0 < taken <= |rest| && w.position + |rest| <= maximum
    ensures Exact(Step(maximum, w, Write(rest, false, Some(taken))), done + rest[..taken])
  {
    var bytes := rest[..taken];
    assert Padded(done, |done| + taken)[..|done|] == done;
    assert Padded(done, |done| + taken)[|done| + taken..] == [];
    assert done + bytes + [] == done + bytes;
  }

  ghost predicate OnTrack(c: Copy, frame: seq<Byte>) {
    !c.Ended? ==> exists done :: Exact(c.writer, done) && done + Remaining(c) == frame
  }

  lemma WriteOnTrack(maximum: nat, c: Copy, turn: Turn, frame: seq<Byte>)
    requires c.Writing? && OnTrack(c, frame)
    ensures OnTrack(CopyTurn(maximum, c, turn), frame)
  {
    var done :| Exact(c.writer, done) && done + Remaining(c) == frame;
    var next := CopyTurn(maximum, c, turn);
    if c.rest != [] { WriteShape(maximum, c, turn); }
    if c.rest == [] {
      assert [] + Joined(c.later) == Joined(c.later);
      assert Exact(next.writer, done) && done + Remaining(next) == frame;
    } else if next.Writing? && next.rest == c.rest {
      assert Exact(next.writer, done) && done + Remaining(next) == frame;
    } else if next.Writing? {
      TakenOnTrack(maximum, c, next, done, |c.rest| - |next.rest|);
    }
  }

  /** A turn of `write_all` starts over, ends, or takes a few bytes off the front. */
  lemma WriteShape(maximum: nat, c: Copy, turn: Turn)
    requires c.Writing? && c.rest != []
    ensures var next := CopyTurn(maximum, c, turn);
      || next.Ended?
      || (next.Writing? && next.rest == c.rest && next.later == c.later && next.writer == c.writer.(violation := next.writer.violation))
      || (next.Writing? && c.writer.position + |c.rest| <= maximum && TakesOff(maximum, c, next, |c.rest| - |next.rest|))
  {}

  predicate TakesOff(maximum: nat, c: Copy, next: Copy, taken: int)
    requires c.Writing? && next.Writing?
  {
    && 0 < taken <= |c.rest| && next.rest == c.rest[taken..] && next.later == c.later
    && next.writer == Step(maximum, c.writer, Write(c.rest, false, Some(taken)))
  }

  lemma TakenOnTrack(maximum: nat, c: Copy, next: Copy, done: seq<Byte>, taken: nat)
    requires c.Writing? && next.Writing? && c.writer.position + |c.rest| <= maximum && TakesOff(maximum, c, next, taken)
    requires Exact(c.writer, done)
    ensures OnTrack(next, done + Remaining(c))
  {
    AppendExact(maximum, c.writer, done, c.rest, taken);
    Regrouped(done, c.rest, taken, Joined(c.later));
    assert Exact(next.writer, done + c.rest[..taken]) && (done + c.rest[..taken]) + Remaining(next) == done + Remaining(c);
  }

  lemma Regrouped(done: seq<Byte>, rest: seq<Byte>, taken: nat, later: seq<Byte>)
    requires taken <= |rest|
    ensures (done + rest[..taken]) + (rest[taken..] + later) == done + (rest + later)
  {
    assert rest == rest[..taken] + rest[taken..];
  }

  lemma {:induction false} StaysOnTrack(maximum: nat, chunks: seq<seq<Byte>>, turns: Turns, n: nat)
    ensures OnTrack(After(maximum, chunks, turns, n), Joined(chunks))
  {
    if n == 0 {
      assert Exact(NEW, []) && [] + Joined(chunks) == Joined(chunks);
    } else {
      StaysOnTrack(maximum, chunks, turns, n - 1);
      var c := After(maximum, chunks, turns, n - 1);
      if c.Writing? {
        WriteOnTrack(maximum, c, turns(n - 1), Joined(chunks));
      } else if c.Checking? && !CopyTurn(maximum, c, turns(n - 1)).Ended? {
        var done :| Exact(c.writer, done) && done + Remaining(c) == Joined(chunks);
        var next := CopyTurn(maximum, c, turns(n - 1));
        assert Exact(next.writer, done) && done + Remaining(next) == Joined(chunks);
      }
    }
  }

  /** A copy that ends well has put exactly the frame into the sink and counted exactly its bytes, without a
      violation, whatever partial and interrupted writes it took. */
  lemma CopiedIsWhole(maximum: nat, chunks: seq<seq<Byte>>, turns: Turns, n: nat)
    requires Monotone(turns) && After(maximum, chunks, turns, n) == Ended(After(maximum, chunks, turns, n).writer, Copied)
    ensures var w := After(maximum, chunks, turns, n).writer;
      w.sink.content == Joined(chunks) && w.highWater == |Joined(chunks)| && w.violation.None?
  {
    var m := FirstEnd(maximum, chunks, turns, n);
    EndedStays(maximum, chunks, turns, m + 1, n);
    var c := After(maximum, chunks, turns, m);
    StaysOnTrack(maximum, chunks, turns, m);
    assert c.Checking? && c.later == [];
    var done :| Exact(c.writer, done) && done + Remaining(c) == Joined(chunks);
    assert done + [] == done;
    NoViolation(maximum, chunks, turns, m);
  }

  lemma {:induction false} FirstEnd(maximum: nat, chunks: seq<seq<Byte>>, turns: Turns, n: nat) returns (m: nat)
    requires After(maximum, chunks, turns, n).Ended?
    ensures m < n && !After(maximum, chunks, turns, m).Ended? && After(maximum, chunks, turns, m + 1).Ended?
  {
    if After(maximum, chunks, turns, n - 1).Ended? {
      m := FirstEnd(maximum, chunks, turns, n - 1);
    } else {
      m := n - 1;
    }
  }

  /** Between chunks no violation has been recorded: a cancelled write never gets that far. */
  lemma {:induction false} NoViolation(maximum: nat, chunks: seq<seq<Byte>>, turns: Turns, n: nat)
    requires Monotone(turns) && After(maximum, chunks, turns, n).Checking?
    ensures After(maximum, chunks, turns, n).writer.violation.None?
  {
    if violated :| 0 <= violated <= n && Violated(After(maximum, chunks, turns, violated)) {
      var k := FirstViolation(maximum, chunks, turns, violated);
      CaughtSpins(maximum, chunks, turns, k, n);
    }
    assert !Violated(After(maximum, chunks, turns, n));
  }

  ghost predicate Violated(c: Copy) { !c.Ended? && c.writer.violation.Some? }

  lemma {:induction false} FirstViolation(maximum: nat, chunks: seq<seq<Byte>>, turns: Turns, n: nat) returns (k: nat)
    requires Violated(After(maximum, chunks, turns, n))
    ensures k < n && CaughtAt(maximum, chunks, turns, k)
  {
    if n > 0 && Violated(After(maximum, chunks, turns, n - 1)) {
      k := FirstViolation(maximum, chunks, turns, n - 1);
    } else {
      k := n - 1;
    }
  }

  // ---- How it ends --------------------------------------------------------------------------------------------

  /** Why a copy ends the way it does: between chunks with nothing left, or on a cancelled token; inside one because the
      rest does not fit, or the sink fails or takes nothing. */
  predicate Because(maximum: nat, c: Copy, turn: Turn, how: Ending) {
    if how == Copied then c.Checking? && c.later == []
    else if how == Stopped then c.Checking? && c.later != [] && turn.cancelled
    else
      && c.Writing? && c.rest != [] && !turn.cancelled
      && (how == TooLarge <==> c.writer.position + |c.rest| > maximum)
      && (how == SinkFailed ==> turn.answer == Broken) && (how == WroteNothing ==> turn.answer == Took(0))
  }

  lemma TurnEndsExactly(maximum: nat, c: Copy, turn: Turn, how: Ending)
    requires !c.Ended?
    ensures CopyTurn(maximum, c, turn).Ended? && CopyTurn(maximum, c, turn).how == how <==> Because(maximum, c, turn, how)
  {}

  lemma EndsBecause(maximum: nat, chunks: seq<seq<Byte>>, turns: Turns, n: nat) returns (m: nat)
    requires After(maximum, chunks, turns, n).Ended?
    ensures m < n && Because(maximum, After(maximum, chunks, turns, m), turns(m), After(maximum, chunks, turns, n).how)
    ensures !After(maximum, chunks, turns, m).Ended?
  {
    m := FirstEnd(maximum, chunks, turns, n);
    EndedStays(maximum, chunks, turns, m + 1, n);
    TurnEndsExactly(maximum, After(maximum, chunks, turns, m), turns(m), After(maximum, chunks, turns, n).how);
  }

  /** The sink takes something whenever it takes anything, and nobody cancels. */
  ghost predicate Willing(turns: Turns) {
    forall n {:trigger turns(n)} :: !turns(n).cancelled && turns(n).answer != Broken && turns(n).answer != Took(0)
  }

  /** A frame that fits is copied whole by any sink that goes on taking bytes. */
  lemma FairCopySucceeds(maximum: nat, chunks: seq<seq<Byte>>, turns: Turns) returns (n: nat)
    requires Answers(turns) && Willing(turns) && |Joined(chunks)| <= maximum
    ensures After(maximum, chunks, turns, n).Ended? && After(maximum, chunks, turns, n).how == Copied
    ensures After(maximum, chunks, turns, n).writer.sink.content == Joined(chunks)
  {
    n := UncaughtEnds(maximum, chunks, turns, 0);
    var m := EndsBecause(maximum, chunks, turns, n);
    FitsSoFar(maximum, chunks, turns, m);
    CopiedIsWhole(maximum, chunks, turns, n);
  }

  lemma FitsSoFar(maximum: nat, chunks: seq<seq<Byte>>, turns: Turns, n: nat)
    requires |Joined(chunks)| <= maximum
    ensures var c := After(maximum, chunks, turns, n); c.Writing? ==> c.writer.position + |c.rest| <= maximum
  {
    StaysOnTrack(maximum, chunks, turns, n);
    var c := After(maximum, chunks, turns, n);
    if c.Writing? {
      var done :| Exact(c.writer, done) && done + Remaining(c) == Joined(chunks);
    }
  }
}
