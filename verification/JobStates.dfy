/** The public capture states and their stage graph. */
module JobStates {
  datatype JobState =
    | Accepted | Queued | Acquiring | Encoding | Persisting
    | Succeeded | Failed | Cancelled | Interrupted

  predicate IsTerminal(s: JobState) {
    s == Succeeded || s == Failed || s == Cancelled || s == Interrupted
  }

  predicate CanTransition(s: JobState, next: JobState) {
    match s
    case Accepted => next == Queued || next == Interrupted
    case Queued => next == Acquiring || next == Failed || next == Cancelled || next == Interrupted
    case Acquiring =>
      next == Encoding || next == Persisting || next == Failed || next == Cancelled || next == Interrupted
    case Encoding => next == Persisting || next == Failed || next == Cancelled || next == Interrupted
    case Persisting => next == Succeeded || next == Failed || next == Cancelled || next == Interrupted
    case _ => false
  }

  function Stage(s: JobState): nat {
    match s
    case Accepted => 0
    case Queued => 1
    case Acquiring => 2
    case Encoding => 3
    case Persisting => 4
    case _ => 5
  }

  /** The stage graph, edge by edge: one stage forward, from ACQUIRING past ENCODING too; success only from PERSISTING;
      failure and cancellation from every stage but the first; interruption from every stage. The states with no way
      out are the terminal ones. */
  lemma TransitionsAre(s: JobState, next: JobState)
    ensures CanTransition(s, next) <==>
      || (s, next) in {(Accepted, Queued), (Queued, Acquiring), (Acquiring, Encoding), (Encoding, Persisting),
                       (Acquiring, Persisting), (Persisting, Succeeded)}
      || (s in {Queued, Acquiring, Encoding, Persisting} && next in {Failed, Cancelled})
      || (s in {Accepted, Queued, Acquiring, Encoding, Persisting} && next == Interrupted)
    ensures IsTerminal(s) <==> forall n :: !CanTransition(s, n)
  {
    if forall n :: !CanTransition(s, n) { assert !CanTransition(s, Interrupted); }
  }

  /** A path through the stage graph. */
  ghost predicate IsPath(path: seq<JobState>) {
    forall i :: 0 < i < |path| ==> CanTransition(path[i - 1], path[i])
  }

  /** Every path moves strictly forward: it visits no state twice, leaves no terminal state, has at
      most six states, and reaches success only through PERSISTING. */
  lemma {:induction false} PathsMoveForward(path: seq<JobState>, i: nat, j: nat)
    requires IsPath(path) && i < j < |path|
    ensures Stage(path[i]) < Stage(path[j]) && path[i] != path[j] && !IsTerminal(path[i])
    ensures j - i <= Stage(path[j]) - Stage(path[i]) <= 5
    ensures path[j] == Succeeded ==> path[j - 1] == Persisting
    decreases j
  {
    assert CanTransition(path[j - 1], path[j]);
    if i < j - 1 {
      PathsMoveForward(path, i, j - 1);
    }
  }
}
