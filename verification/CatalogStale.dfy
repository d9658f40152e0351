/** When a ledger in progress leads to a capture that has already ended. */
module CatalogStale {
  import opened Texts
  import opened Options
  import opened JobStates
  import opened CatalogModel
  import opened CatalogInvariant
  import opened CatalogSteps
  import opened CatalogPrunes
  import opened CatalogRuns
  import opened CatalogLedgers

  /** IN_PROGRESS although the capture behind it is terminal. */
  predicate Stale(db: Db, k: LedgerKey) {
    k in db.ledgers && db.ledgers[k].state == InProgress && LeadsToEnded(db, k)
  }

  predicate LeadsToEnded(db: Db, k: LedgerKey)
    requires k in db.ledgers
  {
    var c := db.ledgers[k].target.captureId;
    c.Some? && c.value in db.jobs && IsTerminal(db.jobs[c.value].state)
  }

  /** A request on a fresh key that is answered with a capture which has already ended. */
  predicate Opens(db: Db, s: Step, out: Outcome, k: LedgerKey) {
    && s.AcceptJob? && s.job.key == Some(k) && k !in db.ledgers
    && out.Existing? && out.id in db.jobs && IsTerminal(db.jobs[out.id].state)
  }

  /** A completed command under that key, which nothing but its caller rules out. */
  predicate Completes(s: Step, out: Outcome, k: LedgerKey) {
    s.CompleteCommand? && s.key == k && out == Done
  }

  // ---- Acceptance -----------------------------------------------------------------------------------

  lemma AcceptJobStale(db: Db, n: NewJob, k: LedgerKey)
    requires Inv(db)
    ensures var r := AcceptJobStep(db, n); Stale(r.db, k) <==> Stale(db, k) || Opens(db, AcceptJob(n), r.out, k)
  {
    var r := AcceptJobStep(db, n);
    if k in db.ledgers {
      LedgerKeptByJob(db, n, k);
      assert LedgerRefs(db, k);
      var c := db.ledgers[k].target.captureId;
      if c.Some? { UntouchedByJob(db, n, c.value); }
    } else if n.key == Some(k) && r.out.Inserted? {
      InsertedIsRunning(db, n, k);
    } else if n.key == Some(k) && r.out.Existing? {
      AnswerIsTarget(db, n, k);
    }
  }

  lemma LedgerKeptByJob(db: Db, n: NewJob, k: LedgerKey)
    requires k in db.ledgers
    ensures var r := AcceptJobStep(db, n); k in r.db.ledgers && r.db.ledgers[k] == db.ledgers[k]
    ensures db.jobs.Keys <= AcceptJobStep(db, n).db.jobs.Keys
  {}

  lemma InsertedIsRunning(db: Db, n: NewJob, k: LedgerKey)
    requires n.key == Some(k) && AcceptJobStep(db, n).out.Inserted?
    ensures !Stale(AcceptJobStep(db, n).db, k)
  {}

  lemma AnswerIsTarget(db: Db, n: NewJob, k: LedgerKey)
    requires n.key == Some(k) && k !in db.ledgers && AcceptJobStep(db, n).out.Existing?
    ensures var r := AcceptJobStep(db, n);
      && k in r.db.ledgers && r.db.ledgers[k].target.captureId == Some(r.out.id)
      && r.db.ledgers[k].state == InProgress && r.db.jobs == db.jobs && r.out.id in db.jobs
  {}

  lemma OtherAcceptsStale(db: Db, s: Step, k: LedgerKey)
    requires Inv(db) && IsAccept(s) && !s.AcceptJob?
    ensures Stale(Accept(db, s).db, k) <==> Stale(db, k)
  {
    OtherAcceptsKeep(db, s, k);
    if k in db.ledgers && db.ledgers[k].target.captureId.Some? {
      assert LedgerRefs(db, k);
      UntouchedByAccept(db, s, db.ledgers[k].target.captureId.value);
    }
  }

  lemma OtherAcceptsKeep(db: Db, s: Step, k: LedgerKey)
    requires IsAccept(s) && !s.AcceptJob?
    ensures var after := Accept(db, s).db;
      && db.jobs.Keys <= after.jobs.Keys
      && (k in db.ledgers ==> k in after.ledgers && after.ledgers[k] == db.ledgers[k])
      && (k in after.ledgers && k !in db.ledgers ==> after.ledgers[k].target.captureId.None?)
  {
    if s.AcceptGroup? && AcceptGroupStep(db, s.group).out.Inserted? {
      MemberRows(db, AcceptGroupStep(db, s.group).db, s.group);
    }
  }

  // ---- Endings and progress -----------------------------------------------------------------------------

  /** An ending settles the ledgers of the job it ends, and leaves those of ended jobs alone. */
  lemma TerminalStale(db: Db, c: Id, w: TerminalWrite, cancellation: bool, expected: Option<set<JobState>>, k: LedgerKey)
    requires LedgersRefer(db)
    ensures Stale(TerminalStep(db, c, w, cancellation, expected).db, k) <==> Stale(db, k)
  {
    var r := TerminalStep(db, c, w, cancellation, expected);
    if r.out == Won && k in db.ledgers {
      WonSettles(db, c, w, cancellation, expected);
      assert LedgerRefs(db, k);
      SettledStale(db, c, w, k);
    }
  }

  lemma SettledStale(db: Db, c: Id, w: TerminalWrite, k: LedgerKey)
    requires c in db.jobs && !IsTerminal(db.jobs[c].state)
    ensures Stale(Settled(db, c, w), k) <==> Stale(db, k)
  {}

  lemma EndingStale(db: Db, s: Step, k: LedgerKey)
    requires LedgersRefer(db) && IsEnding(s)
    ensures Stale(End(db, s).db, k) <==> Stale(db, k)
  {
    EndingUnfolds(db, s);
    TerminalStale(db, s.capture, s.write, s.Cancel?, EndingExpects(s), k);
  }

  lemma ProgressEndsNothing(db: Db, s: Step, c: Id)
    requires IsProgress(s) && c in db.jobs && JobGood(db, c)
    ensures c in Progress(db, s).db.jobs
    ensures IsTerminal(Progress(db, s).db.jobs[c].state) <==> IsTerminal(db.jobs[c].state)
  {
    ProgressKeys(db, s);
    if s.capture != c {
      UntouchedByProgress(db, s, c);
    } else if s.BeginPersisting? {
      PersistedRow(db, c, s.pending);
    } else {
      AdvancedRow(db, s, c);
    }
  }

  lemma ProgressStale(db: Db, s: Step, k: LedgerKey)
    requires Inv(db) && IsProgress(s)
    ensures Stale(Progress(db, s).db, k) <==> Stale(db, k)
  {
    ProgressKeepsLedger(db, s, k);
    if k in db.ledgers && db.ledgers[k].target.captureId.Some? {
      var c := db.ledgers[k].target.captureId.value;
      assert LedgerRefs(db, k) && JobGood(db, c);
      ProgressEndsNothing(db, s, c);
    }
  }

  lemma ProgressKeepsLedger(db: Db, s: Step, k: LedgerKey)
    requires IsProgress(s)
    ensures k in Progress(db, s).db.ledgers <==> k in db.ledgers
    ensures k in db.ledgers ==> Progress(db, s).db.ledgers[k] == db.ledgers[k]
  {}

  // ---- Groups, commands and recovery ----------------------------------------------------------------------

  lemma GroupMoveStale(db: Db, s: Step, k: LedgerKey)
    requires Inv(db) && IsGroupMove(s)
    ensures Stale(GroupMove(db, s).db, k) <==> Stale(db, k)
  {
    if k in db.ledgers && db.ledgers[k].target.captureId.Some? {
      assert LedgerRefs(db, k);
      if s.QueueGroup? { QueuedRow(db, s.groupId, s.at, db.ledgers[k].target.captureId.value); }
    }
  }

  lemma CommandStale(db: Db, s: Step, k: LedgerKey)
    requires IsCommand(s)
    ensures var r := Command(db, s); Stale(r.db, k) <==> Stale(db, k) && !Completes(s, r.out, k)
  {}

  lemma RecoverStale(db: Db, s: Step, k: LedgerKey)
    requires IsRecovery(s)
    ensures Stale(Recover(db, s).db, k) <==> Stale(db, k)
  {}

  // ---- Pruning ---------------------------------------------------------------------------------------------

  /** A stale ledger goes with its capture, and only then. */
  lemma DeleteJobsStale(db: Db, victims: set<Id>, k: LedgerKey)
    ensures Stale(DeleteJobs(db, victims), k) <==> Stale(db, k) && db.ledgers[k].target.captureId.value !in victims
  {}

  lemma DeleteGroupsStale(db: Db, victims: set<Id>, k: LedgerKey)
    requires Inv(db) && victims <= db.groups.Keys
    ensures Stale(DeleteGroups(db, victims), k) <==> Stale(db, k)
    ensures Stale(db, k) ==> db.ledgers[k].target.captureId.value in DeleteGroups(db, victims).jobs
  {
    MembersBelong(db, victims);
    if k in db.ledgers && db.ledgers[k].target.captureId.Some? {
      assert LedgerRefs(db, k);
      assert JobGood(db, db.ledgers[k].target.captureId.value);
    }
  }

  lemma PruneStale(db: Db, s: Step, k: LedgerKey)
    requires Inv(db) && IsPrune(s) && Selected(db, s)
    ensures var after := Prune(db, s).db;
      Stale(after, k) <==> Stale(db, k) && db.ledgers[k].target.captureId.value in after.jobs
  {
    match s
    case PruneJobs(_, _, victims) => DeleteJobsStale(db, victims, k);
    case EnforceLimit(_, _, victims) => DeleteJobsStale(db, victims, k);
    case PruneGroups(_, _, victims) => DeleteGroupsStale(db, victims, k);
    case PruneLedgers(_, _, doomed) => {}
  }

  // ---- Any step ----------------------------------------------------------------------------------------------

  /** Exactly how a ledger becomes, stays and ceases to be stale. */
  lemma StaleAfter(db: Db, s: Step, k: LedgerKey)
    requires Inv(db) && Selected(db, s)
    ensures var r := Apply(db, s);
      Stale(r.db, k) <==>
        || Opens(db, s, r.out, k)
        || (Stale(db, k) && !Completes(s, r.out, k) && db.ledgers[k].target.captureId.value in r.db.jobs)
  {
    if s.AcceptJob? {
      assert Apply(db, s) == AcceptJobStep(db, s.job);
      AcceptJobStale(db, s.job, k);
      if Stale(db, k) { JobStays(db, s, db.ledgers[k].target.captureId.value); }
    } else if IsPrune(s) {
      assert Apply(db, s) == Prune(db, s);
      PruneStale(db, s, k);
    } else {
      if Stale(db, k) { JobStays(db, s, db.ledgers[k].target.captureId.value); }
      StaleAfterOthers(db, s, k);
    }
  }

  lemma StaleAfterOthers(db: Db, s: Step, k: LedgerKey)
    requires Inv(db) && !s.AcceptJob? && !IsPrune(s)
    ensures Stale(Apply(db, s).db, k) <==> Stale(db, k) && !Completes(s, Apply(db, s).out, k)
  {
    if IsAccept(s) {
      assert Apply(db, s) == Accept(db, s);
      OtherAcceptsStale(db, s, k);
    } else if IsProgress(s) {
      assert Apply(db, s) == Progress(db, s);
      ProgressStale(db, s, k);
    } else if IsEnding(s) {
      assert Apply(db, s) == End(db, s);
      EndingStale(db, s, k);
    } else if IsGroupMove(s) {
      assert Apply(db, s) == GroupMove(db, s);
      GroupMoveStale(db, s, k);
    } else if IsCommand(s) {
      assert Apply(db, s) == Command(db, s);
      CommandStale(db, s, k);
    } else {
      assert Apply(db, s) == Recover(db, s);
      RecoverStale(db, s, k);
    }
  }

  // ---- Runs ------------------------------------------------------------------------------------------------------

  ghost predicate OpenedAt(r: Run, i: nat, k: LedgerKey)
    requires i < |r.steps| && |r.outs| == |r.steps| < |r.states|
  {
    Opens(r.states[i], r.steps[i], r.outs[i], k)
  }

  /** Opened at step `i` on an ended capture, not completed since, and the capture retained since. */
  ghost predicate StaleSince(r: Run, i: nat, n: nat, k: LedgerKey)
    requires i < n <= |r.steps| && |r.outs| == |r.steps| < |r.states|
  {
    && OpenedAt(r, i, k)
    && forall m :: i < m < n ==> !Completes(r.steps[m], r.outs[m], k) && r.outs[i].id in r.states[m + 1].jobs
  }

  lemma StaleInRun(r: Run, n: nat, k: LedgerKey)
    requires IsRun(r) && n < |r.steps|
    ensures Stale(r.states[n + 1], k) <==>
      || OpenedAt(r, n, k)
      || (Stale(r.states[n], k) && !Completes(r.steps[n], r.outs[n], k)
          && r.states[n].ledgers[k].target.captureId.value in r.states[n + 1].jobs)
    ensures Stale(r.states[n], k) && Stale(r.states[n + 1], k) ==>
      r.states[n + 1].ledgers[k].target.captureId == r.states[n].ledgers[k].target.captureId
  {
    RunKeeps(r, n);
    assert StepOf(r, n);
    StaleAfter(r.states[n], r.steps[n], k);
    LedgersInRun(r, n);
  }

  lemma OpenedLeadsThere(r: Run, i: nat, k: LedgerKey)
    requires IsRun(r) && i < |r.steps| && OpenedAt(r, i, k)
    ensures Stale(r.states[i + 1], k) && r.states[i + 1].ledgers[k].target.captureId == Some(r.outs[i].id)
  {
    StaleInRun(r, i, k);
    assert StepOf(r, i);
    AnswerIsTarget(r.states[i], r.steps[i].job, k);
  }

  lemma {:induction false} StaysStale(r: Run, i: nat, n: nat, k: LedgerKey)
    requires IsRun(r) && i < n <= |r.steps| && StaleSince(r, i, n, k)
    ensures Stale(r.states[n], k) && r.states[n].ledgers[k].target.captureId == Some(r.outs[i].id)
  {
    if i == n - 1 {
      OpenedLeadsThere(r, i, k);
    } else {
      StaysStale(r, i, n - 1, k);
      StaleInRun(r, n - 1, k);
    }
  }

  lemma {:induction false} WasOpened(r: Run, n: nat, k: LedgerKey) returns (i: nat)
    requires IsRun(r) && n <= |r.steps| && Stale(r.states[n], k)
    ensures i < n && StaleSince(r, i, n, k)
  {
    StaleInRun(r, n - 1, k);
    if OpenedAt(r, n - 1, k) {
      i := n - 1;
    } else {
      i := WasOpened(r, n - 1, k);
      StaysStale(r, i, n - 1, k);
      assert !Completes(r.steps[n - 1], r.outs[n - 1], k) && r.outs[i].id in r.states[n].jobs;
      forall m | i < m < n ensures !Completes(r.steps[m], r.outs[m], k) && r.outs[i].id in r.states[m + 1].jobs {}
    }
  }

  /** In every reachable state, a ledger is in progress on an ended capture if and only if it was opened
      that way: by a request on a fresh key answered with a capture that had already ended, with no
      command completed under that key and the capture not deleted since. */
  lemma StaleExactly(r: Run, n: nat, k: LedgerKey)
    requires IsRun(r) && n <= |r.steps|
    ensures Stale(r.states[n], k) <==> exists i :: 0 <= i < n && StaleSince(r, i, n, k)
  {
    if Stale(r.states[n], k) {
      var i := WasOpened(r, n, k);
    }
    if i :| 0 <= i < n && StaleSince(r, i, n, k) {
      StaysStale(r, i, n, k);
    }
  }

  /** So without a retry of an ended capture under a fresh key, every capture ledger in progress has a
      capture that is still running. */
  lemma InProgressMeansRunning(r: Run, n: nat, k: LedgerKey)
    requires IsRun(r) && n <= |r.steps| && forall i :: 0 <= i < n ==> !OpenedAt(r, i, k)
    requires k in r.states[n].ledgers && r.states[n].ledgers[k].state == InProgress
    requires r.states[n].ledgers[k].target.captureId.Some?
    ensures var c := r.states[n].ledgers[k].target.captureId.value;
      c in r.states[n].jobs && !IsTerminal(r.states[n].jobs[c].state)
  {
    RunKeeps(r, n);
    assert LedgerRefs(r.states[n], k);
    StaleExactly(r, n, k);
  }

  // ---- A run that gets there -----------------------------------------------------------------------------------

  const CAMERA: Text := [0x63]
  const CAPTURE: Id := [0x31]
  const DIRECT: LedgerKey := LedgerKey(CAMERA, [0x64], [0x72])
  const SUBMITTED: LedgerKey := LedgerKey(CAMERA, [0x73], [0x72])
  const FIRST: NewJob := NewJob(CAPTURE, CAMERA, Some(DIRECT), [], [], None, None, 0, Deadlines(0, None, 0, 0, 0))
  const RETRY: NewJob := FIRST.(captureId := [0x32], key := Some(SUBMITTED))
  const INTERRUPTION: TerminalWrite :=
    TerminalWrite(Interrupted, Body(Some(1), Some([1]), Some(CAPTURE), Some(CAMERA), Some([2]), None, []), Some([3]), None, 1)

  const ACCEPTED: Db :=
    Db(map[CAPTURE := AcceptedJob(FIRST)], map[DIRECT := NewLedger([], [], 0, Some(CAPTURE), None)], map[], map[], map[], map[])

  const ENDED: Db := Settled(ACCEPTED, CAPTURE, INTERRUPTION)

  lemma FirstAccept() returns (s: Step, r: Result)
    ensures Selected(EMPTY, s) && Apply(EMPTY, s) == r && r.db == ACCEPTED
  {
    s := AcceptJob(FIRST);
    r := Accept(EMPTY, s);
    assert !Owned(EMPTY, CAMERA, [0x72]);
  }

  lemma ThenInterrupt() returns (s: Step, r: Result)
    ensures Selected(ACCEPTED, s) && Apply(ACCEPTED, s) == r && r.db == ENDED
  {
    s := CommitTerminal(CAPTURE, INTERRUPTION);
    r := End(ACCEPTED, s);
  }

  lemma EndedRows()
    ensures ENDED.jobs == map[CAPTURE := FinishedJob(AcceptedJob(FIRST), INTERRUPTION)] && ENDED.ledgers.Keys == {DIRECT}
    ensures Owns(ENDED, CAPTURE, CAMERA, [0x72]) && forall d :: Owns(ENDED, d, CAMERA, [0x72]) ==> d == CAPTURE
  {}

  lemma ThenRetry() returns (s: Step, r: Result)
    ensures Selected(ENDED, s) && Apply(ENDED, s) == r && Opens(ENDED, s, r.out, SUBMITTED)
  {
    s := AcceptJob(RETRY);
    r := AcceptJobStep(ENDED, RETRY);
    EndedRows();
    assert DIRECT != SUBMITTED && Owned(ENDED, CAMERA, [0x72]);
  }

  lemma ThreeSteps(s0: Step, r0: Result, s1: Step, r1: Result, s2: Step, r2: Result) returns (r: Run)
    requires Selected(EMPTY, s0) && Apply(EMPTY, s0) == r0
    requires Selected(r0.db, s1) && Apply(r0.db, s1) == r1 && Selected(r1.db, s2) && Apply(r1.db, s2) == r2
    ensures r == Run([EMPTY, r0.db, r1.db, r2.db], [s0, s1, s2], [r0.out, r1.out, r2.out]) && IsRun(r)
  {
    r := Run([EMPTY, r0.db, r1.db, r2.db], [s0, s1, s2], [r0.out, r1.out, r2.out]);
    forall i | 0 <= i < 3 ensures StepOf(r, i) {}
  }

  /** Three transactions are enough: accept, interrupt, retry under the other verb. */
  lemma StaleIsReachable() returns (r: Run)
    ensures IsRun(r) && |r.steps| == 3 && Stale(r.states[3], SUBMITTED)
  {
    var s0, r0 := FirstAccept();
    var s1, r1 := ThenInterrupt();
    var s2, r2 := ThenRetry();
    r := ThreeSteps(s0, r0, s1, r1, s2, r2);
    OpenedLeadsThere(r, 2, SUBMITTED);
  }
}
