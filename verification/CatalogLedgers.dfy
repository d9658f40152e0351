/** Idempotent acceptance over runs, and what may happen to a command ledger. */
module CatalogLedgers {
  import opened Texts
  import opened Options
  import opened JobStates
  import opened CatalogModel
  import opened CatalogInvariant
  import opened CatalogSteps
  import opened CatalogPrunes
  import opened CatalogRuns

  // ---- Ledger rows over runs --------------------------------------------------------------------

  /** One step of one ledger: its target is fixed, a finished row is frozen, OUTCOME_UNKNOWN comes
      only to standalone rows and is left only by reconnect. */
  predicate LedgerStep(k: LedgerKey, a: Ledger, b: Ledger) {
    && a.target == b.target
    && (IsFinished(a) ==> a == b)
    && (a.state == OutcomeUnknown ==> a == b || (k.verb == RECONNECT_VERB && b.state == LedgerSucceeded))
    && (b.state == OutcomeUnknown ==> Standalone(b))
  }

  /** Ledgers after a step: each row that stays made a ledger step, and none that was unknown left. */
  ghost predicate LedgersFollow(db: Db, after: Db) {
    && (forall k :: k in db.ledgers && k in after.ledgers ==> LedgerStep(k, db.ledgers[k], after.ledgers[k]))
    && (forall k :: k in db.ledgers && db.ledgers[k].state == OutcomeUnknown ==> k in after.ledgers)
  }

  lemma LedgersSame(db: Db, after: Db)
    requires LedgersRefer(db)
    requires forall k :: k in db.ledgers ==> k in after.ledgers && after.ledgers[k] == db.ledgers[k]
    ensures LedgersFollow(db, after)
  {
    forall k | k in db.ledgers ensures LedgerStep(k, db.ledgers[k], after.ledgers[k]) { assert LedgerRefs(db, k); }
  }

  lemma LedgersSettled(db: Db, after: Db)
    requires LedgersRefer(db) && after.ledgers.Keys == db.ledgers.Keys
    requires forall k :: k in db.ledgers ==>
      || after.ledgers[k] == db.ledgers[k]
      || (db.ledgers[k].state == InProgress && after.ledgers[k].target == db.ledgers[k].target && IsFinished(after.ledgers[k]))
    ensures LedgersFollow(db, after)
  {
    forall k | k in db.ledgers ensures LedgerStep(k, db.ledgers[k], after.ledgers[k]) { assert LedgerRefs(db, k); }
  }

  lemma EndingLedgers(db: Db, c: Id, w: TerminalWrite, cancellation: bool, expected: Option<set<JobState>>)
    requires LedgersRefer(db)
    ensures LedgersFollow(db, TerminalStep(db, c, w, cancellation, expected).db)
  {
    LedgersSettled(db, TerminalStep(db, c, w, cancellation, expected).db);
  }

  lemma GroupLedgers(db: Db, g: Id, state: JobState, result: Body, code: Option<Text>, message: Option<Text>, at: int)
    requires LedgersRefer(db)
    ensures LedgersFollow(db, CompleteGroupStep(db, g, state, result, code, message, at).db)
  {
    LedgersSettled(db, CompleteGroupStep(db, g, state, result, code, message, at).db);
  }

  lemma RecoveryLedgers(db: Db, at: int)
    requires LedgersRefer(db)
    ensures LedgersFollow(db, SettleReconnectsStep(db, at).db)
    ensures LedgersFollow(db, MarkUnknownStep(db, at).db)
  {
    forall k | k in db.ledgers
      ensures LedgerStep(k, db.ledgers[k], SettleReconnectsStep(db, at).db.ledgers[k])
      ensures LedgerStep(k, db.ledgers[k], MarkUnknownStep(db, at).db.ledgers[k])
    {
      assert LedgerRefs(db, k);
    }
  }

  /** A step that leaves every ledger but `key` alone and moves that one as it may. */
  lemma OneLedgerMoves(db: Db, after: Db, key: LedgerKey)
    requires LedgersRefer(db)
    requires forall k :: k in db.ledgers ==> k in after.ledgers && (k != key ==> after.ledgers[k] == db.ledgers[k])
    requires key in db.ledgers ==>
      || after.ledgers[key] == db.ledgers[key]
      || (db.ledgers[key].state == InProgress && after.ledgers[key].target == db.ledgers[key].target
          && after.ledgers[key].state != OutcomeUnknown)
    ensures LedgersFollow(db, after)
  {
    forall k | k in db.ledgers ensures LedgerStep(k, db.ledgers[k], after.ledgers[k]) { assert LedgerRefs(db, k); }
  }

  lemma CommandLedgers(db: Db, s: Step)
    requires LedgersRefer(db) && IsCommand(s)
    ensures LedgersFollow(db, Command(db, s).db)
  {
    OneLedgerMoves(db, Command(db, s).db, s.key);
  }

  lemma PrunedLedgers(db: Db, s: Step)
    requires LedgersRefer(db) && IsPrune(s) && Selected(db, s)
    ensures LedgersFollow(db, Prune(db, s).db)
  {
    forall k | k in db.ledgers && k in Prune(db, s).db.ledgers
      ensures LedgerStep(k, db.ledgers[k], Prune(db, s).db.ledgers[k])
    {
      assert LedgerRefs(db, k);
    }
  }

  lemma JobLedgers(db: Db, n: NewJob)
    requires LedgersRefer(db)
    ensures LedgersFollow(db, AcceptJobStep(db, n).db)
  {
    LedgersSame(db, AcceptJobStep(db, n).db);
  }

  lemma AcceptedLedgers(db: Db, s: Step)
    requires LedgersRefer(db) && IsAccept(s)
    ensures LedgersFollow(db, Accept(db, s).db)
  {
    match s
    case AcceptJob(n) => JobLedgers(db, n);
    case AcceptScheduled(n, schedule, fireAt) => LedgersSame(db, AcceptScheduledStep(db, n, schedule, fireAt).db);
    case AcceptGroup(n) => LedgersSame(db, AcceptGroupStep(db, n).db);
  }

  lemma EndingsLedgers(db: Db, s: Step)
    requires LedgersRefer(db) && IsEnding(s)
    ensures LedgersFollow(db, End(db, s).db)
  {
    EndingUnfolds(db, s);
    EndingLedgers(db, s.capture, s.write, s.Cancel?, EndingExpects(s));
    LedgersSame(db, db);
  }

  lemma GroupMoveLedgers(db: Db, s: Step)
    requires LedgersRefer(db) && IsGroupMove(s)
    ensures LedgersFollow(db, GroupMove(db, s).db)
  {
    match s
    case QueueGroup(g, at) => LedgersSame(db, QueueGroupStep(db, g, at).db);
    case CompleteGroup(g, state, result, code, message, at) => GroupLedgers(db, g, state, result, code, message, at);
  }

  lemma ProgressLedgers(db: Db, s: Step)
    requires LedgersRefer(db) && IsProgress(s)
    ensures LedgersFollow(db, Progress(db, s).db)
  {
    LedgersSame(db, Progress(db, s).db);
  }

  lemma LedgersAfter(db: Db, s: Step)
    requires LedgersRefer(db) && Selected(db, s)
    ensures LedgersFollow(db, Apply(db, s).db)
  {
    if IsAccept(s) {
      assert Apply(db, s) == Accept(db, s);
      AcceptedLedgers(db, s);
    } else if IsPrune(s) {
      assert Apply(db, s) == Prune(db, s);
      PrunedLedgers(db, s);
    } else if IsEnding(s) {
      assert Apply(db, s) == End(db, s);
      EndingsLedgers(db, s);
    } else if IsGroupMove(s) {
      assert Apply(db, s) == GroupMove(db, s);
      GroupMoveLedgers(db, s);
    } else if IsRecovery(s) {
      RecoveryLedgers(db, s.at);
    } else if IsCommand(s) {
      assert Apply(db, s) == Command(db, s);
      CommandLedgers(db, s);
    } else {
      assert Apply(db, s) == Progress(db, s);
      ProgressLedgers(db, s);
    }
  }

  ghost predicate Kept(r: Run, k: LedgerKey, i: nat, j: nat)
    requires i <= j < |r.states|
  {
    forall m :: i <= m <= j ==> k in r.states[m].ledgers
  }

  lemma LedgersInRun(r: Run, n: nat)
    requires IsRun(r) && n < |r.steps|
    ensures LedgersFollow(r.states[n], r.states[n + 1])
  {
    RunKeeps(r, n);
    assert StepOf(r, n);
    LedgersAfter(r.states[n], r.steps[n]);
  }

  /** A finished ledger row never changes again while it is retained. */
  lemma {:induction false} FinishedIsFrozen(r: Run, k: LedgerKey, i: nat, j: nat)
    requires IsRun(r) && i <= j < |r.states| && Kept(r, k, i, j) && IsFinished(r.states[i].ledgers[k])
    ensures r.states[j].ledgers[k] == r.states[i].ledgers[k]
  {
    if i < j {
      FinishedIsFrozen(r, k, i, j - 1);
      LedgersInRun(r, j - 1);
    }
  }

  /** An unknown outcome belongs to a standalone command, and unless that command is reconnect it
      stays unknown, and in the catalog, through every later step and prune. */
  lemma {:induction false} UnknownIsSticky(r: Run, k: LedgerKey, i: nat, j: nat)
    requires IsRun(r) && i <= j < |r.states|
    requires k in r.states[i].ledgers && r.states[i].ledgers[k].state == OutcomeUnknown
    ensures Standalone(r.states[i].ledgers[k])
    ensures k.verb != RECONNECT_VERB ==> k in r.states[j].ledgers && r.states[j].ledgers[k] == r.states[i].ledgers[k]
  {
    RunKeeps(r, i);
    assert LedgerRefs(r.states[i], k);
    if i < j && k.verb != RECONNECT_VERB {
      UnknownIsSticky(r, k, i, j - 1);
      LedgersInRun(r, j - 1);
    }
  }

  /** A job that ends settles every ledger that was still waiting for it, with its own outcome. */
  lemma EndingSettlesLedgers(db: Db, s: Step, after: Db, k: LedgerKey)
    requires IsEnding(s) && Apply(db, s) == Result(after, Won)
    requires k in db.ledgers && db.ledgers[k].target.captureId == Some(s.capture) && db.ledgers[k].state == InProgress
    ensures k in after.ledgers && SettledAs(after.ledgers[k], s.write)
  {
    EndingUnfolds(db, s);
    WonSettles(db, s.capture, s.write, s.Cancel?, EndingExpects(s));
  }

  lemma WonSettles(db: Db, c: Id, w: TerminalWrite, cancellation: bool, expected: Option<set<JobState>>)
    ensures TerminalStep(db, c, w, cancellation, expected).out == Won ==>
      c in db.jobs && TerminalStep(db, c, w, cancellation, expected).db == Settled(db, c, w)
  {}

  predicate SettledAs(l: Ledger, w: TerminalWrite) {
    && l.state == (if w.state == Succeeded then LedgerSucceeded else LedgerFailed)
    && l.reply == Some(w.result) && l.updatedAt == w.terminalAt && l.errorCode == w.errorCode
    && l.errorMessage == BoundedMessage(w.errorMessage)
  }

  // ---- Idempotent acceptance --------------------------------------------------------------------

  /** A well-formed capture request under (instance, requestId), through whichever verb. */
  predicate Asks(s: Step, instance: Text, requestId: Text) {
    s.AcceptJob? && ValidNewJob(s.job, false) && s.job.key.Some?
    && s.job.instance == instance && s.job.key.value.requestId == requestId
  }

  /** What a retry hears while capture `c` owns its pair. Only a ledger without a capture that already
      sits on the retry's own key comes before the capture's hash. */
  function RetryAnswer(db: Db, n: NewJob, c: Id, hash: Hash): Outcome
    requires n.key.Some?
  {
    var key := n.key.value;
    if key in db.ledgers && db.ledgers[key].target.captureId.None? then
      if db.ledgers[key].target.hash == n.hash then Failure(LedgerWithoutTarget) else Conflict
    else if n.hash == hash then Existing(c) else Conflict
  }

  /** A retry through any verb meets the capture that owns the pair, and changes no job. */
  lemma RetryMeetsOwner(db: Db, s: Step, instance: Text, requestId: Text, c: Id)
    requires Inv(db) && Owns(db, c, instance, requestId) && Asks(s, instance, requestId)
    ensures Apply(db, s).out == RetryAnswer(db, s.job, c, db.jobs[c].id.hash)
    ensures Apply(db, s).db.jobs == db.jobs
  {
    var key := s.job.key.value;
    if key in db.ledgers {
      assert LedgerRefs(db, key);
      var d := db.ledgers[key].target.captureId;
      assert d.Some? ==> Owns(db, d.value, instance, requestId);
    } else {
      assert Owned(db, s.job.instance, key.requestId);
      forall d | Owns(db, d, s.job.instance, key.requestId) ensures d == c {}
    }
  }

  /** The first capture request under a pair creates its capture, whatever other commands of the camera
      have used that request id under verbs of their own. */
  lemma FirstRequestInserts(db: Db, s: Step, instance: Text, requestId: Text)
    requires Inv(db) && Asks(s, instance, requestId) && s.job.key.value !in db.ledgers
    requires forall k :: k in db.ledgers && k.instance == instance && k.requestId == requestId ==>
      db.ledgers[k].target.captureId.None?
    ensures Apply(db, s).out == if s.job.captureId in db.jobs then Failure(UniqueCapture) else Inserted(s.job.captureId)
    ensures Apply(db, s).out.Inserted? ==> Owns(Apply(db, s).db, s.job.captureId, instance, requestId)
  {
    var r := AcceptJobStep(db, s.job);
    forall d | d in db.jobs ensures !Owns(db, d, instance, requestId) {
      assert JobRefs(db, d) && JobGood(db, d);
    }
    if r.out.Inserted? {
      assert Owns(r.db, s.job.captureId, instance, requestId);
    }
  }

  lemma InsertedOwns(db: Db, n: NewJob)
    requires AcceptJobStep(db, n).out.Inserted?
    ensures n.key.Some? && Owns(AcceptJobStep(db, n).db, n.captureId, n.instance, n.key.value.requestId)
    ensures AcceptJobStep(db, n).db.jobs[n.captureId].id.hash == n.hash
  {}

  lemma OwnerOverRun(r: Run, i: nat, j: nat)
    requires IsRun(r) && i < j < |r.states| && r.steps[i].AcceptJob? && r.outs[i].Inserted?
    requires Present(r, r.steps[i].job.captureId, i + 1, j)
    ensures
      var n := r.steps[i].job;
      n.key.Some? && Owns(r.states[j], n.captureId, n.instance, n.key.value.requestId)
      && r.states[j].jobs[n.captureId].id.hash == n.hash
  {
    assert StepOf(r, i);
    InsertedOwns(r.states[i], r.steps[i].job);
    RowOverRun(r, r.steps[i].job.captureId, i + 1, j);
  }

  /** Over any run, whatever else the camera's commands and groups do: once a request has inserted a
      capture, and for as long as that capture is retained, no request under the same (camera, request
      id) inserts another, whichever verbs the two use. A retry returns that capture when its hash is
      equal and a conflict when it is not, unless its own key was filed by another kind of command. */
  lemma AcceptanceIsIdempotent(r: Run, instance: Text, requestId: Text, i: nat, j: nat)
    requires IsRun(r) && i < j < |r.steps|
    requires Asks(r.steps[i], instance, requestId) && r.outs[i].Inserted? && Asks(r.steps[j], instance, requestId)
    requires Present(r, r.steps[i].job.captureId, i + 1, j)
    ensures !r.outs[j].Inserted? && r.states[j + 1].jobs == r.states[j].jobs
    ensures r.outs[j] == RetryAnswer(r.states[j], r.steps[j].job, r.steps[i].job.captureId, r.steps[i].job.hash)
    ensures NeverFiled(r, r.steps[j].job.key.value, j) ==>
      r.outs[j] == if r.steps[j].job.hash == r.steps[i].job.hash then Existing(r.steps[i].job.captureId) else Conflict
  {
    OwnerOverRun(r, i, j);
    RunKeeps(r, j);
    RetryInRun(r, instance, requestId, j, r.steps[i].job.captureId);
    if NeverFiled(r, r.steps[j].job.key.value, j) {
      KeyIsCaptures(r, r.steps[j].job.key.value, j);
    }
  }

  lemma RetryInRun(r: Run, instance: Text, requestId: Text, j: nat, c: Id)
    requires IsRun(r) && j < |r.steps| && Inv(r.states[j])
    requires Owns(r.states[j], c, instance, requestId) && Asks(r.steps[j], instance, requestId)
    ensures r.outs[j] == RetryAnswer(r.states[j], r.steps[j].job, c, r.states[j].jobs[c].id.hash)
    ensures r.states[j + 1].jobs == r.states[j].jobs
  {
    assert StepOf(r, j);
    RetryMeetsOwner(r.states[j], r.steps[j], instance, requestId, c);
  }

  // ---- Which keys lead to captures ------------------------------------------------------------------

  /** A step that may file a ledger without a capture under exactly this key. */
  predicate Files(s: Step, k: LedgerKey) {
    (s.BeginCommand? && s.key == k) || (s.AcceptGroup? && s.group.key == k)
  }

  ghost predicate NeverFiled(r: Run, k: LedgerKey, n: nat)
    requires n <= |r.steps|
  {
    forall m :: 0 <= m < n ==> !Files(r.steps[m], k)
  }

  /** A key that no standalone command and no group has used leads to a capture, if anywhere. */
  lemma {:induction false} KeyIsCaptures(r: Run, k: LedgerKey, n: nat)
    requires IsRun(r) && n < |r.states| && NeverFiled(r, k, n)
    ensures k in r.states[n].ledgers ==> r.states[n].ledgers[k].target.captureId.Some?
  {
    if n > 0 {
      KeyIsCaptures(r, k, n - 1);
      assert !Files(r.steps[n - 1], k);
      LedgersInRun(r, n - 1);
      if k in r.states[n].ledgers && k !in r.states[n - 1].ledgers {
        OpenedInRun(r, k, n - 1);
      }
    }
  }

  lemma OpenedInRun(r: Run, k: LedgerKey, n: nat)
    requires IsRun(r) && n < |r.steps| && !Files(r.steps[n], k) && k !in r.states[n].ledgers && k in r.states[n + 1].ledgers
    ensures r.steps[n].AcceptJob? && r.steps[n].job.key == Some(k) && r.states[n + 1].ledgers[k].target.captureId.Some?
  {
    assert StepOf(r, n);
    NewLedgerIsCaptures(r.states[n], r.steps[n], k);
  }

  lemma NewLedgerIsCaptures(db: Db, s: Step, k: LedgerKey)
    requires !Files(s, k) && k !in db.ledgers && k in Apply(db, s).db.ledgers
    ensures s.AcceptJob? && s.job.key == Some(k) && Apply(db, s).db.ledgers[k].target.captureId.Some?
  {
    if s.AcceptJob? {
      assert Apply(db, s) == Accept(db, s);
      NewJobLedger(db, s.job, k);
    } else if IsEnding(s) {
      assert Apply(db, s) == End(db, s);
      EndingKeys(db, s);
    } else if IsProgress(s) {
      assert Apply(db, s) == Progress(db, s);
      ProgressKeys(db, s);
    }
  }

  lemma NewJobLedger(db: Db, n: NewJob, k: LedgerKey)
    requires k in AcceptJobStep(db, n).db.ledgers && k !in db.ledgers
    ensures n.key == Some(k) && AcceptJobStep(db, n).db.ledgers[k].target.captureId.Some?
  {}

  /** A job's own steps add and remove no job and no ledger. */
  lemma ProgressKeys(db: Db, s: Step)
    requires IsProgress(s)
    ensures Progress(db, s).db.ledgers.Keys == db.ledgers.Keys && Progress(db, s).db.jobs.Keys == db.jobs.Keys
  {}

  lemma EndingKeys(db: Db, s: Step)
    requires IsEnding(s)
    ensures End(db, s).db.ledgers.Keys == db.ledgers.Keys && End(db, s).db.jobs.Keys == db.jobs.Keys
  {
    EndingUnfolds(db, s);
    TerminalKeys(db, s.capture, s.write, s.Cancel?, EndingExpects(s));
  }

  lemma TerminalKeys(db: Db, c: Id, w: TerminalWrite, cancellation: bool, expected: Option<set<JobState>>)
    ensures var after := TerminalStep(db, c, w, cancellation, expected).db;
      after.ledgers.Keys == db.ledgers.Keys && after.jobs.Keys == db.jobs.Keys
  {}

  // ---- Retention of captures --------------------------------------------------------------------------

  predicate DeletesJobs(s: Step) { s.PruneJobs? || s.PruneGroups? || s.EnforceLimit? }

  /** Without pruning in between, a capture is retained. */
  lemma {:induction false} RetainedWithoutPrunes(r: Run, c: Id, i: nat, j: nat)
    requires IsRun(r) && i <= j < |r.states| && c in r.states[i].jobs
    requires forall m :: i <= m < j ==> !DeletesJobs(r.steps[m])
    ensures Present(r, c, i, j)
  {
    if i < j {
      RetainedWithoutPrunes(r, c, i, j - 1);
      assert StepOf(r, j - 1) && !DeletesJobs(r.steps[j - 1]) && c in r.states[j - 1].jobs;
      JobStays(r.states[j - 1], r.steps[j - 1], c);
    }
  }

  lemma JobStays(db: Db, s: Step, c: Id)
    requires !DeletesJobs(s) && c in db.jobs
    ensures c in Apply(db, s).db.jobs
  {
    if IsEnding(s) {
      assert Apply(db, s) == End(db, s);
      EndingKeys(db, s);
    } else if IsProgress(s) {
      assert Apply(db, s) == Progress(db, s);
      ProgressKeys(db, s);
    } else if s.AcceptGroup? {
      JobStaysBesideGroup(db, s.group, c);
    } else if s.QueueGroup? {
      QueuedRow(db, s.groupId, s.at, c);
    }
  }

  lemma JobStaysBesideGroup(db: Db, n: NewGroup, c: Id)
    requires c in db.jobs
    ensures c in AcceptGroupStep(db, n).db.jobs
  {
    if AcceptGroupStep(db, n).out.Inserted? {
      MemberRows(db, AcceptGroupStep(db, n).db, n);
    }
  }
}
