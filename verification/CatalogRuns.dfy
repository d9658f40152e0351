/** What holds over whole runs of the catalog: any interleaving of transactions from an empty one. */
module CatalogRuns {
  import opened Texts
  import opened Options
  import opened JobStates
  import opened CatalogModel
  import opened CatalogInvariant
  import opened CatalogSteps
  import opened CatalogPrunes

  datatype Run = Run(states: seq<Db>, steps: seq<Step>, outs: seq<Outcome>)

  ghost predicate StepOf(r: Run, i: nat)
    requires |r.states| == |r.steps| + 1 && |r.outs| == |r.steps| && i < |r.steps|
  {
    Selected(r.states[i], r.steps[i]) && Apply(r.states[i], r.steps[i]) == Result(r.states[i + 1], r.outs[i])
  }

  ghost predicate IsRun(r: Run) {
    && |r.states| == |r.steps| + 1 && |r.outs| == |r.steps| && r.states[0] == EMPTY
    && forall i {:trigger StepOf(r, i)} :: 0 <= i < |r.steps| ==> StepOf(r, i)
  }

  /** Every reachable state satisfies the invariant, and no step of a run fails on a constraint the
      code has ruled out. */
  lemma {:induction false} RunKeeps(r: Run, n: nat)
    requires IsRun(r) && n < |r.states|
    ensures Inv(r.states[n])
    ensures n < |r.steps| ==> !Impossible(r.steps[n], r.outs[n])
  {
    if n > 0 {
      RunKeeps(r, n - 1);
      assert StepOf(r, n - 1);
      StepKeeps(r.states[n - 1], r.steps[n - 1]);
    }
    if n < |r.steps| {
      assert StepOf(r, n);
      StepKeeps(r.states[n], r.steps[n]);
    }
  }

  // ---- One job's life -----------------------------------------------------------------------------

  predicate SamePreparation(a: Artifact, b: Artifact) {
    a.partialPath == b.partialPath && a.finalPath == b.finalPath
    && a.expectedSha == b.expectedSha && a.expectedBytes == b.expectedBytes
  }

  /** One step of one row: its identity is fixed, its state follows the stage graph, an installation
      once started stays started, what was prepared stays as prepared, and a terminal row is frozen. */
  predicate RowStep(a: Job, b: Job) {
    && a.id == b.id
    && (a.state == b.state || CanTransition(a.state, b.state))
    && (a.artifact.installStarted ==> b.artifact.installStarted)
    && (IsTerminal(a.state) ==> a == b)
    && (a.state == Persisting && (b.state == Persisting || b.state == Succeeded) ==> SamePreparation(a.artifact, b.artifact))
  }

  predicate Touches(s: Step, c: Id) {
    (IsProgress(s) || IsEnding(s)) && s.capture == c
  }

  predicate PreparedAs(a: Artifact, p: PendingInstall) {
    a.partialPath == Some(p.partialPath) && a.finalPath == Some(p.finalPath)
    && a.expectedSha == Some(p.expectedSha) && a.expectedBytes == Some(p.expectedBytes)
  }

  predicate SameRow(db: Db, after: Db, c: Id)
    requires c in db.jobs && c in after.jobs
  {
    after.jobs[c] == db.jobs[c] && (c in db.staged && c in after.staged ==> after.staged[c] == db.staged[c])
  }

  lemma UntouchedByGroup(db: Db, n: NewGroup, c: Id)
    requires c in AcceptGroupStep(db, n).db.jobs
    ensures c in db.jobs ==> SameRow(db, AcceptGroupStep(db, n).db, c)
    ensures c !in db.jobs ==> AcceptGroupStep(db, n).db.jobs[c].state == Accepted
  {
    var r := AcceptGroupStep(db, n);
    if r.out.Inserted? {
      MemberRows(db, r.db, n);
      if c !in db.jobs { var i :| 0 <= i < |n.members| && n.members[i].captureId == c; }
    }
  }

  lemma UntouchedByJob(db: Db, n: NewJob, c: Id)
    requires c in AcceptJobStep(db, n).db.jobs
    ensures c in db.jobs ==> SameRow(db, AcceptJobStep(db, n).db, c)
    ensures c !in db.jobs ==> AcceptJobStep(db, n).db.jobs[c].state == Accepted
  {}

  lemma UntouchedByAccept(db: Db, s: Step, c: Id)
    requires IsAccept(s) && c in Accept(db, s).db.jobs
    ensures c in db.jobs ==> SameRow(db, Accept(db, s).db, c)
    ensures c !in db.jobs ==> Accept(db, s).db.jobs[c].state == Accepted
  {
    if s.AcceptGroup? {
      UntouchedByGroup(db, s.group, c);
    } else if s.AcceptJob? {
      UntouchedByJob(db, s.job, c);
    }
  }

  lemma UntouchedByMove(db: Db, d: Id, expected: JobState, next: JobState, at: int, c: Id)
    requires d != c && c in CompareAndSetStep(db, d, expected, next, at).db.jobs
    ensures c in db.jobs && SameRow(db, CompareAndSetStep(db, d, expected, next, at).db, c)
  {}

  lemma UntouchedByRebase(db: Db, d: Id, deadlines: Deadlines, c: Id)
    requires d != c && c in RescheduleStep(db, d, deadlines).db.jobs
    ensures c in db.jobs && SameRow(db, RescheduleStep(db, d, deadlines).db, c)
  {}

  lemma UntouchedByPersisting(db: Db, d: Id, p: PendingInstall, c: Id)
    requires d != c && c in BeginPersistingStep(db, d, p).db.jobs
    ensures c in db.jobs && SameRow(db, BeginPersistingStep(db, d, p).db, c)
  {}

  lemma UntouchedByInstall(db: Db, d: Id, c: Id)
    requires d != c && c in BeginInstallStep(db, d).db.jobs
    ensures c in db.jobs && SameRow(db, BeginInstallStep(db, d).db, c)
  {}

  lemma UntouchedByInstalled(db: Db, d: Id, sha: Text, bytes: nat, c: Id)
    requires d != c && c in RecordInstalledStep(db, d, sha, bytes).db.jobs
    ensures c in db.jobs && SameRow(db, RecordInstalledStep(db, d, sha, bytes).db, c)
  {}

  lemma UntouchedByProgress(db: Db, s: Step, c: Id)
    requires IsProgress(s) && s.capture != c && c in Progress(db, s).db.jobs
    ensures c in db.jobs && SameRow(db, Progress(db, s).db, c)
  {
    match s
    case CompareAndSet(d, expected, next, at) => UntouchedByMove(db, d, expected, next, at, c);
    case Reschedule(d, deadlines) => UntouchedByRebase(db, d, deadlines, c);
    case BeginPersisting(d, pending) => UntouchedByPersisting(db, d, pending, c);
    case BeginInstall(d) => UntouchedByInstall(db, d, c);
    case RecordInstalled(d, sha, bytes) => UntouchedByInstalled(db, d, sha, bytes, c);
  }

  lemma UntouchedByEnding(db: Db, s: Step, c: Id)
    requires IsEnding(s) && s.capture != c && c in End(db, s).db.jobs
    ensures c in db.jobs && SameRow(db, End(db, s).db, c)
  {
    EndingIsArbitration(db, s);
    if ProperEnding(s) {
      UntouchedByTerminal(db, s.capture, s.write, s.Cancel?, EndingExpects(s), c);
    }
  }

  lemma UntouchedByTerminal(db: Db, ended: Id, w: TerminalWrite, cancellation: bool, expected: Option<set<JobState>>, c: Id)
    requires ended != c && c in TerminalStep(db, ended, w, cancellation, expected).db.jobs
    ensures c in db.jobs && SameRow(db, TerminalStep(db, ended, w, cancellation, expected).db, c)
  {}

  lemma UntouchedByOthers(db: Db, s: Step, c: Id)
    requires !IsAccept(s) && !IsProgress(s) && !IsEnding(s) && !s.QueueGroup? && c in Apply(db, s).db.jobs
    ensures c in db.jobs && SameRow(db, Apply(db, s).db, c)
  {}

  /** Only its own steps and the queueing of its group change a row, and a row that appears is newly
      accepted. */
  lemma UntouchedRow(db: Db, s: Step, c: Id)
    requires !Touches(s, c) && !s.QueueGroup? && c in Apply(db, s).db.jobs
    ensures c in db.jobs ==> SameRow(db, Apply(db, s).db, c)
    ensures c !in db.jobs ==> Apply(db, s).db.jobs[c].state == Accepted
  {
    if IsAccept(s) {
      assert Apply(db, s) == Accept(db, s);
      UntouchedByAccept(db, s, c);
    } else if IsProgress(s) {
      assert Apply(db, s) == Progress(db, s);
      UntouchedByProgress(db, s, c);
    } else if IsEnding(s) {
      assert Apply(db, s) == End(db, s);
      UntouchedByEnding(db, s, c);
    } else {
      UntouchedByOthers(db, s, c);
    }
  }

  /** Terminal arbitration moves a row along the graph; success takes over the staged write. */
  lemma EndedRow(db: Db, c: Id, w: TerminalWrite, cancellation: bool, expected: Option<set<JobState>>)
    requires c in db.jobs && JobGood(db, c)
    ensures
      var after := TerminalStep(db, c, w, cancellation, expected).db;
      && c in after.jobs && RowStep(db.jobs[c], after.jobs[c])
      && (c in db.staged && c in after.staged ==> after.staged[c] == db.staged[c])
      && (after.jobs[c].state == db.jobs[c].state || IsTerminal(after.jobs[c].state))
      && (after.jobs[c].state == Succeeded != db.jobs[c].state ==>
            && db.jobs[c].state == Persisting && c in db.staged
            && after.jobs[c].ending == Some(Ending(db.staged[c].terminalAt, db.staged[c].result, None, None)))
  {}

  lemma PersistedRow(db: Db, c: Id, p: PendingInstall)
    requires c in db.jobs && JobGood(db, c)
    ensures
      var r := BeginPersistingStep(db, c, p);
      && c in r.db.jobs && RowStep(db.jobs[c], r.db.jobs[c])
      && (c in db.staged && c in r.db.staged ==> r.db.staged[c] == db.staged[c])
      && (r.db.jobs[c].state != db.jobs[c].state ==>
            && r.out == Changed && PreparedAs(r.db.jobs[c].artifact, p)
            && c in r.db.staged && r.db.staged[c] == StageWrite(p.success))
  {}

  predicate Advanced(db: Db, after: Db, c: Id)
    requires c in db.jobs
  {
    && c in after.jobs && RowStep(db.jobs[c], after.jobs[c]) && after.staged == db.staged
    && (after.jobs[c].state != db.jobs[c].state ==> Stage(after.jobs[c].state) < Stage(Persisting))
  }

  lemma MovedRow(db: Db, c: Id, expected: JobState, next: JobState, at: int)
    requires c in db.jobs && JobGood(db, c)
    ensures Advanced(db, CompareAndSetStep(db, c, expected, next, at).db, c)
  {}

  lemma RebasedRow(db: Db, c: Id, deadlines: Deadlines)
    requires c in db.jobs && JobGood(db, c)
    ensures Advanced(db, RescheduleStep(db, c, deadlines).db, c)
  {}

  lemma InstallingRow(db: Db, c: Id)
    requires c in db.jobs && JobGood(db, c)
    ensures Advanced(db, BeginInstallStep(db, c).db, c)
  {}

  lemma InstalledRow(db: Db, c: Id, sha: Text, bytes: nat)
    requires c in db.jobs && JobGood(db, c)
    ensures Advanced(db, RecordInstalledStep(db, c, sha, bytes).db, c)
  {}

  lemma AdvancedRow(db: Db, s: Step, c: Id)
    requires IsProgress(s) && !s.BeginPersisting? && s.capture == c && c in db.jobs && JobGood(db, c)
    ensures Advanced(db, Progress(db, s).db, c)
  {
    match s
    case CompareAndSet(_, expected, next, at) => MovedRow(db, c, expected, next, at);
    case Reschedule(_, deadlines) => RebasedRow(db, c, deadlines);
    case BeginInstall(_) => InstallingRow(db, c);
    case RecordInstalled(_, sha, bytes) => InstalledRow(db, c, sha, bytes);
  }

  lemma QueuedRow(db: Db, g: Id, at: int, c: Id)
    requires c in db.jobs
    ensures
      var after := QueueGroupStep(db, g, at).db;
      && after.jobs.Keys == db.jobs.Keys && after.staged == db.staged
      && (after.jobs[c] == db.jobs[c] || (db.jobs[c].state == Accepted && after.jobs[c] == QueuedJob(db.jobs[c], at)))
  {
    var after := QueueGroupStep(db, g, at).db;
    if after != db && c in db.members[g] {
      var i :| 0 <= i < |db.members[g]| && db.members[g][i] == c;
    }
  }

  function EndingExpects(s: Step): Option<set<JobState>> {
    if s.InterruptRecovered? then Some(s.states) else None
  }

  lemma EndingUnfolds(db: Db, s: Step)
    requires IsEnding(s)
    ensures End(db, s) == Result(db, Failure(Invalid))
         || End(db, s) == TerminalStep(db, s.capture, s.write, s.Cancel?, EndingExpects(s))
  {
    EndingIsArbitration(db, s);
  }

  lemma EndingRow(db: Db, s: Step, c: Id)
    requires IsEnding(s) && c in db.jobs && JobGood(db, c) && c in End(db, s).db.jobs
    ensures RowStep(db.jobs[c], End(db, s).db.jobs[c])
    ensures c in db.staged && c in End(db, s).db.staged ==> End(db, s).db.staged[c] == db.staged[c]
  {
    if s.capture == c {
      EndingUnfolds(db, s);
      EndedRow(db, c, s.write, s.Cancel?, EndingExpects(s));
    } else {
      UntouchedByEnding(db, s, c);
    }
  }

  lemma ProgressRow(db: Db, s: Step, c: Id)
    requires IsProgress(s) && c in db.jobs && JobGood(db, c) && c in Progress(db, s).db.jobs
    ensures RowStep(db.jobs[c], Progress(db, s).db.jobs[c])
    ensures c in db.staged && c in Progress(db, s).db.staged ==> Progress(db, s).db.staged[c] == db.staged[c]
  {
    if s.capture != c {
      UntouchedByProgress(db, s, c);
    } else if s.BeginPersisting? {
      PersistedRow(db, c, s.pending);
    } else {
      AdvancedRow(db, s, c);
    }
  }

  lemma RowFollows(db: Db, s: Step, c: Id)
    requires c in db.jobs && c in Apply(db, s).db.jobs && JobGood(db, c)
    ensures RowStep(db.jobs[c], Apply(db, s).db.jobs[c])
    ensures c in db.staged && c in Apply(db, s).db.staged ==> Apply(db, s).db.staged[c] == db.staged[c]
  {
    if IsEnding(s) {
      assert Apply(db, s) == End(db, s);
      EndingRow(db, s, c);
    } else if IsProgress(s) {
      assert Apply(db, s) == Progress(db, s);
      ProgressRow(db, s, c);
    } else if s.QueueGroup? {
      assert Apply(db, s) == QueueGroupStep(db, s.groupId, s.at);
      QueuedRow(db, s.groupId, s.at, c);
    } else {
      UntouchedRow(db, s, c);
    }
  }

  ghost predicate Present(r: Run, c: Id, i: nat, j: nat)
    requires i <= j < |r.states|
  {
    forall m :: i <= m <= j ==> c in r.states[m].jobs
  }

  lemma JobStaysGood(r: Run, n: nat, c: Id)
    requires IsRun(r) && n < |r.states| && c in r.states[n].jobs
    ensures JobGood(r.states[n], c)
  {
    RunKeeps(r, n);
  }

  lemma FollowsInRun(r: Run, n: nat, c: Id)
    requires IsRun(r) && 0 < n < |r.states| && c in r.states[n - 1].jobs && c in r.states[n].jobs
    ensures RowStep(r.states[n - 1].jobs[c], r.states[n].jobs[c])
    ensures c in r.states[n - 1].staged && c in r.states[n].staged ==> r.states[n].staged[c] == r.states[n - 1].staged[c]
  {
    JobStaysGood(r, n - 1, c);
    assert StepOf(r, n - 1);
    RowFollows(r.states[n - 1], r.steps[n - 1], c);
  }

  /** The rows one job goes through while it stays in the catalog. */
  lemma {:induction false} RowOverRun(r: Run, c: Id, i: nat, j: nat)
    requires IsRun(r) && i <= j < |r.states| && Present(r, c, i, j)
    ensures r.states[i].jobs[c].id == r.states[j].jobs[c].id
    ensures Stage(r.states[i].jobs[c].state) <= Stage(r.states[j].jobs[c].state)
    ensures r.states[i].jobs[c].artifact.installStarted ==> r.states[j].jobs[c].artifact.installStarted
    ensures IsTerminal(r.states[i].jobs[c].state) ==> r.states[i].jobs[c] == r.states[j].jobs[c]
    ensures i < j ==> RowStep(r.states[j - 1].jobs[c], r.states[j].jobs[c])
  {
    if i < j {
      RowOverRun(r, c, i, j - 1);
      FollowsInRun(r, j, c);
    }
  }

  predicate Wins(r: Run, i: nat, c: Id)
    requires i < |r.steps| && |r.outs| == |r.steps|
  {
    IsEnding(r.steps[i]) && r.steps[i].capture == c && r.outs[i] == Won
  }

  predicate Starts(r: Run, i: nat, c: Id)
    requires i < |r.steps| && |r.outs| == |r.steps|
  {
    r.steps[i] == BeginInstall(c) && r.outs[i] == Started
  }

  lemma WinEnds(db: Db, s: Step)
    requires IsEnding(s) && End(db, s).out == Won
    ensures s.capture in db.jobs && !IsTerminal(db.jobs[s.capture].state)
    ensures s.capture in End(db, s).db.jobs && IsTerminal(End(db, s).db.jobs[s.capture].state)
    ensures s.Cancel? ==> !db.jobs[s.capture].artifact.installStarted
  {
    EndingIsArbitration(db, s);
  }

  lemma WinInRun(r: Run, i: nat, c: Id)
    requires IsRun(r) && i < |r.steps| && Wins(r, i, c)
    ensures c in r.states[i].jobs && !IsTerminal(r.states[i].jobs[c].state)
    ensures c in r.states[i + 1].jobs && IsTerminal(r.states[i + 1].jobs[c].state)
    ensures r.steps[i].Cancel? ==> !r.states[i].jobs[c].artifact.installStarted
  {
    assert StepOf(r, i);
    WinEnds(r.states[i], r.steps[i]);
  }

  lemma StartInRun(r: Run, i: nat, c: Id)
    requires IsRun(r) && i < |r.steps| && Starts(r, i, c)
    ensures c in r.states[i].jobs && !r.states[i].jobs[c].artifact.installStarted && !IsTerminal(r.states[i].jobs[c].state)
    ensures c in r.states[i + 1].jobs && r.states[i + 1].jobs[c].artifact.installStarted
  {
    assert StepOf(r, i);
  }

  /** At most one call ever wins, and the row it leaves is the one every later reader sees. */
  lemma OneWinner(r: Run, c: Id, i: nat, j: nat)
    requires IsRun(r) && i < j < |r.steps| && Present(r, c, i + 1, j)
    requires Wins(r, i, c)
    ensures !Wins(r, j, c)
    ensures r.states[j].jobs[c] == r.states[i + 1].jobs[c]
  {
    WinInRun(r, i, c);
    RowOverRun(r, c, i + 1, j);
    if Wins(r, j, c) { WinInRun(r, j, c); }
  }

  /** At most one call ever starts the installation, and once it has, no cancellation wins. */
  lemma InstallExcludesCancel(r: Run, c: Id, i: nat, j: nat)
    requires IsRun(r) && i < j < |r.steps| && Present(r, c, i + 1, j)
    requires Starts(r, i, c)
    ensures !Starts(r, j, c) && !(r.steps[j].Cancel? && Wins(r, j, c))
  {
    StartInRun(r, i, c);
    RowOverRun(r, c, i + 1, j);
    if Starts(r, j, c) { StartInRun(r, j, c); }
    if Wins(r, j, c) { WinInRun(r, j, c); }
  }

  /** Once any ending has won, a cancellation included, no installation starts. */
  lemma WinExcludesInstall(r: Run, c: Id, i: nat, j: nat)
    requires IsRun(r) && i < j < |r.steps| && Present(r, c, i + 1, j)
    requires Wins(r, i, c)
    ensures !Starts(r, j, c)
  {
    WinInRun(r, i, c);
    RowOverRun(r, c, i + 1, j);
    if Starts(r, j, c) { StartInRun(r, j, c); }
  }

  // ---- Success is exactly what was staged ---------------------------------------------------------

  lemma EntersPersisting(db: Db, s: Step, c: Id)
    requires c in db.jobs ==> JobGood(db, c) && db.jobs[c].state != Persisting
    requires c in Apply(db, s).db.jobs && Apply(db, s).db.jobs[c].state == Persisting
    ensures s.BeginPersisting? && s.capture == c && Apply(db, s).out == Changed
    ensures PreparedAs(Apply(db, s).db.jobs[c].artifact, s.pending)
    ensures c in Apply(db, s).db.staged && Apply(db, s).db.staged[c] == StageWrite(s.pending.success)
  {
    OwnStep(db, s, c);
    if IsEnding(s) {
      EndingUnfolds(db, s);
      EndedRow(db, c, s.write, s.Cancel?, EndingExpects(s));
    } else if s.BeginPersisting? {
      PersistedRow(db, c, s.pending);
    } else {
      AdvancedRow(db, s, c);
    }
  }

  /** A state other than ACCEPTED and QUEUED is only entered by one of the job's own steps. */
  lemma OwnStep(db: Db, s: Step, c: Id)
    requires c in Apply(db, s).db.jobs
    requires c in db.jobs ==> db.jobs[c].state != Apply(db, s).db.jobs[c].state
    requires Apply(db, s).db.jobs[c].state != Accepted && Apply(db, s).db.jobs[c].state != Queued
    ensures c in db.jobs && Touches(s, c)
  {
    if s.QueueGroup? {
      assert Apply(db, s) == QueueGroupStep(db, s.groupId, s.at);
      if c in db.jobs { QueuedRow(db, s.groupId, s.at, c); }
    } else if !Touches(s, c) {
      UntouchedRow(db, s, c);
    } else if c !in db.jobs {
      NoOwnRow(db, s);
    }
  }

  lemma NoOwnRow(db: Db, s: Step)
    requires (IsProgress(s) || IsEnding(s)) && s.capture !in db.jobs
    ensures Apply(db, s).db == db
  {
    if IsEnding(s) { EndingUnfolds(db, s); }
  }

  lemma EntersSucceeded(db: Db, s: Step, c: Id)
    requires c in db.jobs ==> JobGood(db, c) && db.jobs[c].state != Succeeded
    requires c in Apply(db, s).db.jobs && Apply(db, s).db.jobs[c].state == Succeeded
    ensures c in db.jobs && db.jobs[c].state == Persisting && c in db.staged
    ensures Apply(db, s).db.jobs[c].ending
         == Some(Ending(db.staged[c].terminalAt, db.staged[c].result, None, None))
    ensures SamePreparation(db.jobs[c].artifact, Apply(db, s).db.jobs[c].artifact)
  {
    OwnStep(db, s, c);
    if IsEnding(s) {
      EndingUnfolds(db, s);
      EndedRow(db, c, s.write, s.Cancel?, EndingExpects(s));
    } else {
      ProgressNeverSucceeds(db, s, c);
    }
  }

  lemma ProgressNeverSucceeds(db: Db, s: Step, c: Id)
    requires IsProgress(s) && s.capture == c && c in db.jobs && JobGood(db, c) && db.jobs[c].state != Succeeded
    ensures c in Progress(db, s).db.jobs ==> Progress(db, s).db.jobs[c].state != Succeeded
  {
    if s.BeginPersisting? {
      PersistedRow(db, c, s.pending);
    } else {
      AdvancedRow(db, s, c);
    }
  }

  ghost predicate StagedAt(r: Run, i: nat, c: Id)
    requires |r.outs| == |r.steps|
  {
    i < |r.steps| && r.steps[i].BeginPersisting? && r.steps[i].capture == c && r.outs[i] == Changed
  }

  lemma PersistsInRun(r: Run, n: nat, c: Id)
    requires IsRun(r) && 0 < n < |r.states| && c in r.states[n].jobs && r.states[n].jobs[c].state == Persisting
    requires c in r.states[n - 1].jobs ==> r.states[n - 1].jobs[c].state != Persisting
    ensures StagedAt(r, n - 1, c) && PreparedAs(r.states[n].jobs[c].artifact, r.steps[n - 1].pending)
    ensures c in r.states[n].staged && r.states[n].staged[c] == StageWrite(r.steps[n - 1].pending.success)
  {
    if c in r.states[n - 1].jobs { JobStaysGood(r, n - 1, c); }
    assert StepOf(r, n - 1);
    EntersPersisting(r.states[n - 1], r.steps[n - 1], c);
  }

  lemma SucceedsInRun(r: Run, n: nat, c: Id)
    requires IsRun(r) && 0 < n < |r.states| && c in r.states[n].jobs && r.states[n].jobs[c].state == Succeeded
    requires c in r.states[n - 1].jobs ==> r.states[n - 1].jobs[c].state != Succeeded
    ensures var db := r.states[n - 1];
      && c in db.jobs && db.jobs[c].state == Persisting && c in db.staged
      && r.states[n].jobs[c].ending == Some(Ending(db.staged[c].terminalAt, db.staged[c].result, None, None))
      && SamePreparation(db.jobs[c].artifact, r.states[n].jobs[c].artifact)
  {
    if c in r.states[n - 1].jobs { JobStaysGood(r, n - 1, c); }
    assert StepOf(r, n - 1);
    EntersSucceeded(r.states[n - 1], r.steps[n - 1], c);
  }

  /** While a job is PERSISTING, its row and its staged success are those of the `begin_persisting`
      call that took it there. */
  lemma {:induction false} PersistingWasStaged(r: Run, n: nat, c: Id) returns (i: nat)
    requires IsRun(r) && n < |r.states| && c in r.states[n].jobs && r.states[n].jobs[c].state == Persisting
    ensures i < n && StagedAt(r, i, c)
    ensures PreparedAs(r.states[n].jobs[c].artifact, r.steps[i].pending)
    ensures c in r.states[n].staged && r.states[n].staged[c] == StageWrite(r.steps[i].pending.success)
  {
    JobStaysGood(r, n, c);
    var db := r.states[n - 1];
    if c in db.jobs && db.jobs[c].state == Persisting {
      i := PersistingWasStaged(r, n - 1, c);
      FollowsInRun(r, n, c);
    } else {
      PersistsInRun(r, n, c);
      i := n - 1;
    }
  }

  /** A SUCCEEDED row is the success that some earlier `begin_persisting` staged: the same body and
      time, no error, and an installed artifact with the checksum and size that call expected. */
  lemma {:induction false} SucceededWasStaged(r: Run, n: nat, c: Id) returns (i: nat)
    requires IsRun(r) && n < |r.states| && c in r.states[n].jobs && r.states[n].jobs[c].state == Succeeded
    ensures i < n && StagedAt(r, i, c)
    ensures r.states[n].jobs[c].ending
         == Some(Ending(r.steps[i].pending.success.terminalAt, r.steps[i].pending.success.result, None, None))
    ensures PreparedAs(r.states[n].jobs[c].artifact, r.steps[i].pending)
    ensures r.states[n].jobs[c].artifact.installStarted
    ensures r.states[n].jobs[c].artifact.installedSha == Some(r.steps[i].pending.expectedSha)
    ensures r.states[n].jobs[c].artifact.installedBytes == Some(r.steps[i].pending.expectedBytes)
  {
    JobStaysGood(r, n, c);
    var db := r.states[n - 1];
    if c in db.jobs && db.jobs[c].state == Succeeded {
      i := SucceededWasStaged(r, n - 1, c);
      FollowsInRun(r, n, c);
    } else {
      SucceedsInRun(r, n, c);
      i := PersistingWasStaged(r, n - 1, c);
    }
  }
}
