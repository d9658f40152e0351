/** Pruning keeps the invariant: no deletion leaves a dangling reference behind. */
module CatalogPrunes {
  import opened Texts
  import opened Options
  import opened JobStates
  import opened CatalogModel
  import opened CatalogInvariant
  import opened CatalogSteps

  /** `after` holds a part of the rows of `db`, unchanged. */
  ghost predicate Shrinks(db: Db, after: Db) {
    && after.jobs.Keys <= db.jobs.Keys && (forall c :: c in after.jobs ==> after.jobs[c] == db.jobs[c])
    && after.ledgers.Keys <= db.ledgers.Keys && (forall k :: k in after.ledgers ==> after.ledgers[k] == db.ledgers[k])
    && after.groups.Keys <= db.groups.Keys && (forall g :: g in after.groups ==> after.groups[g] == db.groups[g])
    && after.members.Keys <= db.members.Keys && (forall g :: g in after.members ==> after.members[g] == db.members[g])
    && after.staged.Keys <= db.staged.Keys && (forall c :: c in after.staged ==> after.staged[c] == db.staged[c])
    && after.occurrences.Keys <= db.occurrences.Keys
    && (forall o :: o in after.occurrences ==> after.occurrences[o] == db.occurrences[o])
  }

  /** What survives refers only to what survives. */
  ghost predicate Closed(db: Db, after: Db) {
    && (forall c :: c in after.jobs ==> (c in after.staged <==> c in db.staged))
    && (forall c :: c in after.staged ==> c in after.jobs)
    && (forall c :: c in after.jobs && after.jobs[c].id.key.Some? ==> after.jobs[c].id.key.value in after.ledgers)
    && (forall c :: c in after.jobs && after.jobs[c].id.groupId.Some? ==> after.jobs[c].id.groupId.value in after.members)
    && (forall k :: k in after.ledgers && after.ledgers[k].target.captureId.Some? ==> after.ledgers[k].target.captureId.value in after.jobs)
    && (forall k :: k in after.ledgers && after.ledgers[k].target.groupId.Some? ==> after.ledgers[k].target.groupId.value in after.groups)
    && after.members.Keys == after.groups.Keys
    && (forall g :: g in after.groups ==> after.groups[g].id.key in after.ledgers)
    && (forall g, i :: g in after.groups && 0 <= i < |after.members[g]| ==> after.members[g][i] in after.jobs)
    && (forall o :: o in after.occurrences ==> after.occurrences[o] in after.jobs)
  }

  lemma RowsShrunk(db: Db, after: Db)
    requires JobsGood(db) && StagesGood(db) && Shrinks(db, after) && Closed(db, after)
    ensures JobsGood(after) && StagesGood(after)
  {
    forall c | c in after.jobs ensures JobGood(after, c) { assert JobGood(db, c); }
    forall c | c in after.staged ensures StagedGood(after, c) { assert StagedGood(db, c); }
  }

  lemma ReferencesShrunk(db: Db, after: Db)
    requires JobsRefer(db) && LedgersRefer(db) && Shrinks(db, after) && Closed(db, after)
    ensures JobsRefer(after) && LedgersRefer(after)
  {
    forall c | c in after.jobs ensures JobRefs(after, c) { assert JobRefs(db, c); }
    forall k | k in after.ledgers ensures LedgerRefs(after, k) { assert LedgerRefs(db, k); }
  }

  lemma GroupsShrunk(db: Db, after: Db)
    requires GroupsRefer(db) && GroupStatesGood(db) && Shrinks(db, after) && Closed(db, after)
    ensures GroupsRefer(after) && GroupStatesGood(after)
  {
    forall g | g in after.groups ensures GroupRefs(after, g) && GroupStateGood(after, g) {
      assert GroupRefs(db, g) && GroupStateGood(db, g);
      forall i | 0 <= i < |after.members[g]|
        ensures IsMember(after, after.members[g][i], g) && MemberState(after, g, i) == MemberState(db, g, i)
      {
        assert IsMember(db, db.members[g][i], g);
      }
    }
  }

  lemma OccurrencesShrunk(db: Db, after: Db)
    requires OccurrencesRefer(db) && Shrinks(db, after) && Closed(db, after)
    ensures OccurrencesRefer(after)
  {
    forall o | o in after.occurrences ensures OccurrenceRefs(after, o) { assert OccurrenceRefs(db, o); }
  }

  lemma Shrunk(db: Db, after: Db)
    requires Inv(db) && Shrinks(db, after) && Closed(db, after)
    ensures Inv(after)
  {
    RowsShrunk(db, after);
    ReferencesShrunk(db, after);
    GroupsShrunk(db, after);
    OccurrencesShrunk(db, after);
    KeepsUnique(db, after);
  }

  lemma DeleteJobsKeeps(db: Db, victims: set<Id>)
    requires Inv(db) && forall c :: c in victims ==> Removable(db, c)
    ensures Inv(DeleteJobs(db, victims))
  {
    var after := DeleteJobs(db, victims);
    forall c | c in after.staged ensures c in after.jobs { assert StagedGood(db, c); }
    forall c | c in after.jobs
      ensures after.jobs[c].id.key.Some? ==> after.jobs[c].id.key.value in after.ledgers
      ensures after.jobs[c].id.groupId.Some? ==> after.jobs[c].id.groupId.value in after.members
    {
      assert JobRefs(db, c);
    }
    forall k | k in after.ledgers
      ensures after.ledgers[k].target.captureId.Some? ==> after.ledgers[k].target.captureId.value in after.jobs
      ensures after.ledgers[k].target.groupId.Some? ==> after.ledgers[k].target.groupId.value in after.groups
    {
      assert LedgerRefs(db, k);
    }
    forall g | g in after.groups
      ensures after.groups[g].id.key in after.ledgers
      ensures forall i :: 0 <= i < |after.members[g]| ==> after.members[g][i] in after.jobs
    {
      assert GroupRefs(db, g) && LedgerRefs(db, db.groups[g].id.key);
      assert forall i :: 0 <= i < |after.members[g]| ==> IsMember(db, after.members[g][i], g);
    }
    forall o | o in after.occurrences ensures after.occurrences[o] in after.jobs { assert OccurrenceRefs(db, o); }
    Shrunk(db, after);
  }

  lemma MembersBelong(db: Db, victims: set<Id>)
    requires GroupsRefer(db) && victims <= db.groups.Keys
    ensures forall c :: c in MembersOf(db, victims) ==>
      c in db.jobs && db.jobs[c].id.groupId.Some? && db.jobs[c].id.groupId.value in victims
  {
    forall c | c in MembersOf(db, victims)
      ensures c in db.jobs && db.jobs[c].id.groupId.Some? && db.jobs[c].id.groupId.value in victims
    {
      var g :| g in victims && g in db.members && c in db.members[g];
      assert GroupRefs(db, g);
      var i :| 0 <= i < |db.members[g]| && db.members[g][i] == c;
      assert IsMember(db, db.members[g][i], g);
    }
  }

  /** What stays refers to jobs, groups and ledgers that stay. */
  lemma SurvivorsOfGroups(db: Db, victims: set<Id>)
    requires Inv(db) && victims <= db.groups.Keys
    ensures var after := DeleteGroups(db, victims);
      && (forall c :: c in after.jobs && after.jobs[c].id.key.Some? ==> after.jobs[c].id.key.value in after.ledgers)
      && (forall c :: c in after.jobs && after.jobs[c].id.groupId.Some? ==> after.jobs[c].id.groupId.value in after.members)
  {
    var after := DeleteGroups(db, victims);
    forall c | c in after.jobs
      ensures after.jobs[c].id.key.Some? ==> after.jobs[c].id.key.value in after.ledgers
      ensures after.jobs[c].id.groupId.Some? ==> after.jobs[c].id.groupId.value in after.members
    {
      assert JobRefs(db, c);
      if db.jobs[c].id.key.Some? { assert LedgerRefs(db, db.jobs[c].id.key.value); }
    }
  }

  lemma LedgersOfSurvivors(db: Db, victims: set<Id>)
    requires Inv(db) && victims <= db.groups.Keys
    ensures var after := DeleteGroups(db, victims);
      && (forall k :: k in after.ledgers && after.ledgers[k].target.captureId.Some? ==> after.ledgers[k].target.captureId.value in after.jobs)
      && (forall k :: k in after.ledgers && after.ledgers[k].target.groupId.Some? ==> after.ledgers[k].target.groupId.value in after.groups)
  {
    var after := DeleteGroups(db, victims);
    MembersBelong(db, victims);
    forall k | k in after.ledgers
      ensures after.ledgers[k].target.captureId.Some? ==> after.ledgers[k].target.captureId.value in after.jobs
      ensures after.ledgers[k].target.groupId.Some? ==> after.ledgers[k].target.groupId.value in after.groups
    {
      assert LedgerRefs(db, k);
      var c := db.ledgers[k].target.captureId;
      if c.Some? { assert JobGood(db, c.value); }
    }
  }

  lemma DeleteGroupsKeeps(db: Db, victims: set<Id>)
    requires Inv(db) && victims <= db.groups.Keys
    ensures Inv(DeleteGroups(db, victims))
  {
    var after := DeleteGroups(db, victims);
    MembersBelong(db, victims);
    SurvivorsOfGroups(db, victims);
    LedgersOfSurvivors(db, victims);
    forall c | c in after.staged ensures c in after.jobs { assert StagedGood(db, c); }
    forall g | g in after.groups
      ensures after.groups[g].id.key in after.ledgers
      ensures forall i :: 0 <= i < |after.members[g]| ==> after.members[g][i] in after.jobs
    {
      assert GroupRefs(db, g) && LedgerRefs(db, db.groups[g].id.key);
      assert forall i :: 0 <= i < |after.members[g]| ==> IsMember(db, after.members[g][i], g);
    }
    forall o | o in after.occurrences ensures after.occurrences[o] in after.jobs { assert OccurrenceRefs(db, o); }
    Shrunk(db, after);
  }

  lemma PruneLedgersKeeps(db: Db, doomed: set<LedgerKey>)
    requires Inv(db) && forall k :: k in doomed ==> k in db.ledgers && Standalone(db.ledgers[k])
    ensures Inv(db.(ledgers := db.ledgers - doomed))
  {
    var after := db.(ledgers := db.ledgers - doomed);
    forall c | c in after.staged ensures c in after.jobs { assert StagedGood(db, c); }
    forall c | c in after.jobs
      ensures after.jobs[c].id.key.Some? ==> after.jobs[c].id.key.value in after.ledgers
      ensures after.jobs[c].id.groupId.Some? ==> after.jobs[c].id.groupId.value in after.members
    {
      assert JobRefs(db, c);
    }
    forall k | k in after.ledgers
      ensures after.ledgers[k].target.captureId.Some? ==> after.ledgers[k].target.captureId.value in after.jobs
      ensures after.ledgers[k].target.groupId.Some? ==> after.ledgers[k].target.groupId.value in after.groups
    {
      assert LedgerRefs(db, k);
    }
    forall g | g in after.groups
      ensures after.groups[g].id.key in after.ledgers
      ensures forall i :: 0 <= i < |after.members[g]| ==> after.members[g][i] in after.jobs
    {
      assert GroupRefs(db, g);
      assert forall i :: 0 <= i < |after.members[g]| ==> IsMember(db, after.members[g][i], g);
    }
    forall o | o in after.occurrences ensures after.occurrences[o] in after.jobs { assert OccurrenceRefs(db, o); }
    Shrunk(db, after);
  }

  lemma PrunesKeep(db: Db, s: Step)
    requires Inv(db) && IsPrune(s) && Selected(db, s)
    ensures Inv(Prune(db, s).db) && !Impossible(s, Prune(db, s).out)
  {
    match s
    case PruneJobs(_, _, victims) => DeleteJobsKeeps(db, victims);
    case PruneGroups(_, _, victims) => DeleteGroupsKeeps(db, victims);
    case PruneLedgers(_, _, doomed) => PruneLedgersKeeps(db, doomed);
    case EnforceLimit(_, _, victims) => DeleteJobsKeeps(db, victims);
  }

  /** None of these outcomes is reachable: the code has already ruled them out. */
  predicate Impossible(s: Step, out: Outcome) {
    || out == Failure(UniqueRequest) || out == Failure(UniqueStaged) || out == Failure(UniqueOccurrence)
    || (IsAccept(s) && out == Failure(NotFound))
  }

  lemma AcceptsKeep(db: Db, s: Step)
    requires Inv(db) && IsAccept(s)
    ensures Inv(Accept(db, s).db) && !Impossible(s, Accept(db, s).out)
  {
    match s
    case AcceptJob(job) => AcceptJobKeeps(db, job);
    case AcceptScheduled(job, schedule, fireAt) => AcceptScheduledKeeps(db, job, schedule, fireAt);
    case AcceptGroup(group) => AcceptGroupKeeps(db, group);
  }

  lemma CommandsKeep(db: Db, s: Step)
    requires Inv(db) && IsCommand(s)
    ensures Inv(Command(db, s).db) && !Impossible(s, Command(db, s).out)
  {
    match s
    case BeginCommand(key, hash, request, at) => BeginCommandKeeps(db, key, hash, request, at);
    case RecordAcceptance(key, reply, at) => RecordAcceptanceKeeps(db, key, reply, at);
    case CompleteCommand(key, outcome, reply, code, message, at) =>
      CompleteCommandKeeps(db, key, outcome, reply, code, message, at);
  }

  lemma RecoveryKeeps(db: Db, s: Step)
    requires Inv(db) && IsRecovery(s)
    ensures Inv(Recover(db, s).db) && !Impossible(s, Recover(db, s).out)
  {
    match s
    case SettleReconnects(at) => SettleReconnectsKeeps(db, at);
    case MarkUnknown(at) => MarkUnknownKeeps(db, at);
  }

  /** An ending step is terminal arbitration with its own flags, or is refused outright. */
  function Arbitration(db: Db, s: Step): Result
    requires IsEnding(s)
  {
    match s
    case CommitTerminal(c, write) => TerminalStep(db, c, write, false, None)
    case Cancel(c, write) => TerminalStep(db, c, write, true, None)
    case InterruptRecovered(c, states, write) => TerminalStep(db, c, write, false, Some(states))
  }

  predicate ProperEnding(s: Step)
    requires IsEnding(s)
  {
    match s
    case CommitTerminal(_, write) => write.state != Cancelled
    case Cancel(_, write) => write.state == Cancelled
    case InterruptRecovered(_, states, write) =>
      write.state == Interrupted && states != {} && !(exists s :: s in states && IsTerminal(s))
  }

  lemma EndingIsArbitration(db: Db, s: Step)
    requires IsEnding(s)
    ensures End(db, s) == if ProperEnding(s) then Arbitration(db, s) else Result(db, Failure(Invalid))
  {}

  lemma EndingsKeep(db: Db, s: Step)
    requires Inv(db) && IsEnding(s)
    ensures Inv(End(db, s).db) && !Impossible(s, End(db, s).out)
  {
    EndingIsArbitration(db, s);
    if ProperEnding(s) {
      var cancellation := s.Cancel?;
      var expected := if s.InterruptRecovered? then Some(s.states) else None;
      TerminalKeeps(db, s.capture, s.write, cancellation, expected);
      assert End(db, s) == TerminalStep(db, s.capture, s.write, cancellation, expected);
    }
  }

  lemma GroupStepsKeep(db: Db, s: Step)
    requires Inv(db) && IsGroupMove(s)
    ensures Inv(GroupMove(db, s).db) && !Impossible(s, GroupMove(db, s).out)
  {
    match s
    case QueueGroup(g, at) => QueueGroupKeeps(db, g, at);
    case CompleteGroup(g, state, result, code, message, at) => CompleteGroupKeeps(db, g, state, result, code, message, at);
  }

  lemma ProgressKeeps(db: Db, s: Step)
    requires Inv(db) && IsProgress(s)
    ensures Inv(Progress(db, s).db) && !Impossible(s, Progress(db, s).out)
  {
    match s
    case CompareAndSet(c, expected, next, at) => CompareAndSetKeeps(db, c, expected, next, at);
    case Reschedule(c, deadlines) => RescheduleKeeps(db, c, deadlines);
    case BeginPersisting(c, pending) => BeginPersistingKeeps(db, c, pending);
    case BeginInstall(c) => BeginInstallKeeps(db, c);
    case RecordInstalled(c, sha, bytes) => RecordInstalledKeeps(db, c, sha, bytes);
  }

  /** Every transaction keeps the invariant, and none fails on a constraint that the code has already
      ruled out: a duplicate request, a dangling target, a second staged row, a reused occurrence. */
  lemma StepKeeps(db: Db, s: Step)
    requires Inv(db) && Selected(db, s)
    ensures Inv(Apply(db, s).db)
    ensures !Impossible(s, Apply(db, s).out)
  {
    if IsAccept(s) {
      assert Apply(db, s) == Accept(db, s);
      AcceptsKeep(db, s);
    } else if IsPrune(s) {
      assert Apply(db, s) == Prune(db, s);
      PrunesKeep(db, s);
    } else if IsEnding(s) {
      assert Apply(db, s) == End(db, s);
      EndingsKeep(db, s);
    } else if IsProgress(s) {
      assert Apply(db, s) == Progress(db, s);
      ProgressKeeps(db, s);
    } else if IsGroupMove(s) {
      assert Apply(db, s) == GroupMove(db, s);
      GroupStepsKeep(db, s);
    } else if IsRecovery(s) {
      assert Apply(db, s) == Recover(db, s);
      RecoveryKeeps(db, s);
    } else {
      assert Apply(db, s) == Command(db, s);
      CommandsKeep(db, s);
    }
  }
}
