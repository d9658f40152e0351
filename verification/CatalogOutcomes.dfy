/** What group transactions, commands and crash recovery answer and write, and what recovery leaves over whole runs. */
module CatalogOutcomes {
  import opened Texts
  import opened Options
  import opened JobStates
  import opened CatalogModel
  import opened CatalogInvariant
  import opened CatalogSteps
  import opened CatalogRuns
  import opened CatalogLedgers
  import opened CatalogGroups
  import opened CatalogAnswers

  // ---- Groups ---------------------------------------------------------------------------------------------------

  ghost predicate AllMembersIn(db: Db, g: Id, states: set<JobState>) {
    g in db.members && forall c :: c in db.members[g] && c in db.jobs ==> db.jobs[c].state in states
  }

  lemma MemberWords(db: Db, g: Id, states: set<JobState>)
    ensures EveryMember(db, g, states) <==> AllMembersIn(db, g, states)
  {
    if EveryMember(db, g, states) {
      forall c | c in db.members[g] && c in db.jobs ensures db.jobs[c].state in states {
        var i :| 0 <= i < |db.members[g]| && db.members[g][i] == c;
      }
    }
  }

  /** What an inserted group writes: its row column by column, its ledger, its members in request order, and a new row for
      each of them; every row that was there stays as it was. */
  lemma GroupInsertedWrites(db: Db, n: NewGroup)
    requires Inv(db) && Apply(db, AcceptGroup(n)).out.Inserted?
    ensures
      var after := Apply(db, AcceptGroup(n)).db;
      && n.groupId in after.groups && n.key in after.ledgers
      && after == db.(groups := db.groups[n.groupId := after.groups[n.groupId]], jobs := after.jobs,
                      ledgers := db.ledgers[n.key := after.ledgers[n.key]], members := db.members[n.groupId := CaptureIds(n.members)])
      && IsNewGroup(after.groups[n.groupId], n)
      && IsNewLedger(after.ledgers[n.key], n.hash, n.request, n.acceptedAt, None, Some(n.groupId))
      && (forall i :: 0 <= i < |n.members| ==>
            n.members[i].captureId in after.jobs && IsNewRow(after.jobs[n.members[i].captureId], n.members[i]))
      && (forall c :: c in db.jobs ==> c in after.jobs && after.jobs[c] == db.jobs[c])
      && (forall c :: c in after.jobs ==> c in db.jobs || Names(n.members, c))
  {
    assert Apply(db, AcceptGroup(n)) == AcceptGroupStep(db, n);
    AcceptGroupIsAtomic(db, n);
  }

  predicate IsNewGroup(g: Group, n: NewGroup) {
    && g.id.key == n.key && g.id.hash == n.hash && g.id.request == n.request && g.id.origin == n.origin
    && g.id.acceptedAt == n.acceptedAt && g.state == Accepted && g.queuedAt == None && g.ending == None
  }

  /** When queueing is refused, does nothing, or queues: an ACCEPTED group with only ACCEPTED members. */
  lemma QueueGroupAnswers(db: Db, g: Id, at: int)
    requires Inv(db)
    ensures
      var out := Apply(db, QueueGroup(g, at)).out;
      && (out == Failure(NotFound) <==> g !in db.groups)
      && (out == Done <==> g in db.groups && (db.groups[g].state == Queued || Queues(db, g)))
      && (out == Failure(WrongState) <==> g in db.groups && db.groups[g].state != Queued && !Queues(db, g))
      && (!Queues(db, g) ==> Apply(db, QueueGroup(g, at)).db == db)
  {
    MemberWords(db, g, {Accepted});
    assert Apply(db, QueueGroup(g, at)) == QueueGroupStep(db, g, at);
  }

  ghost predicate Queues(db: Db, g: Id) {
    g in db.groups && db.groups[g].state == Accepted && AllMembersIn(db, g, {Accepted})
  }

  /** Queueing stamps the group and every member with QUEUED and the step's time, and touches nothing else. */
  lemma QueueGroupWrites(db: Db, g: Id, at: int)
    requires Inv(db) && Queues(db, g)
    ensures
      var after := Apply(db, QueueGroup(g, at)).db;
      && g in after.groups && after == db.(groups := db.groups[g := after.groups[g]], jobs := after.jobs)
      && after.groups[g].state == Queued && after.groups[g].queuedAt == Some(at)
      && after.groups[g].id == db.groups[g].id && after.groups[g].ending == db.groups[g].ending
      && g in db.members && after.jobs.Keys == db.jobs.Keys
      && forall c :: c in db.jobs ==>
           if c in db.members[g] then
             && after.jobs[c].state == Queued && after.jobs[c].queuedAt == Some(at)
             && after.jobs[c].(state := Accepted, queuedAt := None) == db.jobs[c].(queuedAt := None)
           else after.jobs[c] == db.jobs[c]
  {
    MemberWords(db, g, {Accepted});
    assert GroupRefs(db, g);
    assert Apply(db, QueueGroup(g, at)) == QueueGroupStep(db, g, at);
    forall c | c in db.jobs && c in db.members[g] ensures db.jobs[c].state == Accepted {}
  }

  /** A completion ends the group: it is not terminal yet and all its members are. */
  ghost predicate Completes(db: Db, g: Id, state: JobState) {
    state in ENDED && g in db.groups && db.groups[g].state !in ENDED && AllMembersIn(db, g, ENDED)
  }

  /** When completing is refused, does nothing, or completes. */
  lemma CompleteGroupAnswers(db: Db, s: Step)
    requires s.CompleteGroup?
    ensures
      var out := Apply(db, s).out;
      var known := s.state in ENDED && s.groupId in db.groups;
      && (out == Failure(Invalid) <==> s.state !in ENDED)
      && (out == Failure(NotFound) <==> s.state in ENDED && s.groupId !in db.groups)
      && (out == Done <==> known && (db.groups[s.groupId].state in ENDED || Completes(db, s.groupId, s.state)))
      && (out == Failure(WrongState) <==> known && db.groups[s.groupId].state !in ENDED && !Completes(db, s.groupId, s.state))
      && (!Completes(db, s.groupId, s.state) ==> Apply(db, s).db == db)
  {
    MemberWords(db, s.groupId, TERMINAL_STATES);
    assert TERMINAL_STATES == ENDED;
    assert Apply(db, s) == CompleteGroupStep(db, s.groupId, s.state, s.result, s.code, s.message, s.at);
  }

  lemma GroupLedgerIsOwn(db: Db, g: Id)
    requires Inv(db) && g in db.groups
    ensures forall k :: k in db.ledgers && db.ledgers[k].target.groupId == Some(g) <==> k == db.groups[g].id.key
  {
    assert GroupRefs(db, g);
    forall k | k in db.ledgers && db.ledgers[k].target.groupId == Some(g) ensures k == db.groups[g].id.key {
      assert LedgerRefs(db, k);
    }
  }

  /** What a completion writes: the group row with that state, time, result, code and cut message, and the group's own
      ledger if it was still in progress: SUCCEEDED exactly if the group is, with that reply, time and error. */
  lemma CompleteGroupWrites(db: Db, s: Step)
    requires Inv(db) && s.CompleteGroup? && Completes(db, s.groupId, s.state)
    ensures
      var after, g := Apply(db, s).db, s.groupId;
      var key := db.groups[g].id.key;
      && g in after.groups && key in db.ledgers && key in after.ledgers
      && after == db.(groups := db.groups[g := after.groups[g]], ledgers := db.ledgers[key := after.ledgers[key]])
      && EndedGroup(after.groups[g], db.groups[g], s)
      && (if db.ledgers[key].state == InProgress
          then SettledRow(after.ledgers[key], db.ledgers[key], s.state == Succeeded, s.at, s.result, s.code, s.message)
          else after.ledgers[key] == db.ledgers[key])
  {
    var g, key := s.groupId, db.groups[s.groupId].id.key;
    assert GroupRefs(db, g);
    GroupLedgerIsOwn(db, g);
    MessageIsCut(s.message);
    MemberWords(db, g, TERMINAL_STATES);
    assert TERMINAL_STATES == ENDED;
    var r := CompleteGroupStep(db, g, s.state, s.result, s.code, s.message, s.at);
    assert Apply(db, s) == r;
    assert r.db.ledgers == db.ledgers[key := r.db.ledgers[key]];
  }

  predicate EndedGroup(row: Group, was: Group, s: Step)
    requires s.CompleteGroup?
  {
    && row.id == was.id && row.queuedAt == was.queuedAt && row.state == s.state
    && row.ending.Some? && row.ending.value.at == s.at && row.ending.value.result == s.result
    && row.ending.value.errorCode == s.code && CutMessage(row.ending.value.errorMessage, s.message)
  }

  /** One step of one group row: identity fixed, a terminal row frozen, and only its own completion ends it. */
  lemma GroupRowFollows(db: Db, s: Step, g: Id)
    requires Inv(db) && g in db.groups && g in Apply(db, s).db.groups
    ensures
      var after := Apply(db, s).db;
      || after.groups[g] == db.groups[g]
      || (s.QueueGroup? && s.groupId == g && Queues(db, g))
      || (s.CompleteGroup? && s.groupId == g && Completes(db, g, s.state))
  {
    if s.QueueGroup? {
      QueueGroupAnswers(db, s.groupId, s.at);
      if Queues(db, s.groupId) { QueueGroupWrites(db, s.groupId, s.at); }
    } else if s.CompleteGroup? {
      CompleteGroupAnswers(db, s);
      if Completes(db, s.groupId, s.state) { CompleteGroupWrites(db, s); }
    } else {
      OtherStepsKeepGroups(db, s, g);
    }
  }

  lemma OtherStepsKeepGroups(db: Db, s: Step, g: Id)
    requires g in db.groups && g in Apply(db, s).db.groups && !IsGroupMove(s)
    ensures Apply(db, s).db.groups[g] == db.groups[g]
  {
    if IsAccept(s) {
      assert Apply(db, s) == Accept(db, s);
      AcceptsKeepGroups(db, s, g);
    } else if IsPrune(s) {
      assert Apply(db, s) == Prune(db, s);
      PrunesKeepGroups(db, s, g);
    } else if IsEnding(s) {
      EndingsKeepGroups(db, s);
    } else if IsCommand(s) {
      assert Apply(db, s) == Command(db, s);
    } else if IsProgress(s) {
      assert Apply(db, s) == Progress(db, s);
    }
  }

  lemma AcceptsKeepGroups(db: Db, s: Step, g: Id)
    requires g in db.groups && IsAccept(s)
    ensures g in Accept(db, s).db.groups && Accept(db, s).db.groups[g] == db.groups[g]
  {}

  lemma PrunesKeepGroups(db: Db, s: Step, g: Id)
    requires g in db.groups && IsPrune(s) && g in Prune(db, s).db.groups
    ensures Prune(db, s).db.groups[g] == db.groups[g]
  {}

  lemma EndingsKeepGroups(db: Db, s: Step)
    requires IsEnding(s)
    ensures Apply(db, s).db.groups == db.groups
  {
    TerminalAnswers(db, s, s.capture, s.write);
    if Apply(db, s).out == Won { WonWrites(db, s, s.capture, s.write); }
  }

  /** Over any run, while a group is retained: what its first completion wrote is what every later reader sees, and no
      later completion changes anything. */
  lemma {:induction false} GroupEndsOnce(r: Run, i: nat, j: nat, g: Id)
    requires IsRun(r) && i < j < |r.states| && r.steps[i].CompleteGroup? && r.steps[i].groupId == g
    requires Completes(r.states[i], g, r.steps[i].state)
    requires forall m :: i <= m <= j ==> g in r.states[m].groups
    ensures EndedGroup(r.states[j].groups[g], r.states[i].groups[g], r.steps[i])
    ensures r.states[j].groups[g] == r.states[i + 1].groups[g] && !Completes(r.states[j], g, r.steps[i].state)
    decreases j
  {
    if j == i + 1 {
      CompletedInRun(r, i);
    } else {
      GroupEndsOnce(r, i, j - 1, g);
      EndedInRun(r, j - 1, g);
    }
  }

  lemma CompletedInRun(r: Run, i: nat)
    requires IsRun(r) && i < |r.steps| && r.steps[i].CompleteGroup?
    requires Completes(r.states[i], r.steps[i].groupId, r.steps[i].state)
    ensures
      var g := r.steps[i].groupId;
      g in r.states[i + 1].groups && EndedGroup(r.states[i + 1].groups[g], r.states[i].groups[g], r.steps[i])
  {
    assert StepOf(r, i);
    RunKeeps(r, i);
    CompleteGroupWrites(r.states[i], r.steps[i]);
  }

  lemma EndedInRun(r: Run, i: nat, g: Id)
    requires IsRun(r) && i < |r.steps| && g in r.states[i].groups && g in r.states[i + 1].groups
    requires r.states[i].groups[g].state in ENDED
    ensures r.states[i + 1].groups[g] == r.states[i].groups[g]
  {
    assert StepOf(r, i);
    RunKeeps(r, i);
    GroupRowFollows(r.states[i], r.steps[i], g);
  }

  // ---- Commands -------------------------------------------------------------------------------------------------

  /** Opening a command: a known key answers by its hash, a new one opens a ledger in progress. */
  lemma BeginCommandAnswers(db: Db, key: LedgerKey, hash: Hash, request: Text, at: int)
    ensures
      var after, out := Apply(db, BeginCommand(key, hash, request, at)).db, Apply(db, BeginCommand(key, hash, request, at)).out;
      && (out == Failure(Invalid) <==> !UsableKey(key))
      && (out == CommandExisting <==> UsableKey(key) && key in db.ledgers && db.ledgers[key].target.hash == hash)
      && (out == Conflict <==> UsableKey(key) && key in db.ledgers && db.ledgers[key].target.hash != hash)
      && (out == CommandStarted <==> UsableKey(key) && key !in db.ledgers)
      && (if out == CommandStarted then
            && key in after.ledgers && IsNewLedger(after.ledgers[key], hash, request, at, None, None)
            && after == db.(ledgers := db.ledgers[key := after.ledgers[key]])
          else after == db)
  {
    assert Apply(db, BeginCommand(key, hash, request, at)) == BeginCommandStep(db, key, hash, request, at);
  }

  /** An acceptance reply reaches exactly a ledger in progress, and only its reply and time change. */
  lemma RecordAcceptanceAnswers(db: Db, key: LedgerKey, reply: Body, at: int)
    ensures
      var after, out := Apply(db, RecordAcceptance(key, reply, at)).db, Apply(db, RecordAcceptance(key, reply, at)).out;
      && (out == Failure(Invalid) <==> !UsableKey(key))
      && (out == Failure(NotFound) <==> UsableKey(key) && key !in db.ledgers)
      && (out == Done <==> UsableKey(key) && key in db.ledgers)
      && (if out == Done && db.ledgers[key].state == InProgress then
            && key in after.ledgers && after == db.(ledgers := db.ledgers[key := after.ledgers[key]])
            && after.ledgers[key].reply == Some(reply) && after.ledgers[key].updatedAt == at
            && after.ledgers[key].state == InProgress && after.ledgers[key].target == db.ledgers[key].target
            && after.ledgers[key].errorCode == db.ledgers[key].errorCode
            && after.ledgers[key].errorMessage == db.ledgers[key].errorMessage
          else after == db)
  {
    assert Apply(db, RecordAcceptance(key, reply, at)) == RecordAcceptanceStep(db, key, reply, at);
  }

  /** Completing a command settles exactly a ledger in progress, as SUCCEEDED or FAILED as asked. */
  lemma CompleteCommandAnswers(db: Db, s: Step)
    requires s.CompleteCommand?
    ensures
      var after, out := Apply(db, s).db, Apply(db, s).out;
      var asked := UsableKey(s.key) && s.outcome in {LedgerSucceeded, LedgerFailed};
      && (out == Failure(Invalid) <==> !asked)
      && (out == Failure(NotFound) <==> asked && s.key !in db.ledgers)
      && (out == Done <==> asked && s.key in db.ledgers)
      && (if out == Done && db.ledgers[s.key].state == InProgress then
            && s.key in after.ledgers && after == db.(ledgers := db.ledgers[s.key := after.ledgers[s.key]])
            && after.ledgers[s.key].state == s.outcome
            && SettledRow(after.ledgers[s.key], db.ledgers[s.key], s.outcome == LedgerSucceeded, s.at, s.reply, s.code, s.message)
          else after == db)
  {
    MessageIsCut(s.message);
    assert Apply(db, s) == CompleteCommandStep(db, s.key, s.outcome, s.reply, s.code, s.message, s.at);
  }

  // ---- Crash recovery ---------------------------------------------------------------------------------------------

  predicate StandsAlone(l: Ledger) { l.target.captureId == None && l.target.groupId == None }

  /** Only state and time differ. */
  predicate OnlyRestated(l: Ledger, was: Ledger) {
    l.target == was.target && l.reply == was.reply && l.errorCode == was.errorCode && l.errorMessage == was.errorMessage
  }

  /** Marking: exactly the standalone rows in progress become unknown, at the step's time, and keep the rest. */
  lemma MarkUnknownAnswers(db: Db, at: int)
    ensures
      var after := Apply(db, MarkUnknown(at)).db;
      && Apply(db, MarkUnknown(at)).out == Done
      && after == db.(ledgers := after.ledgers) && after.ledgers.Keys == db.ledgers.Keys
      && forall k :: k in db.ledgers ==>
           var l, was := after.ledgers[k], db.ledgers[k];
           && OnlyRestated(l, was)
           && !(StandsAlone(l) && l.state == InProgress)
           && (l.state == OutcomeUnknown <==> was.state == OutcomeUnknown || (StandsAlone(was) && was.state == InProgress))
           && (if StandsAlone(was) && was.state == InProgress then l.updatedAt == at else l == was)
  {
    assert Apply(db, MarkUnknown(at)) == MarkUnknownStep(db, at);
  }

  /** Settling: exactly the standalone reconnect rows that are unresolved become SUCCEEDED, at the step's time. */
  lemma SettleReconnectsAnswers(db: Db, at: int)
    ensures
      var after := Apply(db, SettleReconnects(at)).db;
      && Apply(db, SettleReconnects(at)).out == Done
      && after == db.(ledgers := after.ledgers) && after.ledgers.Keys == db.ledgers.Keys
      && forall k :: k in db.ledgers ==>
           var l, was := after.ledgers[k], db.ledgers[k];
           && OnlyRestated(l, was)
           && (if k.verb == Ascii("sb/reconnect") && StandsAlone(was) && was.state in {InProgress, OutcomeUnknown}
               then l.state == LedgerSucceeded && l.updatedAt == at else l == was)
  {
    ReconnectVerb();
    assert Apply(db, SettleReconnects(at)) == SettleReconnectsStep(db, at);
  }

  lemma ReconnectVerb()
    ensures RECONNECT_VERB == Ascii("sb/reconnect")
  {}

  /** The step opens this command. */
  predicate Opens(s: Step, out: Outcome, k: LedgerKey) {
    s.BeginCommand? && s.key == k && out == CommandStarted
  }

  /** How a standalone ledger comes to be unresolved. */
  ghost predicate UnresolvedFrom(db: Db, s: Step, after: Db, out: Outcome, k: LedgerKey) {
    k in after.ledgers && StandsAlone(after.ledgers[k]) ==>
      || (k !in db.ledgers && after.ledgers[k].state == InProgress && Opens(s, out, k))
      || (k in db.ledgers && StandsAlone(db.ledgers[k])
          && (after.ledgers[k].state == InProgress ==> db.ledgers[k].state == InProgress && !s.MarkUnknown?)
          && (after.ledgers[k].state == OutcomeUnknown ==>
                db.ledgers[k].state == OutcomeUnknown || (db.ledgers[k].state == InProgress && s.MarkUnknown?))
          && (s.SettleReconnects? && k.verb == Ascii("sb/reconnect") ==> after.ledgers[k].state !in {InProgress, OutcomeUnknown}))
  }

  /** No ledger is new, and those that stay are as they were or finished. */
  ghost predicate OnlyFinishes(db: Db, after: Db) {
    forall k :: k in after.ledgers ==>
      k in db.ledgers && after.ledgers[k].target == db.ledgers[k].target
      && (after.ledgers[k] == db.ledgers[k] || IsFinished(after.ledgers[k]))
  }

  lemma UnresolvedAfterAccept(db: Db, s: Step, k: LedgerKey)
    requires IsAccept(s)
    ensures UnresolvedFrom(db, s, Accept(db, s).db, Accept(db, s).out, k)
  {
    if k in Accept(db, s).db.ledgers { AcceptedLedgersLead(db, s, k); }
  }

  /** A ledger that acceptance opens leads to a capture or a group. */
  lemma AcceptedLedgersLead(db: Db, s: Step, k: LedgerKey)
    requires IsAccept(s) && k in Accept(db, s).db.ledgers
    ensures k in db.ledgers ==> Accept(db, s).db.ledgers[k] == db.ledgers[k]
    ensures k !in db.ledgers ==> !StandsAlone(Accept(db, s).db.ledgers[k])
  {}

  lemma EndingsOnlyFinish(db: Db, s: Step)
    requires IsEnding(s)
    ensures OnlyFinishes(db, Apply(db, s).db)
  {
    TerminalAnswers(db, s, s.capture, s.write);
    if Apply(db, s).out == Won { WonSettlesLedgers(db, s, s.capture, s.write); }
  }

  lemma OthersOnlyFinish(db: Db, s: Step)
    requires !IsEnding(s) && !IsAccept(s) && !IsCommand(s) && !IsRecovery(s)
    ensures OnlyFinishes(db, Apply(db, s).db)
  {
    if IsPrune(s) {
      assert Apply(db, s) == Prune(db, s);
    } else if IsProgress(s) {
      assert Apply(db, s) == Progress(db, s);
    } else {
      assert Apply(db, s) == GroupMove(db, s);
    }
  }

  lemma UnresolvedAfter(db: Db, s: Step, k: LedgerKey)
    ensures UnresolvedFrom(db, s, Apply(db, s).db, Apply(db, s).out, k)
  {
    if IsRecovery(s) {
      UnresolvedAfterRecovery(db, s, k);
    } else if IsCommand(s) {
      UnresolvedAfterCommand(db, s, k);
    } else if IsAccept(s) {
      assert Apply(db, s) == Accept(db, s);
      UnresolvedAfterAccept(db, s, k);
    } else if IsEnding(s) {
      EndingsOnlyFinish(db, s);
    } else {
      OthersOnlyFinish(db, s);
    }
  }

  lemma UnresolvedAfterRecovery(db: Db, s: Step, k: LedgerKey)
    requires IsRecovery(s)
    ensures UnresolvedFrom(db, s, Apply(db, s).db, Apply(db, s).out, k)
  {
    match s
    case MarkUnknown(at) => MarkUnknownAnswers(db, at);
    case SettleReconnects(at) => SettleReconnectsAnswers(db, at);
  }

  lemma UnresolvedAfterCommand(db: Db, s: Step, k: LedgerKey)
    requires IsCommand(s)
    ensures UnresolvedFrom(db, s, Apply(db, s).db, Apply(db, s).out, k)
  {
    match s
    case BeginCommand(key, hash, request, at) => BeginCommandAnswers(db, key, hash, request, at);
    case RecordAcceptance(key, reply, at) => RecordAcceptanceAnswers(db, key, reply, at);
    case CompleteCommand(_, _, _, _, _, _) => CompleteCommandAnswers(db, s);
  }

  /** Some command opened the key between two moments of a run. */
  ghost predicate OpenedBetween(r: Run, i: int, n: int, k: LedgerKey)
    requires |r.outs| == |r.steps|
  {
    exists j {:trigger r.steps[j]} :: 0 <= j < |r.steps| && i < j < n && Opens(r.steps[j], r.outs[j], k)
  }

  /** Over any run: after outcomes were marked, a standalone command in progress was opened since. */
  lemma {:induction false} RunningIsNew(r: Run, i: nat, n: nat, k: LedgerKey)
    requires IsRun(r) && i < n < |r.states| && r.steps[i].MarkUnknown?
    requires k in r.states[n].ledgers && StandsAlone(r.states[n].ledgers[k]) && r.states[n].ledgers[k].state == InProgress
    ensures OpenedBetween(r, i, n, k)
    decreases n
  {
    assert StepOf(r, n - 1);
    UnresolvedAfter(r.states[n - 1], r.steps[n - 1], k);
    if Opens(r.steps[n - 1], r.outs[n - 1], k) {
      assert i < n - 1 < n;
    } else {
      RunningIsNew(r, i, n - 1, k);
      var j :| 0 <= j < |r.steps| && i < j < n - 1 && Opens(r.steps[j], r.outs[j], k);
    }
  }

  /** Over any run: after reconnects were settled, an unresolved standalone reconnect was opened since. */
  lemma {:induction false} UnresolvedReconnectIsNew(r: Run, i: nat, n: nat, k: LedgerKey)
    requires IsRun(r) && i < n < |r.states| && r.steps[i].SettleReconnects? && k.verb == Ascii("sb/reconnect")
    requires k in r.states[n].ledgers && StandsAlone(r.states[n].ledgers[k])
    requires r.states[n].ledgers[k].state in {InProgress, OutcomeUnknown}
    ensures OpenedBetween(r, i, n, k)
    decreases n
  {
    assert StepOf(r, n - 1);
    UnresolvedAfter(r.states[n - 1], r.steps[n - 1], k);
    if Opens(r.steps[n - 1], r.outs[n - 1], k) {
      assert i < n - 1 < n;
    } else {
      UnresolvedReconnectIsNew(r, i, n - 1, k);
      var j :| 0 <= j < |r.steps| && i < j < n - 1 && Opens(r.steps[j], r.outs[j], k);
    }
  }

  /** After both recovery steps, in either order and whatever else ran: a standalone ledger that no command has opened
      since the earlier of them is finished, or its outcome is unknown and it is not a reconnect. */
  lemma RecoveryLeavesNoneRunning(r: Run, settled: nat, marked: nat, n: nat, k: LedgerKey)
    requires IsRun(r) && settled < n < |r.states| && marked < n
    requires r.steps[settled].SettleReconnects? && r.steps[marked].MarkUnknown?
    requires k in r.states[n].ledgers && StandsAlone(r.states[n].ledgers[k])
    requires !OpenedBetween(r, settled, n, k) && !OpenedBetween(r, marked, n, k)
    ensures r.states[n].ledgers[k].state != InProgress
    ensures r.states[n].ledgers[k].state == OutcomeUnknown ==> k.verb != Ascii("sb/reconnect")
  {
    if r.states[n].ledgers[k].state == InProgress { RunningIsNew(r, marked, n, k); }
    if r.states[n].ledgers[k].state == OutcomeUnknown && k.verb == Ascii("sb/reconnect") {
      UnresolvedReconnectIsNew(r, settled, n, k);
    }
  }
}
