/** What each transaction on a capture answers, as conditions on the rows themselves, and what it writes. The
    conditions are spelled out over columns and literal states; they share no check with the transactions. */
module CatalogAnswers {
  import opened Texts
  import opened Options
  import opened JobStates
  import opened CatalogModel
  import opened CatalogInvariant

  // ---- Requests, column by column ---------------------------------------------------------------------------

  const ENDED: set<JobState> := {Succeeded, Failed, Cancelled, Interrupted}

  /** Every stage deadline that is set. */
  function StageDeadlines(d: Deadlines): set<int> {
    {d.captureAt, d.encodeAt, d.persistAt} + (if d.queueAt.Some? then {d.queueAt.value} else {})
  }

  predicate InTime(d: Deadlines) { forall t :: t in StageDeadlines(d) ==> t <= d.terminalAt }

  predicate UsableKey(k: LedgerKey) { |k.instance| > 0 && |k.verb| > 0 && 1 <= |k.requestId| <= 256 }

  predicate Presentable(n: NewJob) {
    && |n.captureId| > 0 && |n.instance| > 0 && InTime(n.deadlines) && n.groupId == None
    && (n.key == None || (UsableKey(n.key.value) && n.key.value.instance == n.instance))
  }

  predicate Filled(field: Option<Text>) { field.Some? && |field.value| > 0 }

  /** A terminal write that the catalog takes: a version 1 body with its four ids, no error on a success, an error
      code on a failure or an interruption. */
  predicate Complete(w: TerminalWrite) {
    && w.state in ENDED && w.result.Body? && w.result.schemaVersion == Some(1)
    && Filled(w.result.eventId) && Filled(w.result.captureId) && Filled(w.result.cameraId) && Filled(w.result.correlationId)
    && match w.state
       case Succeeded => w.errorCode == None && w.errorMessage == None
       case Cancelled => true
       case _ => w.errorCode != None
  }

  /** The body is about this row: its capture, its camera, its group, and whoever asked for it. */
  predicate About(body: Body, c: Id, job: Job) {
    && body.Body? && body.captureId == Some(c) && body.cameraId == Some(job.id.instance) && body.groupId == job.id.groupId
    && (job.id.origin == None || body.correlationId == job.id.origin)
  }

  predicate IsDigest(t: Text) {
    |t| == 64 && forall b :: b in t ==> (0x30 <= b <= 0x39 || 0x61 <= b <= 0x66)
  }

  predicate Prepared(p: PendingInstall) {
    && |p.partialPath| > 0 && |p.finalPath| > 0 && p.partialPath != p.finalPath
    && IsDigest(p.expectedSha) && p.expectedBytes < 0x8000_0000_0000_0000
    && p.success.state == Succeeded && Complete(p.success)
  }

  lemma DeadlineWords(d: Deadlines)
    ensures CoherentDeadlines(d) <==> InTime(d)
  {
    assert forall e :: d.queueAt == Some(e) ==> e in StageDeadlines(d);
    assert {d.captureAt, d.encodeAt, d.persistAt} <= StageDeadlines(d);
  }

  lemma WriteWords(w: TerminalWrite)
    ensures ValidWrite(w) <==> Complete(w)
  {}

  lemma PendingWords(p: PendingInstall)
    ensures ValidPending(p) <==> Prepared(p)
  {
    DigestWords(p.expectedSha);
    WriteWords(p.success);
  }

  lemma DigestWords(t: Text)
    ensures IsSha256(t) <==> IsDigest(t)
  {
    assert forall i :: 0 <= i < |t| ==> t[i] in t;
  }

  lemma AboutWords(body: Body, c: Id, job: Job)
    ensures BodyMatches(body, c, job.id) <==> About(body, c, job)
  {}

  // ---- Acceptance ---------------------------------------------------------------------------------------------

  /** The capture that a key stands for: the one its own row names, or else the one that the camera already holds
      under that request id through another verb. */
  predicate StandsFor(db: Db, key: LedgerKey, c: Id) {
    if key in db.ledgers then db.ledgers[key].target.captureId == Some(c)
    else
      && c in db.jobs && db.jobs[c].id.instance == key.instance
      && db.jobs[c].id.key.Some? && db.jobs[c].id.key.value.requestId == key.requestId
  }

  /** What the key stands for was asked with another hash. */
  ghost predicate Contradicted(db: Db, key: LedgerKey, hash: Hash) {
    if key in db.ledgers then db.ledgers[key].target.hash != hash
    else exists c :: StandsFor(db, key, c) && db.jobs[c].id.hash != hash
  }

  /** In every state that satisfies the invariant, each answer to a request that carries a key. */
  lemma AcceptAnswers(db: Db, n: NewJob)
    requires Inv(db)
    ensures
      var out := Apply(db, AcceptJob(n)).out;
      var asked := Presentable(n) && n.key != None;
      && (out == Failure(Invalid) <==> !asked)
      && (forall c :: out == Existing(c) <==>
            asked && StandsFor(db, n.key.value, c) && c in db.jobs && db.jobs[c].id.hash == n.hash)
      && (out == Conflict <==> asked && Contradicted(db, n.key.value, n.hash))
      && (out == Failure(LedgerWithoutTarget) <==>
            && asked && n.key.value in db.ledgers && db.ledgers[n.key.value].target.hash == n.hash
            && db.ledgers[n.key.value].target.captureId == None)
      && (forall c :: out == Inserted(c) <==>
            && asked && c == n.captureId && c !in db.jobs && n.key.value !in db.ledgers
            && !exists d :: StandsFor(db, n.key.value, d))
      && (out == Failure(UniqueCapture) <==>
            && asked && n.captureId in db.jobs && n.key.value !in db.ledgers
            && !exists d :: StandsFor(db, n.key.value, d))
  {
    AcceptWords(n);
    var out := AcceptJobStep(db, n).out;
    assert Apply(db, AcceptJob(n)).out == out;
    if Presentable(n) && n.key != None {
      var key := n.key.value;
      if key in db.ledgers {
        assert LedgerRefs(db, key);
      } else {
        HoldersAre(db, n);
      }
    }
  }

  lemma AcceptWords(n: NewJob)
    ensures ValidNewJob(n, false) <==> Presentable(n)
  {
    DeadlineWords(n.deadlines);
  }

  lemma HoldersAre(db: Db, n: NewJob)
    requires Inv(db) && n.key.Some? && n.key.value.instance == n.instance && n.key.value !in db.ledgers
    ensures forall c :: StandsFor(db, n.key.value, c) <==> Owns(db, c, n.instance, n.key.value.requestId)
    ensures Owned(db, n.instance, n.key.value.requestId) <==> exists c :: StandsFor(db, n.key.value, c)
    ensures forall c, d :: StandsFor(db, n.key.value, c) && StandsFor(db, n.key.value, d) ==> c == d
  {
    assert forall c :: StandsFor(db, n.key.value, c) <==> Owns(db, c, n.instance, n.key.value.requestId);
  }

  /** A job row as acceptance writes it: the request column by column, in ACCEPTED, with nothing else set. */
  predicate IsNewRow(job: Job, n: NewJob) {
    && job.id.instance == n.instance && job.id.key == n.key && job.id.hash == n.hash && job.id.material == n.material
    && job.id.origin == n.origin && job.id.groupId == n.groupId && job.id.acceptedAt == n.acceptedAt
    && job.deadlines == n.deadlines && job.state == Accepted && job.queuedAt == None && job.ending == None
    && job.artifact.partialPath == None && job.artifact.finalPath == None && job.artifact.expectedSha == None
    && job.artifact.expectedBytes == None && job.artifact.installedSha == None && job.artifact.installedBytes == None
    && !job.artifact.installStarted
  }

  /** A ledger row as it is opened. */
  predicate IsNewLedger(l: Ledger, hash: Hash, request: Text, at: int, capture: Option<Id>, group: Option<Id>) {
    && l.target.hash == hash && l.target.request == request && l.target.createdAt == at
    && l.target.captureId == capture && l.target.groupId == group
    && l.state == InProgress && l.updatedAt == at && l.reply == None && l.errorCode == None && l.errorMessage == None
  }

  /** An inserted request writes a new row and its ledger. */
  lemma InsertedWrites(db: Db, n: NewJob)
    requires Apply(db, AcceptJob(n)).out.Inserted?
    ensures
      var after := Apply(db, AcceptJob(n)).db;
      && n.key != None && n.key.value in after.ledgers && n.captureId in after.jobs && IsNewRow(after.jobs[n.captureId], n)
      && IsNewLedger(after.ledgers[n.key.value], n.hash, n.material, n.acceptedAt, Some(n.captureId), None)
      && after == db.(jobs := db.jobs[n.captureId := after.jobs[n.captureId]],
                      ledgers := db.ledgers[n.key.value := after.ledgers[n.key.value]])
  {
    assert Apply(db, AcceptJob(n)) == AcceptJobStep(db, n);
  }

  /** A retry under a key of its own opens a ledger for the capture it hears of; every other answer writes nothing. */
  lemma RetryWrites(db: Db, n: NewJob)
    requires !Apply(db, AcceptJob(n)).out.Inserted?
    ensures
      var after, out := Apply(db, AcceptJob(n)).db, Apply(db, AcceptJob(n)).out;
      if out.Existing? && n.key.Some? && n.key.value !in db.ledgers then
        && n.key.value in after.ledgers
        && IsNewLedger(after.ledgers[n.key.value], n.hash, n.material, n.acceptedAt, Some(out.id), None)
        && after == db.(ledgers := db.ledgers[n.key.value := after.ledgers[n.key.value]])
      else after == db
  {
    assert Apply(db, AcceptJob(n)) == AcceptJobStep(db, n);
  }

  /** Each answer to a scheduled request, and what it writes. */
  lemma ScheduledAnswers(db: Db, n: NewJob, schedule: Text, fireAt: int)
    requires Inv(db)
    ensures
      var after, out := Apply(db, AcceptScheduled(n, schedule, fireAt)).db, Apply(db, AcceptScheduled(n, schedule, fireAt)).out;
      var slot := Occurrence(n.instance, schedule, fireAt);
      var asked := Presentable(n) && n.key == None && |schedule| > 0;
      && (out == Failure(Invalid) <==> !asked)
      && (forall c :: out == Existing(c) <==> asked && slot in db.occurrences && db.occurrences[slot] == c)
      && (out == Conflict <==> asked && slot !in db.occurrences && n.captureId in db.jobs)
      && (forall c :: out == Inserted(c) <==> asked && slot !in db.occurrences && n.captureId !in db.jobs && c == n.captureId)
      && (if out.Inserted? then
            && n.captureId in after.jobs && IsNewRow(after.jobs[n.captureId], n)
            && after == db.(jobs := db.jobs[n.captureId := after.jobs[n.captureId]],
                            occurrences := db.occurrences[slot := n.captureId])
          else after == db)
  {
    AcceptWords(n);
    var slot := Occurrence(n.instance, schedule, fireAt);
    if slot in db.occurrences { assert OccurrenceRefs(db, slot); }
    if n.captureId in db.occurrences.Values {
      var o :| o in db.occurrences && db.occurrences[o] == n.captureId;
      assert OccurrenceRefs(db, o);
    }
    assert Apply(db, AcceptScheduled(n, schedule, fireAt)) == AcceptScheduledStep(db, n, schedule, fireAt);
  }

  predicate PresentableMember(n: NewJob, g: Id) {
    |n.captureId| > 0 && |n.instance| > 0 && InTime(n.deadlines) && n.groupId == Some(g) && n.key == None
  }

  /** At least two members, each for this group, no capture and no camera twice. */
  predicate PresentableGroup(n: NewGroup) {
    && |n.groupId| > 0 && UsableKey(n.key) && |n.members| > 1
    && (forall i :: 0 <= i < |n.members| ==> PresentableMember(n.members[i], n.groupId))
    && (forall i, j :: 0 <= i < |n.members| && 0 <= j < |n.members| && i != j ==>
          n.members[i].captureId != n.members[j].captureId && n.members[i].instance != n.members[j].instance)
  }

  lemma GroupWords(n: NewGroup)
    ensures ValidNewGroup(n) <==> PresentableGroup(n)
  {
    forall i | 0 <= i < |n.members|
      ensures ValidNewJob(n.members[i], true) && n.members[i].groupId == Some(n.groupId) <==> PresentableMember(n.members[i], n.groupId)
    {
      DeadlineWords(n.members[i].deadlines);
    }
    if ValidNewGroup(n) {
      forall i, j | 0 <= i < |n.members| && 0 <= j < |n.members| && i != j
        ensures n.members[i].captureId != n.members[j].captureId && n.members[i].instance != n.members[j].instance
      {
        if i < j { assert n.members[i].captureId != n.members[j].captureId; }
        else { assert n.members[j].captureId != n.members[i].captureId; }
      }
    }
  }

  /** Each answer to a group request. */
  lemma GroupAnswers(db: Db, n: NewGroup)
    requires Inv(db)
    ensures
      var out := Apply(db, AcceptGroup(n)).out;
      var asked := PresentableGroup(n);
      var known := n.key in db.ledgers;
      && (out == Failure(Invalid) <==> !asked)
      && (out == Conflict <==> asked && known && db.ledgers[n.key].target.hash != n.hash)
      && (forall g :: out == Existing(g) <==>
            asked && known && db.ledgers[n.key].target.hash == n.hash && db.ledgers[n.key].target.groupId == Some(g))
      && (out == Failure(LedgerWithoutTarget) <==>
            asked && known && db.ledgers[n.key].target.hash == n.hash && db.ledgers[n.key].target.groupId == None)
      && (out == Failure(UniqueGroup) <==> asked && !known && n.groupId in db.groups)
      && (forall g :: out == Inserted(g) <==>
            && asked && !known && g == n.groupId && g !in db.groups
            && forall m :: m in n.members ==> m.captureId !in db.jobs)
  {
    GroupWords(n);
    if n.key in db.ledgers { assert LedgerRefs(db, n.key); }
    assert Apply(db, AcceptGroup(n)) == AcceptGroupStep(db, n);
    assert forall i :: 0 <= i < |n.members| ==> n.members[i] in n.members;
  }

  // ---- Progress -------------------------------------------------------------------------------------------------

  /** Nothing but this row changed. */
  predicate OnlyRow(db: Db, after: Db, c: Id) {
    c in db.jobs && c in after.jobs && after == db.(jobs := db.jobs[c := after.jobs[c]])
  }

  /** A guarded move is one of three; it happens exactly when the row is where the caller expects it. */
  lemma MoveAnswers(db: Db, c: Id, expected: JobState, next: JobState, at: int)
    ensures
      var after, out := Apply(db, CompareAndSet(c, expected, next, at)).db, Apply(db, CompareAndSet(c, expected, next, at)).out;
      var asked := (expected, next) in {(Accepted, Queued), (Queued, Acquiring), (Acquiring, Encoding)};
      && (out == Failure(Invalid) <==> !asked)
      && (out == Failure(NotFound) <==> asked && c !in db.jobs)
      && (out == NotChanged <==> asked && c in db.jobs && db.jobs[c].state != expected)
      && (out == Changed <==> asked && c in db.jobs && db.jobs[c].state == expected)
      && (if out == Changed then
            var row, was := after.jobs[c], db.jobs[c];
            && OnlyRow(db, after, c) && row.state == next && row.queuedAt == (if next == Queued then Some(at) else was.queuedAt)
            && row.id == was.id && row.deadlines == was.deadlines && row.artifact == was.artifact && row.ending == was.ending
          else after == db)
  {
    assert Apply(db, CompareAndSet(c, expected, next, at)) == CompareAndSetStep(db, c, expected, next, at);
  }

  /** Only a QUEUED row is rebased, and only its deadlines change. */
  lemma RescheduleAnswers(db: Db, c: Id, d: Deadlines)
    ensures
      var after, out := Apply(db, Reschedule(c, d)).db, Apply(db, Reschedule(c, d)).out;
      var asked := |c| > 0 && InTime(d);
      && (out == Failure(Invalid) <==> !asked)
      && (out == Failure(NotFound) <==> asked && c !in db.jobs)
      && (out == Failure(WrongState) <==> asked && c in db.jobs && db.jobs[c].state != Queued)
      && (out == Done <==> asked && c in db.jobs && db.jobs[c].state == Queued)
      && (if out == Done then
            var row, was := after.jobs[c], db.jobs[c];
            && OnlyRow(db, after, c) && row.deadlines == d && row.id == was.id && row.state == was.state
            && row.queuedAt == was.queuedAt && row.artifact == was.artifact && row.ending == was.ending
          else after == db)
  {
    DeadlineWords(d);
    assert Apply(db, Reschedule(c, d)) == RescheduleStep(db, c, d);
  }

  // ---- Persisting and installation ------------------------------------------------------------------------------

  lemma PersistAnswers(db: Db, c: Id, p: PendingInstall)
    requires Inv(db)
    ensures
      var out := Apply(db, BeginPersisting(c, p)).out;
      && (out == Failure(Invalid) <==> !Prepared(p))
      && (out == Failure(NotFound) <==> Prepared(p) && c !in db.jobs)
      && (out == Failure(Mismatch) <==> Prepared(p) && c in db.jobs && !About(p.success.result, c, db.jobs[c]))
      && (out == NotChanged <==>
            && Prepared(p) && c in db.jobs && About(p.success.result, c, db.jobs[c])
            && db.jobs[c].state !in {Acquiring, Encoding})
      && (out == Changed <==>
            && Prepared(p) && c in db.jobs && About(p.success.result, c, db.jobs[c])
            && db.jobs[c].state in {Acquiring, Encoding})
  {
    PendingWords(p);
    if c in db.jobs { assert JobGood(db, c); AboutWords(p.success.result, c, db.jobs[c]); }
    assert Apply(db, BeginPersisting(c, p)) == BeginPersistingStep(db, c, p);
  }

  /** Entering PERSISTING writes the four prepared columns and the staged success, and nothing else. */
  lemma PersistWrites(db: Db, c: Id, p: PendingInstall)
    ensures
      var after, out := Apply(db, BeginPersisting(c, p)).db, Apply(db, BeginPersisting(c, p)).out;
      if out == Changed then
        && c in db.jobs && c in after.jobs && c !in db.staged && c in after.staged
        && after == db.(jobs := db.jobs[c := after.jobs[c]], staged := db.staged[c := after.staged[c]])
        && after.staged[c].result == p.success.result && after.staged[c].terminalAt == p.success.terminalAt
        && var row, was := after.jobs[c], db.jobs[c];
        && row.state == Persisting && row.id == was.id && row.deadlines == was.deadlines && row.queuedAt == was.queuedAt
        && row.ending == was.ending && row.artifact.partialPath == Some(p.partialPath)
        && row.artifact.finalPath == Some(p.finalPath) && row.artifact.expectedSha == Some(p.expectedSha)
        && row.artifact.expectedBytes == Some(p.expectedBytes) && row.artifact.installedSha == was.artifact.installedSha
        && row.artifact.installedBytes == was.artifact.installedBytes
        && row.artifact.installStarted == was.artifact.installStarted
      else after == db
  {
    assert Apply(db, BeginPersisting(c, p)) == BeginPersistingStep(db, c, p);
  }

  /** The installation starts exactly once, on a PERSISTING row. */
  lemma InstallAnswers(db: Db, c: Id)
    ensures
      var after, out := Apply(db, BeginInstall(c)).db, Apply(db, BeginInstall(c)).out;
      && (out == Failure(NotFound) <==> c !in db.jobs)
      && (out == InstallWrongState <==> c in db.jobs && db.jobs[c].state != Persisting)
      && (out == AlreadyStarted <==> c in db.jobs && db.jobs[c].state == Persisting && db.jobs[c].artifact.installStarted)
      && (out == Started <==> c in db.jobs && db.jobs[c].state == Persisting && !db.jobs[c].artifact.installStarted)
      && (if out == Started then
            && OnlyRow(db, after, c) && after.jobs[c].artifact.installStarted
            && after.jobs[c].(artifact := db.jobs[c].artifact) == db.jobs[c]
            && after.jobs[c].artifact.(installStarted := false) == db.jobs[c].artifact
          else after == db)
  {
    assert Apply(db, BeginInstall(c)) == BeginInstallStep(db, c);
  }

  /** Installed facts are recorded exactly when they are the expected ones of a row that is installing. */
  lemma InstalledAnswers(db: Db, c: Id, sha: Text, bytes: nat)
    requires Inv(db)
    ensures
      var after, out := Apply(db, RecordInstalled(c, sha, bytes)).db, Apply(db, RecordInstalled(c, sha, bytes)).out;
      var asked := IsDigest(sha) && bytes < 0x8000_0000_0000_0000;
      && (out == Failure(Invalid) <==> !asked)
      && (out == Failure(NotFound) <==> asked && c !in db.jobs)
      && (out == Done <==>
            && asked && c in db.jobs && db.jobs[c].state == Persisting && db.jobs[c].artifact.installStarted
            && db.jobs[c].artifact.expectedSha == Some(sha) && db.jobs[c].artifact.expectedBytes == Some(bytes))
      && (out == Failure(WrongState) <==>
            && asked && c in db.jobs && db.jobs[c].state == Persisting && !db.jobs[c].artifact.installStarted
            && db.jobs[c].artifact.expectedSha == Some(sha) && db.jobs[c].artifact.expectedBytes == Some(bytes))
      && (if out == Done then
            && OnlyRow(db, after, c) && after.jobs[c].(artifact := db.jobs[c].artifact) == db.jobs[c]
            && after.jobs[c].artifact.installedSha == Some(sha) && after.jobs[c].artifact.installedBytes == Some(bytes)
            && after.jobs[c].artifact.(installedSha := None, installedBytes := None)
               == db.jobs[c].artifact.(installedSha := None, installedBytes := None)
          else after == db && out.Failure?)
  {
    DigestWords(sha);
    if c in db.jobs { assert JobGood(db, c); }
    assert Apply(db, RecordInstalled(c, sha, bytes)) == RecordInstalledStep(db, c, sha, bytes);
  }

  // ---- Terminal arbitration ---------------------------------------------------------------------------------------

  /** The three transactions that end a capture. */
  predicate Ends(s: Step, c: Id, w: TerminalWrite) {
    || s == CommitTerminal(c, w) || s == Cancel(c, w)
    || (s.InterruptRecovered? && s.capture == c && s.write == w)
  }

  /** The write fits the call: a cancellation writes CANCELLED, recovery writes INTERRUPTED over states that are not
      terminal, everything else writes anything but CANCELLED. */
  predicate Fits(s: Step, w: TerminalWrite) {
    && Complete(w)
    && match s
       case CommitTerminal(_, _) => w.state in {Succeeded, Failed, Interrupted}
       case Cancel(_, _) => w.state == Cancelled
       case InterruptRecovered(_, states, _) => w.state == Interrupted && |states| > 0 && states !! ENDED
       case _ => false
  }

  /** The row is not beyond this call: not terminal, and for recovery in one of the states it names. */
  predicate Open(s: Step, job: Job) {
    job.state !in ENDED && (s.InterruptRecovered? ==> job.state in s.states)
  }

  /** What a success needs: an installed artifact of a PERSISTING row, and the very result and time that were staged. */
  predicate Proven(db: Db, c: Id, w: TerminalWrite)
    requires c in db.jobs
  {
    var job := db.jobs[c];
    && job.state == Persisting && job.artifact.installStarted
    && job.artifact.partialPath != None && job.artifact.finalPath != None
    && job.artifact.expectedSha != None && job.artifact.expectedBytes != None
    && job.artifact.installedSha != None && job.artifact.installedBytes != None
    && c in db.staged && db.staged[c].result == w.result && db.staged[c].terminalAt == w.terminalAt
  }

  /** What any other ending needs: from ACCEPTED a job can only be interrupted. */
  predicate MayEnd(job: Job, state: JobState) {
    job.state == Accepted ==> state == Interrupted
  }

  /** When terminal arbitration does not come to a decision about the row, or finds it decided; and what is not won
      changes nothing. */
  lemma TerminalAnswers(db: Db, s: Step, c: Id, w: TerminalWrite)
    requires Ends(s, c, w)
    ensures
      var out := Apply(db, s).out;
      var known := Fits(s, w) && c in db.jobs;
      && (out == Failure(Invalid) <==> !Fits(s, w))
      && (out == Failure(NotFound) <==> Fits(s, w) && c !in db.jobs)
      && (out == AlreadyTerminal <==> known && db.jobs[c].state in ENDED)
      && (out == InstallationWon <==>
            known && s.Cancel? && Open(s, db.jobs[c]) && About(w.result, c, db.jobs[c]) && db.jobs[c].artifact.installStarted)
      && (out != Won ==> Apply(db, s).db == db)
  {
    WriteWords(w);
    if c in db.jobs { AboutWords(w.result, c, db.jobs[c]); }
    if s.InterruptRecovered? { NoEnded(s.states); }
    assert Apply(db, s) == End(db, s);
  }

  /** An ending is won exactly when it fits a row that is still open and about which it speaks, a cancellation before
      the installation started, a success with everything proven, and anything else from a state that may end so. */
  lemma WonExactly(db: Db, s: Step, c: Id, w: TerminalWrite)
    requires Ends(s, c, w)
    ensures Apply(db, s).out == Won <==>
      && Fits(s, w) && c in db.jobs && Open(s, db.jobs[c]) && About(w.result, c, db.jobs[c])
      && (s.Cancel? ==> !db.jobs[c].artifact.installStarted)
      && (if w.state == Succeeded then Proven(db, c, w) else MayEnd(db.jobs[c], w.state))
  {
    WriteWords(w);
    if s.InterruptRecovered? { NoEnded(s.states); }
    assert Apply(db, s) == End(db, s);
    if c in db.jobs {
      AboutWords(w.result, c, db.jobs[c]);
      if w.state == Succeeded { SuccessWords(db, c, w); }
    }
  }

  lemma NoEnded(states: set<JobState>)
    ensures states == {} || (exists t :: t in states && IsTerminal(t)) <==> !(|states| > 0 && states !! ENDED)
  {
    assert forall t :: IsTerminal(t) <==> t in ENDED;
    assert states == {} <==> |states| == 0;
  }

  lemma SuccessWords(db: Db, c: Id, w: TerminalWrite)
    requires w.state == Succeeded && c in db.jobs
    ensures Complete(w) ==> (Proven(db, c, w) <==> PendingSuccess(db, c) == Some(w) && ReadyToSucceed(db.jobs[c]))
  {
    if c in db.staged && Complete(w) {
      assert Rebuild(db.staged[c]) == w <==> db.staged[c].result == w.result && db.staged[c].terminalAt == w.terminalAt;
    }
  }

  /** The row a won ending leaves: the write's state, time, result and error, with its message cut to size; the
      expected checksum and size go unless it is a success; nothing else moves. */
  predicate FinalRow(row: Job, was: Job, w: TerminalWrite) {
    && row.id == was.id && row.deadlines == was.deadlines && row.queuedAt == was.queuedAt && row.state == w.state
    && row.ending.Some? && row.ending.value.at == w.terminalAt && row.ending.value.result == w.result
    && row.ending.value.errorCode == w.errorCode && CutMessage(row.ending.value.errorMessage, w.errorMessage)
    && row.artifact.partialPath == was.artifact.partialPath && row.artifact.finalPath == was.artifact.finalPath
    && row.artifact.installedSha == was.artifact.installedSha && row.artifact.installedBytes == was.artifact.installedBytes
    && row.artifact.installStarted == was.artifact.installStarted
    && row.artifact.expectedSha == (if w.state == Succeeded then was.artifact.expectedSha else None)
    && row.artifact.expectedBytes == (if w.state == Succeeded then was.artifact.expectedBytes else None)
  }

  /** The longest start of the message of at most 1024 bytes that cuts no character. */
  predicate CutMessage(cut: Option<Text>, message: Option<Text>) {
    && (cut == None <==> message == None)
    && (message.Some? ==>
          && cut.value <= message.value && |cut.value| <= 1024 && IsBoundary(message.value, |cut.value|)
          && forall n :: |cut.value| < n <= 1024 && n <= |message.value| ==> !IsBoundary(message.value, n))
  }

  lemma MessageIsCut(message: Option<Text>)
    ensures CutMessage(BoundedMessage(message), message)
  {
    if message.Some? { BoundedErrorIsLongest(message.value); }
  }

  /** The ledger row of something that has ended. */
  predicate SettledRow(l: Ledger, was: Ledger, succeeded: bool, at: int, reply: Body, code: Option<Text>, message: Option<Text>) {
    && l.target == was.target && l.state == (if succeeded then LedgerSucceeded else LedgerFailed) && l.updatedAt == at
    && l.reply == Some(reply) && l.errorCode == code && CutMessage(l.errorMessage, message)
  }

  lemma WonSettles(db: Db, s: Step, c: Id, w: TerminalWrite)
    requires Ends(s, c, w) && Apply(db, s).out == Won
    ensures c in db.jobs && Apply(db, s).db == Settled(db, c, w)
  {
    assert Apply(db, s) == End(db, s);
  }

  /** What a won ending writes: its row, and the staged success goes. */
  lemma WonWrites(db: Db, s: Step, c: Id, w: TerminalWrite)
    requires Ends(s, c, w) && Apply(db, s).out == Won
    ensures
      var after := Apply(db, s).db;
      && c in db.jobs && c in after.jobs && FinalRow(after.jobs[c], db.jobs[c], w)
      && after == db.(jobs := db.jobs[c := after.jobs[c]], staged := db.staged - {c}, ledgers := after.ledgers)
  {
    WonSettles(db, s, c, w);
    MessageIsCut(w.errorMessage);
  }

  /** And exactly the ledgers in progress on the capture are settled with it. */
  lemma WonSettlesLedgers(db: Db, s: Step, c: Id, w: TerminalWrite)
    requires Ends(s, c, w) && Apply(db, s).out == Won
    ensures
      var after := Apply(db, s).db;
      && after.ledgers.Keys == db.ledgers.Keys
      && forall k :: k in db.ledgers ==>
           if db.ledgers[k].target.captureId == Some(c) && db.ledgers[k].state == InProgress
           then SettledRow(after.ledgers[k], db.ledgers[k], w.state == Succeeded, w.terminalAt, w.result, w.errorCode, w.errorMessage)
           else after.ledgers[k] == db.ledgers[k]
  {
    WonSettles(db, s, c, w);
    MessageIsCut(w.errorMessage);
  }
}
