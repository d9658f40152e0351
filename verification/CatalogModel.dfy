/** The durable catalog as a record of tables, and every transaction as one atomic step on it. */
module CatalogModel {
  import opened Texts
  import opened Options
  import opened JobStates

  type Id = Text
  type Hash = Text

  const MAX_INTEGER: int := 0x7fff_ffff_ffff_ffff
  const MAX_ERROR_BYTES: nat := 1024

  // ---- Rows -----------------------------------------------------------------------------------

  datatype LedgerKey = LedgerKey(instance: Text, verb: Text, requestId: Text)

  datatype LedgerState = InProgress | LedgerSucceeded | LedgerFailed | OutcomeUnknown

  /** A terminal body: the members the catalog inspects, the rest opaque. */
  datatype Body =
    | NotAnObject
    | Body(schemaVersion: Option<nat>, eventId: Option<Text>, captureId: Option<Text>,
           cameraId: Option<Text>, correlationId: Option<Text>, groupId: Option<Text>, rest: Text)

  datatype Deadlines =
    Deadlines(terminalAt: int, queueAt: Option<int>, captureAt: int, encodeAt: int, persistAt: int)

  /** What acceptance fixes for good. `material` stands for the request, profile, trigger and
      intended output. */
  datatype Identity = Identity(
    instance: Text, key: Option<LedgerKey>, hash: Hash, material: Text, origin: Option<Text>,
    groupId: Option<Id>, acceptedAt: int)

  /** The artifact columns: paths and expectations of the prepared image, facts of the installed one. */
  datatype Artifact = Artifact(
    partialPath: Option<Text>, finalPath: Option<Text>, expectedSha: Option<Text>, expectedBytes: Option<nat>,
    installedSha: Option<Text>, installedBytes: Option<nat>, installStarted: bool)

  const NO_ARTIFACT: Artifact := Artifact(None, None, None, None, None, None, false)

  /** The terminal columns, which one UPDATE writes together. */
  datatype Ending = Ending(at: int, result: Body, errorCode: Option<Text>, errorMessage: Option<Text>)

  datatype Job = Job(
    id: Identity, deadlines: Deadlines, state: JobState, queuedAt: Option<int>,
    artifact: Artifact, ending: Option<Ending>)

  datatype Target = Target(
    hash: Hash, request: Text, createdAt: int, captureId: Option<Id>, groupId: Option<Id>)

  datatype Ledger = Ledger(
    target: Target, state: LedgerState, updatedAt: int,
    reply: Option<Body>, errorCode: Option<Text>, errorMessage: Option<Text>)

  datatype GroupIdentity = GroupIdentity(
    key: LedgerKey, hash: Hash, request: Text, origin: Option<Text>, acceptedAt: int)

  datatype Group = Group(id: GroupIdentity, state: JobState, queuedAt: Option<int>, ending: Option<Ending>)

  datatype Staged = Staged(result: Body, terminalAt: int)

  datatype Occurrence = Occurrence(instance: Text, schedule: Text, fireAt: int)

  /** `members[g]` lists the captures of group `g` by result index. */
  datatype Db = Db(
    jobs: map<Id, Job>, ledgers: map<LedgerKey, Ledger>, groups: map<Id, Group>,
    members: map<Id, seq<Id>>, staged: map<Id, Staged>, occurrences: map<Occurrence, Id>)

  const EMPTY: Db := Db(map[], map[], map[], map[], map[], map[])

  // ---- Requests -------------------------------------------------------------------------------

  datatype NewJob = NewJob(
    captureId: Id, instance: Text, key: Option<LedgerKey>, hash: Hash, material: Text,
    origin: Option<Text>, groupId: Option<Id>, acceptedAt: int, deadlines: Deadlines)

  datatype NewGroup = NewGroup(
    groupId: Id, key: LedgerKey, hash: Hash, request: Text, origin: Option<Text>, acceptedAt: int,
    members: seq<NewJob>)

  datatype TerminalWrite = TerminalWrite(
    state: JobState, result: Body, errorCode: Option<Text>, errorMessage: Option<Text>, terminalAt: int)

  datatype PendingInstall = PendingInstall(
    partialPath: Text, finalPath: Text, expectedSha: Text, expectedBytes: nat, success: TerminalWrite)

  datatype Step =
    | AcceptJob(job: NewJob)
    | AcceptScheduled(job: NewJob, schedule: Text, fireAt: int)
    | AcceptGroup(group: NewGroup)
    | QueueGroup(groupId: Id, at: int)
    | CompleteGroup(groupId: Id, state: JobState, result: Body, code: Option<Text>, message: Option<Text>, at: int)
    | CompareAndSet(capture: Id, expected: JobState, next: JobState, at: int)
    | Reschedule(capture: Id, deadlines: Deadlines)
    | BeginPersisting(capture: Id, pending: PendingInstall)
    | BeginInstall(capture: Id)
    | RecordInstalled(capture: Id, sha: Text, bytes: nat)
    | CommitTerminal(capture: Id, write: TerminalWrite)
    | Cancel(capture: Id, write: TerminalWrite)
    | InterruptRecovered(capture: Id, states: set<JobState>, write: TerminalWrite)
    | BeginCommand(key: LedgerKey, hash: Hash, request: Text, at: int)
    | RecordAcceptance(key: LedgerKey, reply: Body, at: int)
    | CompleteCommand(key: LedgerKey, outcome: LedgerState, reply: Body, code: Option<Text>, message: Option<Text>, at: int)
    | SettleReconnects(at: int)
    | MarkUnknown(at: int)
    | PruneJobs(before: int, limit: nat, victims: set<Id>)
    | PruneGroups(before: int, limit: nat, victims: set<Id>)
    | PruneLedgers(before: int, limit: nat, doomed: set<LedgerKey>)
    | EnforceLimit(maximum: nat, limit: nat, victims: set<Id>)

  datatype Error =
    | Invalid | NotFound | LedgerWithoutTarget | WrongState | Mismatch | CasLost
    | UniqueCapture | UniqueRequest | UniqueGroup | UniqueOccurrence | UniqueStaged | ForeignKey

  datatype Outcome =
    | Inserted(id: Id) | Existing(id: Id) | Conflict
    | CommandStarted | CommandExisting
    | Changed | NotChanged
    | Started | AlreadyStarted | InstallWrongState
    | Won | AlreadyTerminal | InstallationWon
    | Done | Pruned(count: nat)
    | Failure(error: Error)

  datatype Result = Result(db: Db, out: Outcome)

  // ---- Validation -----------------------------------------------------------------------------

  /** The rejection of control and format characters in request ids is not part of this model. */
  predicate ValidKey(key: LedgerKey) {
    key.instance != [] && key.verb != [] && key.requestId != [] && |key.requestId| <= 256
  }

  predicate CoherentDeadlines(d: Deadlines) {
    && d.captureAt <= d.terminalAt && d.encodeAt <= d.terminalAt && d.persistAt <= d.terminalAt
    && (d.queueAt.Some? ==> d.queueAt.value <= d.terminalAt)
  }

  predicate ValidNewJob(job: NewJob, groupMember: bool) {
    && job.captureId != [] && job.instance != [] && CoherentDeadlines(job.deadlines)
    && (job.key.Some? ==> ValidKey(job.key.value) && job.key.value.instance == job.instance)
    && (if groupMember then job.groupId.Some? && job.key.None? else job.groupId.None?)
  }

  predicate ValidNewGroup(group: NewGroup) {
    && group.groupId != [] && ValidKey(group.key) && |group.members| >= 2
    && (forall i :: 0 <= i < |group.members| ==>
          ValidNewJob(group.members[i], true) && group.members[i].groupId == Some(group.groupId))
    && (forall i, j :: 0 <= i < j < |group.members| ==>
          && group.members[i].captureId != group.members[j].captureId
          && group.members[i].instance != group.members[j].instance)
  }

  predicate IsSha256(t: Text) {
    |t| == 64 && forall i :: 0 <= i < |t| ==> 0x30 <= t[i] <= 0x39 || 0x61 <= t[i] <= 0x66
  }

  predicate NonEmpty(field: Option<Text>) {
    field.Some? && field.value != []
  }

  predicate ValidWrite(w: TerminalWrite) {
    && IsTerminal(w.state) && w.result.Body?
    && (w.state == Succeeded ==> w.errorCode.None? && w.errorMessage.None?)
    && (w.state == Failed || w.state == Interrupted ==> w.errorCode.Some?)
    && w.result.schemaVersion == Some(1)
    && NonEmpty(w.result.eventId) && NonEmpty(w.result.captureId)
    && NonEmpty(w.result.cameraId) && NonEmpty(w.result.correlationId)
  }

  /** The body names the durable job it ends: capture, camera, creator and group. */
  predicate BodyMatches(body: Body, capture: Id, id: Identity) {
    && body.Body? && body.captureId == Some(capture) && body.cameraId == Some(id.instance)
    && (id.origin.Some? ==> body.correlationId == id.origin)
    && body.groupId == id.groupId
  }

  predicate ValidPending(p: PendingInstall) {
    && p.partialPath != [] && p.finalPath != [] && p.partialPath != p.finalPath
    && IsSha256(p.expectedSha) && p.expectedBytes <= MAX_INTEGER
    && p.success.state == Succeeded && ValidWrite(p.success)
  }

  /** Error text is cut to 1024 bytes, backing up to a character boundary. */
  function BoundedError(t: Text): (r: Text)
    ensures |r| <= MAX_ERROR_BYTES && r <= t && (|t| <= MAX_ERROR_BYTES ==> r == t)
  {
    if |t| <= MAX_ERROR_BYTES then t else t[..Boundary(t, MAX_ERROR_BYTES)]
  }

  function Boundary(t: Text, end: nat): (r: nat)
    requires end < |t|
    ensures r <= end
  {
    if end == 0 || !(0x80 <= t[end] < 0xc0) then end else Boundary(t, end - 1)
  }

  /** Where a UTF-8 text may be cut: at its ends, and not before a continuation byte. */
  predicate IsBoundary(t: Text, n: nat) {
    n == 0 || n == |t| || (n < |t| && !(0x80 <= t[n] < 0xc0))
  }

  lemma {:induction false} BoundaryIsLast(t: Text, end: nat)
    requires end < |t|
    ensures IsBoundary(t, Boundary(t, end)) && forall n :: Boundary(t, end) < n <= end ==> !IsBoundary(t, n)
  {
    if end != 0 && 0x80 <= t[end] < 0xc0 {
      BoundaryIsLast(t, end - 1);
    }
  }

  /** The cut is the longest prefix of at most 1024 bytes that ends on a character boundary. */
  lemma BoundedErrorIsLongest(t: Text)
    ensures BoundedError(t) <= t && |BoundedError(t)| <= MAX_ERROR_BYTES && IsBoundary(t, |BoundedError(t)|)
    ensures forall n :: |BoundedError(t)| < n <= MAX_ERROR_BYTES && n <= |t| ==> !IsBoundary(t, n)
  {
    if |t| > MAX_ERROR_BYTES {
      BoundaryIsLast(t, MAX_ERROR_BYTES);
    }
  }

  function BoundedMessage(message: Option<Text>): Option<Text> {
    if message.Some? then Some(BoundedError(message.value)) else None
  }

  // ---- Staged success --------------------------------------------------------------------------

  function StageWrite(w: TerminalWrite): Staged { Staged(w.result, w.terminalAt) }

  function Rebuild(s: Staged): TerminalWrite { TerminalWrite(Succeeded, s.result, None, None, s.terminalAt) }

  /** Two columns are enough: rebuilding loses nothing exactly for error-free successes, and that
      covers every write that `begin_persisting` accepts. */
  lemma RebuildIsExact(w: TerminalWrite)
    ensures Rebuild(StageWrite(w)) == w <==> w.state == Succeeded && w.errorCode.None? && w.errorMessage.None?
    ensures w.state == Succeeded && ValidWrite(w) ==> Rebuild(StageWrite(w)) == w
  {}

  function PendingSuccess(db: Db, capture: Id): Option<TerminalWrite> {
    if capture in db.staged then Some(Rebuild(db.staged[capture])) else None
  }

  // ---- Inserts --------------------------------------------------------------------------------

  function AcceptedJob(n: NewJob): Job {
    Job(Identity(n.instance, n.key, n.hash, n.material, n.origin, n.groupId, n.acceptedAt),
        n.deadlines, Accepted, None, NO_ARTIFACT, None)
  }

  function NewLedger(hash: Hash, request: Text, at: int, capture: Option<Id>, group: Option<Id>): Ledger {
    Ledger(Target(hash, request, at, capture, group), InProgress, at, None, None, None)
  }

  function AcceptedGroup(g: NewGroup): Group {
    Group(GroupIdentity(g.key, g.hash, g.request, g.origin, g.acceptedAt), Accepted, None, None)
  }

  /** The job a camera holds under a request id, whichever verb created it. */
  predicate Owns(db: Db, capture: Id, instance: Text, requestId: Text) {
    capture in db.jobs && db.jobs[capture].id.instance == instance
    && db.jobs[capture].id.key.Some? && db.jobs[capture].id.key.value.requestId == requestId
  }

  ghost predicate Owned(db: Db, instance: Text, requestId: Text) {
    exists c :: Owns(db, c, instance, requestId)
  }

  /** What the UNIQUE constraints of the jobs table say to a new row. */
  ghost function JobViolation(db: Db, n: NewJob): Option<Error> {
    if n.captureId in db.jobs then Some(UniqueCapture)
    else if n.key.Some? && Owned(db, n.instance, n.key.value.requestId) then Some(UniqueRequest)
    else None
  }

  ghost function AcceptJobStep(db: Db, n: NewJob): Result {
    if !ValidNewJob(n, false) || n.key.None? then Result(db, Failure(Invalid))
    else
      var key := n.key.value;
      if key in db.ledgers then
        var ledger := db.ledgers[key].target;
        if ledger.hash != n.hash then Result(db, Conflict)
        else if ledger.captureId.None? then Result(db, Failure(LedgerWithoutTarget))
        else if ledger.captureId.value !in db.jobs then Result(db, Failure(NotFound))
        else Result(db, Existing(ledger.captureId.value))
      else if Owned(db, n.instance, key.requestId) then
        var c :| Owns(db, c, n.instance, key.requestId);
        if db.jobs[c].id.hash != n.hash then Result(db, Conflict)
        else
          Result(db.(ledgers := db.ledgers[key := NewLedger(n.hash, n.material, n.acceptedAt, Some(c), None)]), Existing(c))
      else if JobViolation(db, n).Some? then Result(db, Failure(JobViolation(db, n).value))
      else
        Result(db.(jobs := db.jobs[n.captureId := AcceptedJob(n)],
                   ledgers := db.ledgers[key := NewLedger(n.hash, n.material, n.acceptedAt, Some(n.captureId), None)]),
               Inserted(n.captureId))
  }

  ghost function AcceptScheduledStep(db: Db, n: NewJob, schedule: Text, fireAt: int): Result {
    var slot := Occurrence(n.instance, schedule, fireAt);
    if !ValidNewJob(n, false) || n.key.Some? || schedule == [] then Result(db, Failure(Invalid))
    else if slot in db.occurrences then
      if db.occurrences[slot] !in db.jobs then Result(db, Failure(NotFound))
      else Result(db, Existing(db.occurrences[slot]))
    else if n.captureId in db.jobs then Result(db, Conflict)
    else if n.captureId in db.occurrences.Values then Result(db, Failure(UniqueOccurrence))
    else
      Result(db.(jobs := db.jobs[n.captureId := AcceptedJob(n)],
                 occurrences := db.occurrences[slot := n.captureId]),
             Inserted(n.captureId))
  }

  function CaptureIds(members: seq<NewJob>): (r: seq<Id>)
    ensures |r| == |members| && forall i :: 0 <= i < |r| ==> r[i] == members[i].captureId
  {
    seq(|members|, i requires 0 <= i < |members| => members[i].captureId)
  }

  /** The jobs table after inserting the members one by one. */
  function WithMembers(jobs: map<Id, Job>, members: seq<NewJob>): map<Id, Job> {
    if members == [] then jobs
    else
      var last := members[|members| - 1];
      WithMembers(jobs, members[..|members| - 1])[last.captureId := AcceptedJob(last)]
  }

  ghost function AcceptGroupStep(db: Db, n: NewGroup): Result {
    if !ValidNewGroup(n) then Result(db, Failure(Invalid))
    else if n.key in db.ledgers then
      var ledger := db.ledgers[n.key].target;
      if ledger.hash != n.hash then Result(db, Conflict)
      else if ledger.groupId.None? then Result(db, Failure(LedgerWithoutTarget))
      else if ledger.groupId.value !in db.groups then Result(db, Failure(NotFound))
      else Result(db, Existing(ledger.groupId.value))
    else if n.groupId in db.groups then Result(db, Failure(UniqueGroup))
    else if exists i :: 0 <= i < |n.members| && n.members[i].captureId in db.jobs then
      Result(db, Failure(UniqueCapture))
    else
      Result(db.(ledgers := db.ledgers[n.key := NewLedger(n.hash, n.request, n.acceptedAt, None, Some(n.groupId))],
                 groups := db.groups[n.groupId := AcceptedGroup(n)],
                 members := db.members[n.groupId := CaptureIds(n.members)],
                 jobs := WithMembers(db.jobs, n.members)),
             Inserted(n.groupId))
  }

  // ---- Groups ---------------------------------------------------------------------------------

  /** A group's members as `load_group` returns them: the rows that exist, by result index. */
  predicate EveryMember(db: Db, g: Id, states: set<JobState>) {
    g in db.members && forall i :: 0 <= i < |db.members[g]| ==>
      db.members[g][i] in db.jobs ==> db.jobs[db.members[g][i]].state in states
  }

  const TERMINAL_STATES: set<JobState> := {Succeeded, Failed, Cancelled, Interrupted}

  function QueuedJob(job: Job, at: int): Job { job.(state := Queued, queuedAt := Some(at)) }

  ghost function QueueGroupStep(db: Db, g: Id, at: int): Result {
    if g !in db.groups then Result(db, Failure(NotFound))
    else if db.groups[g].state == Queued then Result(db, Done)
    else if db.groups[g].state != Accepted then Result(db, Failure(WrongState))
    else if !EveryMember(db, g, {Accepted}) then Result(db, Failure(WrongState))
    else
      Result(db.(jobs := map c | c in db.jobs ::
                   if c in db.members[g] then QueuedJob(db.jobs[c], at) else db.jobs[c],
                 groups := db.groups[g := db.groups[g].(state := Queued, queuedAt := Some(at))]),
             Done)
  }

  function FinishedLedger(l: Ledger, succeeded: bool, at: int, reply: Body, code: Option<Text>, message: Option<Text>): Ledger {
    l.(state := if succeeded then LedgerSucceeded else LedgerFailed, updatedAt := at,
       reply := Some(reply), errorCode := code, errorMessage := message)
  }

  ghost function CompleteGroupStep(db: Db, g: Id, state: JobState, result: Body, code: Option<Text>, message: Option<Text>, at: int): Result {
    if !IsTerminal(state) then Result(db, Failure(Invalid))
    else if g !in db.groups then Result(db, Failure(NotFound))
    else if IsTerminal(db.groups[g].state) then Result(db, Done)
    else if !EveryMember(db, g, TERMINAL_STATES) then Result(db, Failure(WrongState))
    else
      Result(db.(groups := db.groups[g := db.groups[g].(state := state, ending := Some(Ending(at, result, code, BoundedMessage(message))))],
                 ledgers := map k | k in db.ledgers ::
                   if db.ledgers[k].target.groupId == Some(g) && db.ledgers[k].state == InProgress
                   then FinishedLedger(db.ledgers[k], state == Succeeded, at, result, code, BoundedMessage(message))
                   else db.ledgers[k]),
             Done)
  }

  // ---- One job's life ---------------------------------------------------------------------------

  predicate OrdinaryMove(expected: JobState, next: JobState) {
    !IsTerminal(expected) && !IsTerminal(next) && CanTransition(expected, next) && next != Persisting
  }

  function CompareAndSetStep(db: Db, c: Id, expected: JobState, next: JobState, at: int): Result {
    if !OrdinaryMove(expected, next) then Result(db, Failure(Invalid))
    else if c !in db.jobs then Result(db, Failure(NotFound))
    else if db.jobs[c].state != expected then Result(db, NotChanged)
    else
      var job := db.jobs[c].(state := next, queuedAt := if next == Queued then Some(at) else db.jobs[c].queuedAt);
      Result(db.(jobs := db.jobs[c := job]), Changed)
  }

  function RescheduleStep(db: Db, c: Id, deadlines: Deadlines): Result {
    if c == [] || !CoherentDeadlines(deadlines) then Result(db, Failure(Invalid))
    else if c !in db.jobs then Result(db, Failure(NotFound))
    else if db.jobs[c].state != Queued then Result(db, Failure(WrongState))
    else Result(db.(jobs := db.jobs[c := db.jobs[c].(deadlines := deadlines)]), Done)
  }

  function PersistingJob(job: Job, p: PendingInstall): Job {
    job.(state := Persisting,
         artifact := job.artifact.(partialPath := Some(p.partialPath), finalPath := Some(p.finalPath),
                                   expectedSha := Some(p.expectedSha), expectedBytes := Some(p.expectedBytes)))
  }

  function BeginPersistingStep(db: Db, c: Id, p: PendingInstall): Result {
    if !ValidPending(p) then Result(db, Failure(Invalid))
    else if c !in db.jobs then Result(db, Failure(NotFound))
    else if !BodyMatches(p.success.result, c, db.jobs[c].id) then Result(db, Failure(Mismatch))
    else if db.jobs[c].state != Acquiring && db.jobs[c].state != Encoding then Result(db, NotChanged)
    else if c in db.staged then Result(db, Failure(UniqueStaged))
    else
      Result(db.(jobs := db.jobs[c := PersistingJob(db.jobs[c], p)], staged := db.staged[c := StageWrite(p.success)]), Changed)
  }

  function InstallingJob(job: Job): Job { job.(artifact := job.artifact.(installStarted := true)) }

  function InstalledJob(job: Job, sha: Text, bytes: nat): Job {
    job.(artifact := job.artifact.(installedSha := Some(sha), installedBytes := Some(bytes)))
  }

  function BeginInstallStep(db: Db, c: Id): Result {
    if c !in db.jobs then Result(db, Failure(NotFound))
    else if db.jobs[c].state == Persisting && !db.jobs[c].artifact.installStarted then
      Result(db.(jobs := db.jobs[c := InstallingJob(db.jobs[c])]), Started)
    else if db.jobs[c].state == Persisting then Result(db, AlreadyStarted)
    else Result(db, InstallWrongState)
  }

  function RecordInstalledStep(db: Db, c: Id, sha: Text, bytes: nat): Result {
    if !IsSha256(sha) || bytes > MAX_INTEGER then Result(db, Failure(Invalid))
    else if c !in db.jobs then Result(db, Failure(NotFound))
    else
      var job := db.jobs[c];
      if job.artifact.expectedSha != Some(sha) || job.artifact.expectedBytes != Some(bytes) || c !in db.staged then
        Result(db, Failure(Mismatch))
      else if job.state != Persisting || !job.artifact.installStarted then Result(db, Failure(WrongState))
      else Result(db.(jobs := db.jobs[c := InstalledJob(job, sha, bytes)]), Done)
  }

  predicate ReadyToSucceed(job: Job) {
    && job.state == Persisting && job.artifact.installStarted
    && job.artifact.partialPath.Some? && job.artifact.finalPath.Some?
    && job.artifact.expectedSha.Some? && job.artifact.expectedBytes.Some?
    && job.artifact.installedSha.Some? && job.artifact.installedBytes.Some?
  }

  /** Only a success keeps its expectations. */
  function FinishedJob(job: Job, w: TerminalWrite): Job {
    job.(state := w.state,
         ending := Some(Ending(w.terminalAt, w.result, w.errorCode, BoundedMessage(w.errorMessage))),
         artifact := if w.state == Succeeded then job.artifact
                     else job.artifact.(expectedSha := None, expectedBytes := None))
  }

  /** A won arbitration: the job, its staged row and its running ledgers in one transaction. */
  function Settled(db: Db, c: Id, w: TerminalWrite): Db
    requires c in db.jobs
  {
    db.(jobs := db.jobs[c := FinishedJob(db.jobs[c], w)],
        staged := db.staged - {c},
        ledgers := map k | k in db.ledgers ::
          if db.ledgers[k].target.captureId == Some(c) && db.ledgers[k].state == InProgress
          then FinishedLedger(db.ledgers[k], w.state == Succeeded, w.terminalAt, w.result, w.errorCode, BoundedMessage(w.errorMessage))
          else db.ledgers[k])
  }

  /** Terminal arbitration. `expected` restricts the states that recovery may interrupt. */
  function TerminalStep(db: Db, c: Id, w: TerminalWrite, cancellation: bool, expected: Option<set<JobState>>): Result {
    if !ValidWrite(w) then Result(db, Failure(Invalid))
    else if c !in db.jobs then Result(db, Failure(NotFound))
    else
      var job := db.jobs[c];
      if IsTerminal(job.state) then Result(db, AlreadyTerminal)
      else if expected.Some? && job.state !in expected.value then Result(db, Failure(WrongState))
      else if !BodyMatches(w.result, c, job.id) then Result(db, Failure(Mismatch))
      else if cancellation && job.artifact.installStarted then Result(db, InstallationWon)
      else if !CanTransition(job.state, w.state) then Result(db, Failure(WrongState))
      else if w.state == Succeeded && PendingSuccess(db, c) != Some(w) then Result(db, Failure(Mismatch))
      else if w.state == Succeeded && !ReadyToSucceed(job) then Result(db, Failure(WrongState))
      else
        Result(Settled(db, c, w), Won)
  }

  // ---- Standalone commands ----------------------------------------------------------------------

  /** The one verb without physical actuation, `sb/reconnect`. */
  const RECONNECT_VERB: Text := [0x73, 0x62, 0x2f, 0x72, 0x65, 0x63, 0x6f, 0x6e, 0x6e, 0x65, 0x63, 0x74]

  predicate Standalone(l: Ledger) { l.target.captureId.None? && l.target.groupId.None? }

  predicate IsFinished(l: Ledger) { l.state == LedgerSucceeded || l.state == LedgerFailed }

  function BeginCommandStep(db: Db, key: LedgerKey, hash: Hash, request: Text, at: int): Result {
    if !ValidKey(key) then Result(db, Failure(Invalid))
    else if key in db.ledgers then
      Result(db, if db.ledgers[key].target.hash == hash then CommandExisting else Conflict)
    else Result(db.(ledgers := db.ledgers[key := NewLedger(hash, request, at, None, None)]), CommandStarted)
  }

  function RecordAcceptanceStep(db: Db, key: LedgerKey, reply: Body, at: int): Result {
    if !ValidKey(key) then Result(db, Failure(Invalid))
    else if key !in db.ledgers then Result(db, Failure(NotFound))
    else if db.ledgers[key].state != InProgress then Result(db, Done)
    else Result(db.(ledgers := db.ledgers[key := db.ledgers[key].(reply := Some(reply), updatedAt := at)]), Done)
  }

  function CompleteCommandStep(db: Db, key: LedgerKey, outcome: LedgerState, reply: Body, code: Option<Text>, message: Option<Text>, at: int): Result {
    if !ValidKey(key) || (outcome != LedgerSucceeded && outcome != LedgerFailed) then Result(db, Failure(Invalid))
    else if key !in db.ledgers then Result(db, Failure(NotFound))
    else if db.ledgers[key].state != InProgress then Result(db, Done)
    else
      Result(db.(ledgers := db.ledgers[key :=
               FinishedLedger(db.ledgers[key], outcome == LedgerSucceeded, at, reply, code, BoundedMessage(message))]),
             Done)
  }

  function SettleReconnectsStep(db: Db, at: int): Result {
    Result(db.(ledgers := map k | k in db.ledgers ::
             var l := db.ledgers[k];
             if k.verb == RECONNECT_VERB && Standalone(l) && (l.state == InProgress || l.state == OutcomeUnknown)
             then l.(state := LedgerSucceeded, updatedAt := at) else l),
           Done)
  }

  function MarkUnknownStep(db: Db, at: int): Result {
    Result(db.(ledgers := map k | k in db.ledgers ::
             var l := db.ledgers[k];
             if l.state == InProgress && Standalone(l) then l.(state := OutcomeUnknown, updatedAt := at) else l),
           Done)
  }

  // ---- Retention --------------------------------------------------------------------------------

  /** Rows are taken oldest first by time, ties broken by id. */
  datatype Stamp = Stamp(time: int, id: Id)

  predicate Before(a: Stamp, b: Stamp) {
    a.time < b.time || (a.time == b.time && Less(a.id, b.id))
  }

  function Fewer(a: nat, b: nat): nat { if a < b then a else b }

  function JobStamp(db: Db, c: Id): Stamp
    requires c in db.jobs
  {
    Stamp(if db.jobs[c].ending.Some? then db.jobs[c].ending.value.at else 0, c)
  }

  ghost predicate HasUnknownLedger(db: Db, c: Id) {
    exists k :: k in db.ledgers && db.ledgers[k].target.captureId == Some(c) && db.ledgers[k].state == OutcomeUnknown
  }

  ghost predicate Removable(db: Db, c: Id) {
    && c in db.jobs && db.jobs[c].id.groupId.None? && IsTerminal(db.jobs[c].state)
    && !HasUnknownLedger(db, c)
  }

  ghost function RemovableJobs(db: Db): set<Id> {
    set c | c in db.jobs && Removable(db, c)
  }

  ghost function ExpiredJobs(db: Db, before: int): set<Id> {
    set c | c in db.jobs && Removable(db, c) && db.jobs[c].ending.Some? && db.jobs[c].ending.value.at < before
  }

  ghost function TerminalJobs(db: Db): set<Id> {
    set c | c in db.jobs && IsTerminal(db.jobs[c].state)
  }

  /** `ORDER BY terminal_at_ms, capture_id LIMIT k` over the eligible rows. */
  ghost predicate OldestJobs(db: Db, eligible: set<Id>, k: nat, victims: set<Id>)
    requires eligible <= db.jobs.Keys
  {
    && victims <= eligible && |victims| == Fewer(k, |eligible|)
    && forall v, e :: v in victims && e in eligible - victims ==> Before(JobStamp(db, v), JobStamp(db, e))
  }

  /** Excess over the cap; a cap that is not exceeded selects nothing. */
  ghost function Excess(db: Db, maximum: nat): nat {
    if |TerminalJobs(db)| <= maximum then 0 else |TerminalJobs(db)| - maximum
  }

  function DeleteJobs(db: Db, victims: set<Id>): Db {
    db.(jobs := db.jobs - victims,
        staged := db.staged - victims,
        occurrences := map o | o in db.occurrences && db.occurrences[o] !in victims :: db.occurrences[o],
        ledgers := map k | k in db.ledgers && !DiesWith(db.ledgers[k], victims) :: db.ledgers[k])
  }

  predicate DiesWith(l: Ledger, victims: set<Id>) {
    l.target.captureId.Some? && l.target.captureId.value in victims && l.state != OutcomeUnknown
  }

  ghost predicate ExpiredGroup(db: Db, g: Id, before: int) {
    && g in db.groups && IsTerminal(db.groups[g].state)
    && db.groups[g].ending.Some? && db.groups[g].ending.value.at < before
    && EveryMember(db, g, TERMINAL_STATES)
    && !exists k :: k in db.ledgers && db.ledgers[k].target.groupId == Some(g) && db.ledgers[k].state == OutcomeUnknown
  }

  ghost function ExpiredGroups(db: Db, before: int): set<Id> {
    set g | g in db.groups && ExpiredGroup(db, g, before)
  }

  function GroupStamp(db: Db, g: Id): Stamp
    requires g in db.groups
  {
    Stamp(if db.groups[g].ending.Some? then db.groups[g].ending.value.at else 0, g)
  }

  ghost predicate OldestGroups(db: Db, eligible: set<Id>, k: nat, victims: set<Id>)
    requires eligible <= db.groups.Keys
  {
    && victims <= eligible && |victims| == Fewer(k, |eligible|)
    && forall v, e :: v in victims && e in eligible - victims ==> Before(GroupStamp(db, v), GroupStamp(db, e))
  }

  ghost function MembersOf(db: Db, victims: set<Id>): set<Id> {
    set g, c | g in victims && g in db.members && c in db.members[g] :: c
  }

  ghost function DeleteGroups(db: Db, victims: set<Id>): Db {
    var captures := MembersOf(db, victims);
    db.(jobs := db.jobs - captures,
        staged := db.staged - captures,
        occurrences := map o | o in db.occurrences && db.occurrences[o] !in captures :: db.occurrences[o],
        members := db.members - victims,
        groups := db.groups - victims,
        ledgers := map k | k in db.ledgers && !DiesWithGroup(db.ledgers[k], victims) :: db.ledgers[k])
  }

  predicate DiesWithGroup(l: Ledger, victims: set<Id>) {
    l.target.groupId.Some? && l.target.groupId.value in victims && l.state != OutcomeUnknown
  }

  ghost function ExpiredLedgers(db: Db, before: int): set<LedgerKey> {
    set k | k in db.ledgers && Standalone(db.ledgers[k]) && IsFinished(db.ledgers[k]) && db.ledgers[k].updatedAt < before
  }

  predicate KeyBefore(a: LedgerKey, b: LedgerKey) {
    || Less(a.instance, b.instance)
    || (a.instance == b.instance && Less(a.verb, b.verb))
    || (a.instance == b.instance && a.verb == b.verb && Less(a.requestId, b.requestId))
  }

  datatype LedgerStamp = LedgerStamp(time: int, key: LedgerKey)

  predicate LedgerBefore(a: LedgerStamp, b: LedgerStamp) {
    a.time < b.time || (a.time == b.time && KeyBefore(a.key, b.key))
  }

  function LedgerStampOf(db: Db, k: LedgerKey): LedgerStamp
    requires k in db.ledgers
  {
    LedgerStamp(db.ledgers[k].updatedAt, k)
  }

  ghost predicate OldestLedgers(db: Db, eligible: set<LedgerKey>, k: nat, doomed: set<LedgerKey>)
    requires eligible <= db.ledgers.Keys
  {
    && doomed <= eligible && |doomed| == Fewer(k, |eligible|)
    && forall v, e :: v in doomed && e in eligible - doomed ==> LedgerBefore(LedgerStampOf(db, v), LedgerStampOf(db, e))
  }

  predicate ValidLimit(limit: nat) { 1 <= limit <= 10_000 }

  /** The rows a prune names are the ones its query selects. */
  ghost predicate Selected(db: Db, s: Step) {
    match s
    case PruneJobs(before, limit, victims) => OldestJobs(db, ExpiredJobs(db, before), limit, victims)
    case PruneGroups(before, limit, victims) => OldestGroups(db, ExpiredGroups(db, before), limit, victims)
    case PruneLedgers(before, limit, doomed) => OldestLedgers(db, ExpiredLedgers(db, before), limit, doomed)
    case EnforceLimit(maximum, limit, victims) =>
      OldestJobs(db, RemovableJobs(db), Fewer(Excess(db, maximum), limit), victims)
    case _ => true
  }

  // ---- All steps --------------------------------------------------------------------------------

  predicate IsAccept(s: Step) { s.AcceptJob? || s.AcceptScheduled? || s.AcceptGroup? }

  predicate IsPrune(s: Step) { s.PruneJobs? || s.PruneGroups? || s.PruneLedgers? || s.EnforceLimit? }

  predicate IsEnding(s: Step) { s.CommitTerminal? || s.Cancel? || s.InterruptRecovered? }

  predicate IsProgress(s: Step) {
    s.CompareAndSet? || s.Reschedule? || s.BeginPersisting? || s.BeginInstall? || s.RecordInstalled?
  }

  predicate IsGroupMove(s: Step) { s.QueueGroup? || s.CompleteGroup? }

  predicate IsRecovery(s: Step) { s.SettleReconnects? || s.MarkUnknown? }

  predicate IsCommand(s: Step) { s.BeginCommand? || s.RecordAcceptance? || s.CompleteCommand? }

  ghost function Accept(db: Db, s: Step): Result
    requires IsAccept(s)
  {
    match s
    case AcceptJob(job) => AcceptJobStep(db, job)
    case AcceptScheduled(job, schedule, fireAt) => AcceptScheduledStep(db, job, schedule, fireAt)
    case AcceptGroup(group) => AcceptGroupStep(db, group)
  }

  function Progress(db: Db, s: Step): Result
    requires IsProgress(s)
  {
    match s
    case CompareAndSet(c, expected, next, at) => CompareAndSetStep(db, c, expected, next, at)
    case Reschedule(c, deadlines) => RescheduleStep(db, c, deadlines)
    case BeginPersisting(c, pending) => BeginPersistingStep(db, c, pending)
    case BeginInstall(c) => BeginInstallStep(db, c)
    case RecordInstalled(c, sha, bytes) => RecordInstalledStep(db, c, sha, bytes)
  }

  ghost function End(db: Db, s: Step): Result
    requires IsEnding(s)
  {
    match s
    case CommitTerminal(c, write) =>
      if write.state == Cancelled then Result(db, Failure(Invalid)) else TerminalStep(db, c, write, false, None)
    case Cancel(c, write) =>
      if write.state != Cancelled then Result(db, Failure(Invalid)) else TerminalStep(db, c, write, true, None)
    case InterruptRecovered(c, states, write) =>
      if write.state != Interrupted || states == {} || (exists s :: s in states && IsTerminal(s))
      then Result(db, Failure(Invalid)) else TerminalStep(db, c, write, false, Some(states))
  }

  function Command(db: Db, s: Step): Result
    requires IsCommand(s)
  {
    match s
    case BeginCommand(key, hash, request, at) => BeginCommandStep(db, key, hash, request, at)
    case RecordAcceptance(key, reply, at) => RecordAcceptanceStep(db, key, reply, at)
    case CompleteCommand(key, outcome, reply, code, message, at) =>
      CompleteCommandStep(db, key, outcome, reply, code, message, at)
  }

  ghost function GroupMove(db: Db, s: Step): Result
    requires IsGroupMove(s)
  {
    match s
    case QueueGroup(g, at) => QueueGroupStep(db, g, at)
    case CompleteGroup(g, state, result, code, message, at) => CompleteGroupStep(db, g, state, result, code, message, at)
  }

  function Recover(db: Db, s: Step): Result
    requires IsRecovery(s)
  {
    match s
    case SettleReconnects(at) => SettleReconnectsStep(db, at)
    case MarkUnknown(at) => MarkUnknownStep(db, at)
  }

  ghost function Prune(db: Db, s: Step): Result
    requires IsPrune(s)
  {
    match s
    case PruneJobs(_, limit, victims) =>
      if !ValidLimit(limit) then Result(db, Failure(Invalid)) else Result(DeleteJobs(db, victims), Pruned(|victims|))
    case PruneGroups(_, limit, victims) =>
      if !ValidLimit(limit) then Result(db, Failure(Invalid)) else Result(DeleteGroups(db, victims), Pruned(|victims|))
    case PruneLedgers(_, limit, doomed) =>
      if !ValidLimit(limit) then Result(db, Failure(Invalid))
      else Result(db.(ledgers := db.ledgers - doomed), Pruned(|doomed|))
    case EnforceLimit(maximum, limit, victims) =>
      if !ValidLimit(limit) || maximum > MAX_INTEGER then Result(db, Failure(Invalid))
      else Result(DeleteJobs(db, victims), Pruned(|victims|))
  }

  /** Every transaction, by kind. */
  ghost function Apply(db: Db, s: Step): Result {
    if IsAccept(s) then Accept(db, s)
    else if IsProgress(s) then Progress(db, s)
    else if IsEnding(s) then End(db, s)
    else if IsCommand(s) then Command(db, s)
    else if IsPrune(s) then Prune(db, s)
    else if IsGroupMove(s) then GroupMove(db, s)
    else Recover(db, s)
  }
}
