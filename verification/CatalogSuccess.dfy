/** Success can be had: every run in which a request is accepted can go on to a won success of it. */
module CatalogSuccess {
  import opened Texts
  import opened Options
  import opened JobStates
  import opened CatalogModel
  import opened CatalogInvariant
  import opened CatalogRuns
  import opened CatalogAnswers

  function Last(r: Run): Db
    requires |r.states| > 0
  {
    r.states[|r.states| - 1]
  }

  ghost function Extended(r: Run, s: Step): Run
    requires |r.states| > 0
  {
    var next := Apply(Last(r), s);
    Run(r.states + [next.db], r.steps + [s], r.outs + [next.out])
  }

  lemma ExtendedIsRun(r: Run, s: Step)
    requires IsRun(r) && !IsPrune(s)
    ensures IsRun(Extended(r, s)) && Inv(Last(r)) && Last(Extended(r, s)) == Apply(Last(r), s).db
    ensures Extended(r, s).steps == r.steps + [s] && Extended(r, s).outs == r.outs + [Apply(Last(r), s).out]
  {
    var x := Extended(r, s);
    RunKeeps(r, |r.steps|);
    forall i | 0 <= i < |x.steps| ensures StepOf(x, i) {
      if i < |r.steps| { assert StepOf(r, i); }
    }
  }

  /** The steps of a capture that goes well. */
  function FirstHalf(n: NewJob, at: int): seq<Step> {
    [AcceptJob(n), CompareAndSet(n.captureId, Accepted, Queued, at), CompareAndSet(n.captureId, Queued, Acquiring, at),
     CompareAndSet(n.captureId, Acquiring, Encoding, at)]
  }

  function SecondHalf(c: Id, p: PendingInstall): seq<Step> {
    [BeginPersisting(c, p), BeginInstall(c), RecordInstalled(c, p.expectedSha, p.expectedBytes), CommitTerminal(c, p.success)]
  }

  // ---- One step at a time ---------------------------------------------------------------------------------------

  ghost predicate Continues(r: Run, x: Run, s: Step, out: Outcome) {
    IsRun(x) && x.steps == r.steps + [s] && x.outs == r.outs + [out]
  }

  /** The row exists with this identity and state. */
  predicate RowIn(db: Db, c: Id, id: Identity, state: JobState) {
    c in db.jobs && db.jobs[c].id == id && db.jobs[c].state == state
  }

  predicate Staging(db: Db, c: Id, p: PendingInstall) {
    && c in db.jobs && c in db.staged
    && db.staged[c].result == p.success.result && db.staged[c].terminalAt == p.success.terminalAt
    && var a := db.jobs[c].artifact;
    && a.partialPath == Some(p.partialPath) && a.finalPath == Some(p.finalPath)
    && a.expectedSha == Some(p.expectedSha) && a.expectedBytes == Some(p.expectedBytes)
  }

  lemma ThenAccepted(r: Run, n: NewJob) returns (x: Run)
    requires IsRun(r) && Apply(Last(r), AcceptJob(n)).out == Inserted(n.captureId)
    ensures Continues(r, x, AcceptJob(n), Inserted(n.captureId))
    ensures RowIn(Last(x), n.captureId, AcceptedJob(n).id, Accepted)
  {
    ExtendedIsRun(r, AcceptJob(n));
    InsertedWrites(Last(r), n);
    x := Extended(r, AcceptJob(n));
  }

  lemma ThenMoved(r: Run, c: Id, id: Identity, expected: JobState, next: JobState, at: int) returns (x: Run)
    requires IsRun(r) && RowIn(Last(r), c, id, expected)
    requires (expected, next) in {(Accepted, Queued), (Queued, Acquiring), (Acquiring, Encoding)}
    ensures Continues(r, x, CompareAndSet(c, expected, next, at), Changed) && RowIn(Last(x), c, id, next)
  {
    ExtendedIsRun(r, CompareAndSet(c, expected, next, at));
    MoveAnswers(Last(r), c, expected, next, at);
    x := Extended(r, CompareAndSet(c, expected, next, at));
  }

  lemma ThenPersisting(r: Run, c: Id, id: Identity, p: PendingInstall) returns (x: Run)
    requires IsRun(r) && RowIn(Last(r), c, id, Encoding) && Prepared(p) && About(p.success.result, c, Last(r).jobs[c])
    ensures Continues(r, x, BeginPersisting(c, p), Changed)
    ensures RowIn(Last(x), c, id, Persisting) && Staging(Last(x), c, p) && !Last(x).jobs[c].artifact.installStarted
  {
    ExtendedIsRun(r, BeginPersisting(c, p));
    assert JobGood(Last(r), c);
    PersistAnswers(Last(r), c, p);
    PersistWrites(Last(r), c, p);
    x := Extended(r, BeginPersisting(c, p));
  }

  lemma ThenInstalling(r: Run, c: Id, id: Identity, p: PendingInstall) returns (x: Run)
    requires IsRun(r) && RowIn(Last(r), c, id, Persisting) && Staging(Last(r), c, p)
    requires !Last(r).jobs[c].artifact.installStarted
    ensures Continues(r, x, BeginInstall(c), Started)
    ensures RowIn(Last(x), c, id, Persisting) && Staging(Last(x), c, p) && Last(x).jobs[c].artifact.installStarted
  {
    ExtendedIsRun(r, BeginInstall(c));
    InstallAnswers(Last(r), c);
    x := Extended(r, BeginInstall(c));
  }

  lemma ThenInstalled(r: Run, c: Id, id: Identity, p: PendingInstall) returns (x: Run)
    requires IsRun(r) && RowIn(Last(r), c, id, Persisting) && Staging(Last(r), c, p) && Prepared(p)
    requires Last(r).jobs[c].artifact.installStarted
    ensures Continues(r, x, RecordInstalled(c, p.expectedSha, p.expectedBytes), Done)
    ensures RowIn(Last(x), c, id, Persisting) && Staging(Last(x), c, p) && Last(x).jobs[c].artifact.installStarted
    ensures Last(x).jobs[c].artifact.installedSha.Some? && Last(x).jobs[c].artifact.installedBytes.Some?
  {
    ExtendedIsRun(r, RecordInstalled(c, p.expectedSha, p.expectedBytes));
    InstalledAnswers(Last(r), c, p.expectedSha, p.expectedBytes);
    x := Extended(r, RecordInstalled(c, p.expectedSha, p.expectedBytes));
    assert Last(x).jobs[c].artifact.(installedSha := None, installedBytes := None)
        == Last(r).jobs[c].artifact.(installedSha := None, installedBytes := None);
    assert Last(x).jobs[c].(artifact := Last(r).jobs[c].artifact) == Last(r).jobs[c];
  }

  lemma ThenWon(r: Run, c: Id, id: Identity, p: PendingInstall) returns (x: Run)
    requires IsRun(r) && RowIn(Last(r), c, id, Persisting) && Staging(Last(r), c, p) && Prepared(p)
    requires About(p.success.result, c, Last(r).jobs[c]) && Last(r).jobs[c].artifact.installStarted
    requires Last(r).jobs[c].artifact.installedSha.Some? && Last(r).jobs[c].artifact.installedBytes.Some?
    ensures Continues(r, x, CommitTerminal(c, p.success), Won)
    ensures RowIn(Last(x), c, id, Succeeded)
    ensures Last(x).jobs[c].ending == Some(Ending(p.success.terminalAt, p.success.result, None, None))
  {
    var s := CommitTerminal(c, p.success);
    ExtendedIsRun(r, s);
    WonExactly(Last(r), s, c, p.success);
    WonWrites(Last(r), s, c, p.success);
    x := Extended(r, s);
  }

  lemma FourMore<T>(a: seq<T>, w: T, x: T, y: T, z: T)
    ensures a + [w] + [x] + [y] + [z] == a + [w, x, y, z]
  {}

  lemma GetsToEncoding(r: Run, n: NewJob, at: int) returns (x: Run)
    requires IsRun(r) && Apply(Last(r), AcceptJob(n)).out == Inserted(n.captureId)
    ensures IsRun(x) && x.steps == r.steps + FirstHalf(n, at)
    ensures x.outs == r.outs + [Inserted(n.captureId), Changed, Changed, Changed]
    ensures RowIn(Last(x), n.captureId, AcceptedJob(n).id, Encoding)
  {
    var c, id := n.captureId, AcceptedJob(n).id;
    var r1 := ThenAccepted(r, n);
    var r2 := ThenMoved(r1, c, id, Accepted, Queued, at);
    var r3 := ThenMoved(r2, c, id, Queued, Acquiring, at);
    x := ThenMoved(r3, c, id, Acquiring, Encoding, at);
    FourMore(r.steps, AcceptJob(n), CompareAndSet(c, Accepted, Queued, at),
             CompareAndSet(c, Queued, Acquiring, at), CompareAndSet(c, Acquiring, Encoding, at));
    FourMore(r.outs, Inserted(c), Changed, Changed, Changed);
  }

  lemma GetsToSuccess(r: Run, c: Id, id: Identity, p: PendingInstall) returns (x: Run)
    requires IsRun(r) && RowIn(Last(r), c, id, Encoding) && Prepared(p) && About(p.success.result, c, Last(r).jobs[c])
    ensures IsRun(x) && x.steps == r.steps + SecondHalf(c, p)
    ensures x.outs == r.outs + [Changed, Started, Done, Won] && RowIn(Last(x), c, id, Succeeded)
    ensures Last(x).jobs[c].ending == Some(Ending(p.success.terminalAt, p.success.result, None, None))
  {
    var r1 := ThenPersisting(r, c, id, p);
    var r2 := ThenInstalling(r1, c, id, p);
    var r3 := ThenInstalled(r2, c, id, p);
    x := ThenWon(r3, c, id, p);
    FourMore(r.steps, BeginPersisting(c, p), BeginInstall(c), RecordInstalled(c, p.expectedSha, p.expectedBytes),
             CommitTerminal(c, p.success));
    FourMore(r.outs, Changed, Started, Done, Won);
  }

  /** Whatever ran before: if a request is accepted, then for every prepared artifact whose staged success is about
      that capture there are seven more steps that take it to SUCCEEDED, each answering as it should. */
  lemma SuccessCanBeWon(r: Run, n: NewJob, p: PendingInstall, at: int) returns (x: Run)
    requires IsRun(r) && Apply(Last(r), AcceptJob(n)).out == Inserted(n.captureId)
    requires Prepared(p) && p.success.result.captureId == Some(n.captureId) && p.success.result.cameraId == Some(n.instance)
    requires p.success.result.groupId == n.groupId && (n.origin == None || p.success.result.correlationId == n.origin)
    ensures IsRun(x) && x.steps == r.steps + FirstHalf(n, at) + SecondHalf(n.captureId, p)
    ensures x.outs == r.outs + [Inserted(n.captureId), Changed, Changed, Changed] + [Changed, Started, Done, Won]
    ensures n.captureId in Last(x).jobs && Last(x).jobs[n.captureId].state == Succeeded
    ensures Last(x).jobs[n.captureId].ending == Some(Ending(p.success.terminalAt, p.success.result, None, None))
  {
    var y := GetsToEncoding(r, n, at);
    x := GetsToSuccess(y, n.captureId, AcceptedJob(n).id, p);
  }
}
