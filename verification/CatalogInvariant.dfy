/** What every catalog transaction keeps: the life-cycle facts of each job row and the references
    between jobs, ledgers, groups, members, staged successes and schedule occurrences. */
module CatalogInvariant {
  import opened Texts
  import opened Options
  import opened JobStates
  import opened CatalogModel

  predicate Installed(a: Artifact) {
    && a.installStarted && a.partialPath.Some? && a.finalPath.Some? && a.partialPath != a.finalPath
    && a.expectedSha.Some? && a.expectedBytes.Some?
    && a.installedSha == a.expectedSha && a.installedBytes == a.expectedBytes
  }

  predicate ReadyToInstall(a: Artifact) {
    && a.partialPath.Some? && a.finalPath.Some? && a.partialPath != a.finalPath
    && a.expectedSha.Some? && a.expectedBytes.Some?
    && ((a.installedSha.None? && a.installedBytes.None?) || Installed(a))
  }

  /** The life-cycle facts of one row. `staged` says whether a staged success is stored for it. */
  predicate GoodJob(c: Id, job: Job, staged: bool) {
    && (job.id.key.Some? ==> job.id.key.value.instance == job.id.instance && job.id.groupId.None?)
    && (IsTerminal(job.state) <==> job.ending.Some?)
    && (IsTerminal(job.state) ==> BodyMatches(job.ending.value.result, c, job.id))
    && (staged <==> job.state == Persisting)
    && (job.state == Persisting ==> ReadyToInstall(job.artifact))
    && (!IsTerminal(job.state) && job.state != Persisting ==> job.artifact == NO_ARTIFACT)
    && (job.state == Succeeded ==>
          Installed(job.artifact) && job.ending.value.errorCode.None? && job.ending.value.errorMessage.None?)
    && (job.state == Cancelled ==> !job.artifact.installStarted)
  }

  predicate JobRefs(db: Db, c: Id)
    requires c in db.jobs
  {
    var id := db.jobs[c].id;
    && (id.key.Some? ==> id.key.value in db.ledgers && db.ledgers[id.key.value].target.captureId == Some(c))
    && (id.groupId.Some? ==> id.groupId.value in db.members && c in db.members[id.groupId.value])
  }

  predicate LedgerRefs(db: Db, k: LedgerKey)
    requires k in db.ledgers
  {
    var t := db.ledgers[k].target;
    && (t.captureId.Some? ==>
          && t.groupId.None? && Owns(db, t.captureId.value, k.instance, k.requestId)
          && db.jobs[t.captureId.value].id.hash == t.hash)
    && (t.groupId.Some? ==>
          && t.groupId.value in db.groups && db.groups[t.groupId.value].id.key == k
          && db.groups[t.groupId.value].id.hash == t.hash)
    && (db.ledgers[k].state == OutcomeUnknown ==> Standalone(db.ledgers[k]))
  }

  predicate GroupRefs(db: Db, g: Id)
    requires g in db.groups
  {
    && db.groups[g].id.key in db.ledgers && db.ledgers[db.groups[g].id.key].target.groupId == Some(g)
    && g in db.members && |db.members[g]| >= 2 && Distinct(db.members[g])
    && (forall i :: 0 <= i < |db.members[g]| ==> IsMember(db, db.members[g][i], g))
  }

  /** A QUEUED group has no ACCEPTED member; a terminal group has only terminal members. */
  predicate GroupStateGood(db: Db, g: Id)
    requires g in db.groups && g in db.members
  {
    var state := db.groups[g].state;
    && (state == Accepted || state == Queued || IsTerminal(state))
    && (IsTerminal(state) <==> db.groups[g].ending.Some?)
    && (state == Queued ==> forall i :: 0 <= i < |db.members[g]| ==> MemberState(db, g, i) != Accepted)
    && (IsTerminal(state) ==> forall i :: 0 <= i < |db.members[g]| ==> IsTerminal(MemberState(db, g, i)))
  }

  /** ACCEPTED stands for a missing row, so that nothing good is claimed of one. */
  function MemberState(db: Db, g: Id, i: nat): JobState
    requires g in db.members && i < |db.members[g]|
  {
    if db.members[g][i] in db.jobs then db.jobs[db.members[g][i]].state else Accepted
  }

  predicate IsMember(db: Db, c: Id, g: Id) {
    c in db.jobs && db.jobs[c].id.groupId == Some(g)
  }

  predicate OccurrenceRefs(db: Db, o: Occurrence)
    requires o in db.occurrences
  {
    var c := db.occurrences[o];
    c in db.jobs && db.jobs[c].id.instance == o.instance && db.jobs[c].id.key.None? && db.jobs[c].id.groupId.None?
  }

  predicate JobGood(db: Db, c: Id)
    requires c in db.jobs
  {
    GoodJob(c, db.jobs[c], c in db.staged)
  }

  /** A staged success names its own job. */
  predicate StagedGood(db: Db, c: Id)
    requires c in db.staged
  {
    c in db.jobs && BodyMatches(db.staged[c].result, c, db.jobs[c].id)
  }

  ghost predicate JobsGood(db: Db) { forall c {:trigger JobGood(db, c)} :: c in db.jobs ==> JobGood(db, c) }

  ghost predicate StagesGood(db: Db) { forall c {:trigger StagedGood(db, c)} :: c in db.staged ==> StagedGood(db, c) }

  ghost predicate JobsRefer(db: Db) { forall c {:trigger JobRefs(db, c)} :: c in db.jobs ==> JobRefs(db, c) }

  ghost predicate LedgersRefer(db: Db) {
    forall k {:trigger LedgerRefs(db, k)} :: k in db.ledgers ==> LedgerRefs(db, k)
  }

  ghost predicate GroupsRefer(db: Db) {
    && db.members.Keys == db.groups.Keys
    && forall g {:trigger GroupRefs(db, g)} :: g in db.groups ==> GroupRefs(db, g)
  }

  ghost predicate GroupStatesGood(db: Db)
    requires db.members.Keys == db.groups.Keys
  {
    forall g {:trigger GroupStateGood(db, g)} :: g in db.groups ==> GroupStateGood(db, g)
  }

  ghost predicate OccurrencesRefer(db: Db) {
    && (forall o {:trigger OccurrenceRefs(db, o)} :: o in db.occurrences ==> OccurrenceRefs(db, o))
    && (forall o, p {:trigger db.occurrences[o], db.occurrences[p]} ::
          o in db.occurrences && p in db.occurrences && db.occurrences[o] == db.occurrences[p] ==> o == p)
  }

  /** UNIQUE(instance, request_id). */
  ghost predicate UniqueRequests(db: Db) {
    forall c, d, instance, requestId ::
      Owns(db, c, instance, requestId) && Owns(db, d, instance, requestId) ==> c == d
  }

  ghost predicate Inv(db: Db) {
    && JobsGood(db) && StagesGood(db) && JobsRefer(db) && LedgersRefer(db) && GroupsRefer(db) && GroupStatesGood(db)
    && OccurrencesRefer(db) && UniqueRequests(db)
  }

  // ---- In-place updates -------------------------------------------------------------------------

  ghost predicate SameJobs(db: Db, after: Db) {
    after.jobs.Keys == db.jobs.Keys && forall c :: c in db.jobs ==> after.jobs[c].id == db.jobs[c].id
  }

  predicate SameTarget(a: Ledger, b: Ledger) {
    a.target == b.target && (b.state == OutcomeUnknown ==> Standalone(b))
  }

  ghost predicate SameLedgers(db: Db, after: Db) {
    after.ledgers.Keys == db.ledgers.Keys && forall k :: k in db.ledgers ==> SameTarget(db.ledgers[k], after.ledgers[k])
  }

  ghost predicate SameGroups(db: Db, after: Db) {
    && after.groups.Keys == db.groups.Keys && after.members == db.members
    && forall g :: g in db.groups ==> after.groups[g].id == db.groups[g].id
  }

  lemma KeepsJobRefs(db: Db, after: Db)
    requires JobsRefer(db) && SameJobs(db, after) && SameLedgers(db, after) && after.members == db.members
    ensures JobsRefer(after)
  {
    forall c | c in after.jobs ensures JobRefs(after, c) {
      assert JobRefs(db, c);
      var key := db.jobs[c].id.key;
      if key.Some? { assert SameTarget(db.ledgers[key.value], after.ledgers[key.value]); }
    }
  }

  lemma KeepsLedgerRefs(db: Db, after: Db)
    requires LedgersRefer(db) && SameJobs(db, after) && SameLedgers(db, after) && SameGroups(db, after)
    ensures LedgersRefer(after)
  {
    forall k | k in after.ledgers ensures LedgerRefs(after, k) {
      assert LedgerRefs(db, k) && SameTarget(db.ledgers[k], after.ledgers[k]);
    }
  }

  lemma KeepsGroupRefs(db: Db, after: Db)
    requires GroupsRefer(db) && SameJobs(db, after) && SameLedgers(db, after) && SameGroups(db, after)
    ensures GroupsRefer(after)
  {
    forall g | g in after.groups ensures GroupRefs(after, g) {
      assert GroupRefs(db, g) && SameTarget(db.ledgers[db.groups[g].id.key], after.ledgers[db.groups[g].id.key]);
      forall i | 0 <= i < |after.members[g]| ensures IsMember(after, after.members[g][i], g) {
        assert IsMember(db, db.members[g][i], g);
      }
    }
  }

  lemma KeepsOccurrences(db: Db, after: Db)
    requires OccurrencesRefer(db) && SameJobs(db, after) && after.occurrences == db.occurrences
    ensures OccurrencesRefer(after)
  {
    forall o | o in after.occurrences ensures OccurrenceRefs(after, o) {
      assert OccurrenceRefs(db, o);
    }
  }

  lemma KeepsUnique(db: Db, after: Db)
    requires UniqueRequests(db)
    requires forall c :: c in after.jobs ==> c in db.jobs && after.jobs[c].id == db.jobs[c].id
    ensures UniqueRequests(after)
  {
    forall c, d, instance, requestId | Owns(after, c, instance, requestId) && Owns(after, d, instance, requestId) ensures c == d {
      assert Owns(db, c, instance, requestId) && Owns(db, d, instance, requestId);
    }
  }

  /** A step that changes rows in place keeps the invariant when it leaves identities and targets
      alone, leaves each job good, and leaves each group's state in line with its members'. */
  lemma UpdatedInPlace(db: Db, after: Db)
    requires Inv(db) && SameJobs(db, after) && SameLedgers(db, after) && SameGroups(db, after)
    requires after.occurrences == db.occurrences
    requires JobsGood(after) && StagesGood(after) && GroupStatesGood(after)
    ensures Inv(after)
  {
    KeepsJobRefs(db, after);
    KeepsLedgerRefs(db, after);
    KeepsGroupRefs(db, after);
    KeepsOccurrences(db, after);
    KeepsUnique(db, after);
  }
}
