/** Every transaction keeps the catalog invariant. */
module CatalogSteps {
  import opened Texts
  import opened Options
  import opened JobStates
  import opened CatalogModel
  import opened CatalogInvariant

  // ---- Steps that change one job ------------------------------------------------------------------

  predicate Forward(a: Job, b: Job) {
    a.id == b.id && (a.state != Accepted ==> b.state != Accepted) && (IsTerminal(a.state) ==> IsTerminal(b.state))
  }

  lemma GroupStatesKept(db: Db, after: Db)
    requires GroupsRefer(db) && GroupStatesGood(db)
    requires after.members == db.members && after.groups == db.groups && after.jobs.Keys == db.jobs.Keys
    requires forall c :: c in db.jobs ==> Forward(db.jobs[c], after.jobs[c])
    ensures GroupStatesGood(after)
  {
    forall g | g in after.groups ensures GroupStateGood(after, g) {
      assert GroupStateGood(db, g) && GroupRefs(db, g);
      forall i | 0 <= i < |db.members[g]|
        ensures MemberState(db, g, i) != Accepted ==> MemberState(after, g, i) != Accepted
        ensures IsTerminal(MemberState(db, g, i)) ==> IsTerminal(MemberState(after, g, i))
      {
        assert IsMember(db, db.members[g][i], g) && Forward(db.jobs[db.members[g][i]], after.jobs[db.members[g][i]]);
      }
    }
  }

  ghost predicate OnlyJob(db: Db, after: Db, c: Id) {
    && c in db.jobs && c in after.jobs && after.jobs == db.jobs[c := after.jobs[c]]
    && after.groups == db.groups && after.members == db.members && after.occurrences == db.occurrences
    && (forall d :: d != c ==> (d in after.staged <==> d in db.staged))
    && (forall d :: d in after.staged && d != c ==> after.staged[d] == db.staged[d])
  }

  lemma OneJobChanged(db: Db, after: Db, c: Id)
    requires Inv(db) && OnlyJob(db, after, c) && SameLedgers(db, after)
    requires Forward(db.jobs[c], after.jobs[c]) && JobGood(after, c)
    requires c in after.staged ==> StagedGood(after, c)
    ensures Inv(after)
  {
    GroupStatesKept(db, after);
    forall d | d in after.jobs ensures JobGood(after, d) { assert d != c ==> JobGood(db, d); }
    forall d | d in after.staged ensures StagedGood(after, d) { assert d != c ==> StagedGood(db, d); }
    UpdatedInPlace(db, after);
  }

  lemma CompareAndSetKeeps(db: Db, c: Id, expected: JobState, next: JobState, at: int)
    requires Inv(db)
    ensures Inv(CompareAndSetStep(db, c, expected, next, at).db)
  {
    var r := CompareAndSetStep(db, c, expected, next, at);
    if r.out == Changed {
      LedgerTargetsKept(db, r.db);
      assert JobGood(db, c);
      OneJobChanged(db, r.db, c);
    }
  }

  lemma RescheduleKeeps(db: Db, c: Id, deadlines: Deadlines)
    requires Inv(db)
    ensures Inv(RescheduleStep(db, c, deadlines).db)
  {
    var r := RescheduleStep(db, c, deadlines);
    if r.out == Done {
      LedgerTargetsKept(db, r.db);
      assert JobGood(db, c);
      OneJobChanged(db, r.db, c);
    }
  }

  lemma BeginPersistingKeeps(db: Db, c: Id, p: PendingInstall)
    requires Inv(db)
    ensures Inv(BeginPersistingStep(db, c, p).db)
    ensures BeginPersistingStep(db, c, p).out != Failure(UniqueStaged)
  {
    var r := BeginPersistingStep(db, c, p);
    if c in db.jobs { assert JobGood(db, c); }
    if r.out == Changed {
      LedgerTargetsKept(db, r.db);
      OneJobChanged(db, r.db, c);
    }
  }

  lemma BeginInstallKeeps(db: Db, c: Id)
    requires Inv(db)
    ensures Inv(BeginInstallStep(db, c).db)
  {
    var r := BeginInstallStep(db, c);
    if r.out == Started {
      LedgerTargetsKept(db, r.db);
      assert JobGood(db, c);
      assert StagedGood(db, c);
      OneJobChanged(db, r.db, c);
    }
  }

  lemma RecordInstalledKeeps(db: Db, c: Id, sha: Text, bytes: nat)
    requires Inv(db)
    ensures Inv(RecordInstalledStep(db, c, sha, bytes).db)
  {
    var r := RecordInstalledStep(db, c, sha, bytes);
    if r.out == Done {
      LedgerTargetsKept(db, r.db);
      assert JobGood(db, c);
      assert StagedGood(db, c);
      OneJobChanged(db, r.db, c);
    }
  }

  lemma TerminalKeeps(db: Db, c: Id, w: TerminalWrite, cancellation: bool, expected: Option<set<JobState>>)
    requires Inv(db) && (cancellation <==> w.state == Cancelled)
    ensures Inv(TerminalStep(db, c, w, cancellation, expected).db)
  {
    var r := TerminalStep(db, c, w, cancellation, expected);
    if r.out == Won {
      assert JobGood(db, c);
      LedgerTargetsKept(db, r.db);
      OneJobChanged(db, r.db, c);
    }
  }

  /** Ledger updates that never touch a target and never make a capture or group ledger unknown. */
  lemma LedgerTargetsKept(db: Db, after: Db)
    requires LedgersRefer(db) && after.ledgers.Keys == db.ledgers.Keys
    requires forall k :: k in db.ledgers ==>
      || after.ledgers[k] == db.ledgers[k]
      || (after.ledgers[k].target == db.ledgers[k].target
          && (after.ledgers[k].state != OutcomeUnknown || Standalone(db.ledgers[k])))
    ensures SameLedgers(db, after)
  {
    forall k | k in db.ledgers ensures SameTarget(db.ledgers[k], after.ledgers[k]) { assert LedgerRefs(db, k); }
  }

  // ---- Groups ---------------------------------------------------------------------------------

  lemma QueueGroupKeeps(db: Db, g: Id, at: int)
    requires Inv(db)
    ensures Inv(QueueGroupStep(db, g, at).db)
  {
    var r := QueueGroupStep(db, g, at);
    if r.db != db {
      var after := r.db;
      forall c | c in db.jobs
        ensures JobGood(after, c)
        ensures Forward(db.jobs[c], after.jobs[c])
      {
        assert JobGood(db, c);
        if c in db.members[g] {
          var i :| 0 <= i < |db.members[g]| && db.members[g][i] == c;
        }
      }
      forall c | c in after.staged ensures StagedGood(after, c) { assert StagedGood(db, c); }
      QueuedGroupStates(db, g, at);
      LedgerTargetsKept(db, after);
      UpdatedInPlace(db, after);
    }
  }

  lemma QueuedGroupStates(db: Db, g: Id, at: int)
    requires Inv(db) && QueueGroupStep(db, g, at).db != db
    requires forall c :: c in db.jobs ==> Forward(db.jobs[c], QueueGroupStep(db, g, at).db.jobs[c])
    ensures GroupStatesGood(QueueGroupStep(db, g, at).db)
  {
    var after := QueueGroupStep(db, g, at).db;
    var before := after.(groups := db.groups);
    GroupStatesKept(db, before);
    forall h | h in after.groups ensures GroupStateGood(after, h) {
      assert GroupStateGood(before, h);
      if h == g {
        assert GroupRefs(db, g);
        forall i | 0 <= i < |db.members[g]| ensures MemberState(after, g, i) == Queued {
          assert IsMember(db, db.members[g][i], g);
        }
      } else {
        assert forall i :: 0 <= i < |db.members[h]| ==> MemberState(after, h, i) == MemberState(before, h, i);
      }
    }
  }

  lemma CompletedGroupStates(db: Db, after: Db, g: Id)
    requires GroupsRefer(db) && GroupStatesGood(db) && g in db.groups && EveryMember(db, g, TERMINAL_STATES)
    requires after.jobs == db.jobs && after.members == db.members && after.groups.Keys == db.groups.Keys
    requires forall h :: h in db.groups && h != g ==> after.groups[h] == db.groups[h]
    requires IsTerminal(after.groups[g].state) && after.groups[g].ending.Some?
    ensures GroupStatesGood(after)
  {
    forall h | h in after.groups ensures GroupStateGood(after, h) {
      assert GroupStateGood(db, h) && GroupRefs(db, h);
      assert forall i :: 0 <= i < |db.members[h]| ==> MemberState(after, h, i) == MemberState(db, h, i);
      if h == g {
        forall i | 0 <= i < |db.members[g]| ensures IsTerminal(MemberState(after, g, i)) {
          assert IsMember(db, db.members[g][i], g);
        }
      }
    }
  }

  lemma CompleteGroupKeeps(db: Db, g: Id, state: JobState, result: Body, code: Option<Text>, message: Option<Text>, at: int)
    requires Inv(db)
    ensures Inv(CompleteGroupStep(db, g, state, result, code, message, at).db)
  {
    var after := CompleteGroupStep(db, g, state, result, code, message, at).db;
    if after != db {
      CompletedGroupStates(db, after, g);
      LedgerTargetsKept(db, after);
      RowsUntouched(db, after);
      UpdatedInPlace(db, after);
    }
  }

  lemma RowsUntouched(db: Db, after: Db)
    requires JobsGood(db) && StagesGood(db) && after.jobs == db.jobs && after.staged == db.staged
    ensures JobsGood(after) && StagesGood(after)
  {
    forall c | c in after.jobs ensures JobGood(after, c) { assert JobGood(db, c); }
    forall c | c in after.staged ensures StagedGood(after, c) { assert StagedGood(db, c); }
  }

  // ---- Ledger updates ---------------------------------------------------------------------------

  lemma OnlyLedgersChanged(db: Db, after: Db)
    requires Inv(db) && SameLedgers(db, after) && after == db.(ledgers := after.ledgers)
    ensures Inv(after)
  {
    GroupStatesKept(db, after);
    RowsUntouched(db, after);
    UpdatedInPlace(db, after);
  }

  lemma RecordAcceptanceKeeps(db: Db, key: LedgerKey, reply: Body, at: int)
    requires Inv(db)
    ensures Inv(RecordAcceptanceStep(db, key, reply, at).db)
  {
    var after := RecordAcceptanceStep(db, key, reply, at).db;
    LedgerTargetsKept(db, after);
    OnlyLedgersChanged(db, after);
  }

  lemma CompleteCommandKeeps(db: Db, key: LedgerKey, outcome: LedgerState, reply: Body, code: Option<Text>, message: Option<Text>, at: int)
    requires Inv(db)
    ensures Inv(CompleteCommandStep(db, key, outcome, reply, code, message, at).db)
  {
    var after := CompleteCommandStep(db, key, outcome, reply, code, message, at).db;
    LedgerTargetsKept(db, after);
    OnlyLedgersChanged(db, after);
  }

  lemma SettleReconnectsKeeps(db: Db, at: int)
    requires Inv(db)
    ensures Inv(SettleReconnectsStep(db, at).db)
  {
    var after := SettleReconnectsStep(db, at).db;
    LedgerTargetsKept(db, after);
    OnlyLedgersChanged(db, after);
  }

  lemma MarkUnknownKeeps(db: Db, at: int)
    requires Inv(db)
    ensures Inv(MarkUnknownStep(db, at).db)
  {
    var after := MarkUnknownStep(db, at).db;
    LedgerTargetsKept(db, after);
    OnlyLedgersChanged(db, after);
  }

  // ---- Inserts --------------------------------------------------------------------------------

  /** A step that only adds rows. */
  ghost predicate Grows(db: Db, after: Db) {
    && db.jobs.Keys <= after.jobs.Keys && (forall c :: c in db.jobs ==> after.jobs[c] == db.jobs[c])
    && db.ledgers.Keys <= after.ledgers.Keys && (forall k :: k in db.ledgers ==> after.ledgers[k] == db.ledgers[k])
    && db.groups.Keys <= after.groups.Keys && (forall g :: g in db.groups ==> after.groups[g] == db.groups[g])
    && db.members.Keys <= after.members.Keys && (forall g :: g in db.members ==> after.members[g] == db.members[g])
    && after.staged == db.staged
    && db.occurrences.Keys <= after.occurrences.Keys
    && (forall o :: o in db.occurrences ==> after.occurrences[o] == db.occurrences[o])
  }

  lemma RowsGrown(db: Db, after: Db)
    requires Grows(db, after) && JobsGood(db) && StagesGood(db)
    requires forall c :: c in after.jobs && c !in db.jobs ==> JobGood(after, c)
    ensures JobsGood(after) && StagesGood(after)
  {
    forall c | c in after.jobs ensures JobGood(after, c) { assert c in db.jobs ==> JobGood(db, c); }
    forall c | c in after.staged ensures StagedGood(after, c) { assert StagedGood(db, c); }
  }

  lemma ReferencesGrown(db: Db, after: Db)
    requires Grows(db, after) && JobsRefer(db) && LedgersRefer(db)
    requires forall c :: c in after.jobs && c !in db.jobs ==> JobRefs(after, c)
    requires forall k :: k in after.ledgers && k !in db.ledgers ==> LedgerRefs(after, k)
    ensures JobsRefer(after) && LedgersRefer(after)
  {
    forall c | c in after.jobs ensures JobRefs(after, c) { assert c in db.jobs ==> JobRefs(db, c); }
    forall k | k in after.ledgers ensures LedgerRefs(after, k) {
      if k in db.ledgers {
        assert LedgerRefs(db, k);
      }
    }
  }

  lemma GroupsGrown(db: Db, after: Db)
    requires Grows(db, after) && GroupsRefer(db) && GroupStatesGood(db)
    requires after.members.Keys == after.groups.Keys
    requires forall g :: g in after.groups && g !in db.groups ==> GroupRefs(after, g) && GroupStateGood(after, g)
    ensures GroupsRefer(after) && GroupStatesGood(after)
  {
    forall g | g in after.groups ensures GroupRefs(after, g) && GroupStateGood(after, g) {
      if g in db.groups {
        assert GroupRefs(db, g) && GroupStateGood(db, g);
        forall i | 0 <= i < |db.members[g]|
          ensures IsMember(after, after.members[g][i], g) && MemberState(after, g, i) == MemberState(db, g, i)
        {
          assert IsMember(db, db.members[g][i], g);
        }
      }
    }
  }

  lemma OccurrencesGrown(db: Db, after: Db)
    requires Grows(db, after) && OccurrencesRefer(db)
    requires forall o :: o in after.occurrences && o !in db.occurrences ==> OccurrenceRefs(after, o) && after.occurrences[o] !in db.jobs
    requires forall o, p :: o in after.occurrences && p in after.occurrences && o !in db.occurrences && p !in db.occurrences ==> o == p
    ensures OccurrencesRefer(after)
  {
    forall o | o in after.occurrences ensures OccurrenceRefs(after, o) {
      assert o in db.occurrences ==> OccurrenceRefs(db, o);
    }
    forall o, p | o in after.occurrences && p in after.occurrences && after.occurrences[o] == after.occurrences[p]
      ensures o == p
    {
      assert o in db.occurrences ==> OccurrenceRefs(db, o);
      assert p in db.occurrences ==> OccurrenceRefs(db, p);
    }
  }

  lemma UniqueGrown(db: Db, after: Db)
    requires Grows(db, after) && UniqueRequests(db)
    requires forall c, instance, requestId :: Owns(after, c, instance, requestId) && c !in db.jobs ==>
      forall d :: Owns(after, d, instance, requestId) ==> d == c
    ensures UniqueRequests(after)
  {
    forall c, d, instance, requestId | Owns(after, c, instance, requestId) && Owns(after, d, instance, requestId) ensures c == d {
      if c in db.jobs && d in db.jobs {
        assert Owns(db, c, instance, requestId) && Owns(db, d, instance, requestId);
      }
    }
  }

  lemma Grown(db: Db, after: Db)
    requires Inv(db) && Grows(db, after) && after.members.Keys == after.groups.Keys
    requires forall c :: c in after.jobs && c !in db.jobs ==> JobGood(after, c) && JobRefs(after, c)
    requires forall k :: k in after.ledgers && k !in db.ledgers ==> LedgerRefs(after, k)
    requires forall g :: g in after.groups && g !in db.groups ==> GroupRefs(after, g) && GroupStateGood(after, g)
    requires OccurrencesRefer(after) && UniqueRequests(after)
    ensures Inv(after)
  {
    RowsGrown(db, after);
    ReferencesGrown(db, after);
    GroupsGrown(db, after);
  }

  lemma JobInserted(db: Db, after: Db, n: NewJob)
    requires Inv(db) && ValidNewJob(n, false) && n.key.Some? && n.key.value !in db.ledgers
    requires n.captureId !in db.jobs && !Owned(db, n.instance, n.key.value.requestId)
    requires after == db.(jobs := db.jobs[n.captureId := AcceptedJob(n)],
                          ledgers := db.ledgers[n.key.value := NewLedger(n.hash, n.material, n.acceptedAt, Some(n.captureId), None)])
    ensures Inv(after)
  {
    assert JobGood(after, n.captureId) by { assert n.captureId in db.staged ==> StagedGood(db, n.captureId); }
    assert JobRefs(after, n.captureId);
    assert LedgerRefs(after, n.key.value) by { assert Owns(after, n.captureId, n.instance, n.key.value.requestId); }
    UniqueInserted(db, after, n);
    OccurrencesGrown(db, after);
    Grown(db, after);
  }

  lemma AliasInserted(db: Db, after: Db, key: LedgerKey, ledger: Ledger, c: Id)
    requires Inv(db) && key !in db.ledgers && Owns(db, c, key.instance, key.requestId)
    requires ledger.target.captureId == Some(c) && ledger.target.groupId.None? && ledger.state == InProgress
    requires ledger.target.hash == db.jobs[c].id.hash && after == db.(ledgers := db.ledgers[key := ledger])
    ensures Inv(after)
  {
    assert LedgerRefs(after, key) by { assert Owns(after, c, key.instance, key.requestId); }
    KeepsUnique(db, after);
    OccurrencesGrown(db, after);
    Grown(db, after);
  }

  lemma AcceptJobKeeps(db: Db, n: NewJob)
    requires Inv(db)
    ensures Inv(AcceptJobStep(db, n).db)
    ensures AcceptJobStep(db, n).out != Failure(UniqueRequest) && AcceptJobStep(db, n).out != Failure(NotFound)
  {
    var r := AcceptJobStep(db, n);
    if n.key.Some? && n.key.value in db.ledgers { assert LedgerRefs(db, n.key.value); }
    if r.out.Inserted? {
      JobInserted(db, r.db, n);
    } else if r.out.Existing? && n.key.value !in db.ledgers {
      AliasInserted(db, r.db, n.key.value, r.db.ledgers[n.key.value], r.out.id);
    }
  }

  lemma UniqueInserted(db: Db, after: Db, n: NewJob)
    requires Grows(db, after) && UniqueRequests(db) && n.captureId !in db.jobs
    requires after.jobs == db.jobs[n.captureId := AcceptedJob(n)]
    requires n.key.Some? ==> !Owned(db, n.instance, n.key.value.requestId)
    ensures UniqueRequests(after)
  {
    forall c, instance, requestId | Owns(after, c, instance, requestId) && c !in db.jobs
      ensures forall d :: Owns(after, d, instance, requestId) ==> d == c
    {
      forall d | Owns(after, d, instance, requestId) ensures d == c {
        assert c == n.captureId && !Owned(db, instance, requestId);
        assert d in db.jobs ==> Owns(db, d, instance, requestId);
      }
    }
    UniqueGrown(db, after);
  }

  lemma ScheduledInserted(db: Db, after: Db, n: NewJob, slot: Occurrence)
    requires Inv(db) && ValidNewJob(n, false) && n.key.None? && slot !in db.occurrences && slot.instance == n.instance
    requires n.captureId !in db.jobs
    requires after == db.(jobs := db.jobs[n.captureId := AcceptedJob(n)], occurrences := db.occurrences[slot := n.captureId])
    ensures Inv(after)
  {
    assert JobGood(after, n.captureId) by { assert n.captureId in db.staged ==> StagedGood(db, n.captureId); }
    assert JobRefs(after, n.captureId);
    UniqueInserted(db, after, n);
    assert OccurrenceRefs(after, slot);
    OccurrencesGrown(db, after);
    Grown(db, after);
  }

  lemma AcceptScheduledKeeps(db: Db, n: NewJob, schedule: Text, fireAt: int)
    requires Inv(db)
    ensures Inv(AcceptScheduledStep(db, n, schedule, fireAt).db)
    ensures AcceptScheduledStep(db, n, schedule, fireAt).out != Failure(UniqueOccurrence)
    ensures AcceptScheduledStep(db, n, schedule, fireAt).out != Failure(NotFound)
  {
    var r := AcceptScheduledStep(db, n, schedule, fireAt);
    var slot := Occurrence(n.instance, schedule, fireAt);
    if slot in db.occurrences { assert OccurrenceRefs(db, slot); }
    if n.captureId in db.occurrences.Values {
      var o :| o in db.occurrences && db.occurrences[o] == n.captureId;
      assert OccurrenceRefs(db, o);
    }
    if r.out.Inserted? {
      ScheduledInserted(db, r.db, n, slot);
    }
  }

  lemma BeginCommandKeeps(db: Db, key: LedgerKey, hash: Hash, request: Text, at: int)
    requires Inv(db)
    ensures Inv(BeginCommandStep(db, key, hash, request, at).db)
  {
    var r := BeginCommandStep(db, key, hash, request, at);
    if r.db != db {
      assert LedgerRefs(r.db, key);
      OccurrencesGrown(db, r.db);
      KeepsUnique(db, r.db);
      Grown(db, r.db);
    }
  }

  predicate Names(members: seq<NewJob>, c: Id) {
    exists i :: 0 <= i < |members| && members[i].captureId == c
  }

  /** Inserting the members one by one adds exactly their rows. */
  lemma {:induction false} WithMembersKeeps(jobs: map<Id, Job>, members: seq<NewJob>, c: Id)
    ensures c in WithMembers(jobs, members) <==> c in jobs || Names(members, c)
    ensures c in jobs && !Names(members, c) ==> WithMembers(jobs, members)[c] == jobs[c]
  {
    if members != [] {
      var front := members[..|members| - 1];
      WithMembersKeeps(jobs, front, c);
      assert members == front + [members[|members| - 1]];
      NamesSnoc(front, members[|members| - 1], c);
    }
  }

  lemma NamesSnoc(front: seq<NewJob>, last: NewJob, c: Id)
    ensures Names(front + [last], c) <==> Names(front, c) || last.captureId == c
  {
    var all := front + [last];
    assert all[|front|] == last;
    forall i | 0 <= i < |front| ensures all[i].captureId == front[i].captureId {}
  }

  lemma {:induction false} WithMembersAdds(jobs: map<Id, Job>, members: seq<NewJob>, i: nat)
    requires i < |members|
    requires forall i, j :: 0 <= i < j < |members| ==> members[i].captureId != members[j].captureId
    ensures members[i].captureId in WithMembers(jobs, members)
    ensures WithMembers(jobs, members)[members[i].captureId] == AcceptedJob(members[i])
  {
    if i < |members| - 1 {
      WithMembersAdds(jobs, members[..|members| - 1], i);
    }
  }

  ghost predicate GroupAdded(db: Db, after: Db, n: NewGroup) {
    && ValidNewGroup(n) && n.key !in db.ledgers && n.groupId !in db.groups
    && (forall i :: 0 <= i < |n.members| ==> n.members[i].captureId !in db.jobs)
    && after == db.(ledgers := db.ledgers[n.key := NewLedger(n.hash, n.request, n.acceptedAt, None, Some(n.groupId))],
                    groups := db.groups[n.groupId := AcceptedGroup(n)],
                    members := db.members[n.groupId := CaptureIds(n.members)],
                    jobs := WithMembers(db.jobs, n.members))
  }

  lemma MemberRows(db: Db, after: Db, n: NewGroup)
    requires GroupAdded(db, after, n)
    ensures db.jobs.Keys <= after.jobs.Keys
    ensures forall c :: c in db.jobs ==> after.jobs[c] == db.jobs[c]
    ensures forall i :: 0 <= i < |n.members| ==>
      n.members[i].captureId in after.jobs && after.jobs[n.members[i].captureId] == AcceptedJob(n.members[i])
    ensures forall c :: c in after.jobs && c !in db.jobs ==> Names(n.members, c)
  {
    forall c ensures c in after.jobs <==> c in db.jobs || Names(n.members, c)
      ensures c in db.jobs ==> after.jobs[c] == db.jobs[c]
    {
      WithMembersKeeps(db.jobs, n.members, c);
    }
    forall i | 0 <= i < |n.members| { WithMembersAdds(db.jobs, n.members, i); }
  }

  lemma NewRowGood(n: NewJob)
    requires ValidNewJob(n, true)
    ensures GoodJob(n.captureId, AcceptedJob(n), false) && AcceptedJob(n).id.key.None? && AcceptedJob(n).id.groupId == n.groupId
  {}

  lemma NewMemberGood(db: Db, after: Db, n: NewGroup, c: Id)
    requires StagesGood(db) && GroupAdded(db, after, n) && c in after.jobs && c !in db.jobs
    ensures JobGood(after, c) && JobRefs(after, c) && after.jobs[c].id.key.None?
  {
    MemberRows(db, after, n);
    var i :| 0 <= i < |n.members| && n.members[i].captureId == c;
    NewRowGood(n.members[i]);
    assert c !in after.staged by { assert c in db.staged ==> StagedGood(db, c); }
    assert CaptureIds(n.members)[i] == c;
  }

  lemma NewGroupGood(db: Db, after: Db, n: NewGroup)
    requires GroupAdded(db, after, n)
    ensures GroupRefs(after, n.groupId) && GroupStateGood(after, n.groupId) && LedgerRefs(after, n.key)
  {
    MemberRows(db, after, n);
    forall i | 0 <= i < |n.members| ensures IsMember(after, CaptureIds(n.members)[i], n.groupId) {
      assert after.jobs[n.members[i].captureId] == AcceptedJob(n.members[i]);
    }
  }

  lemma GroupGrows(db: Db, after: Db, n: NewGroup)
    requires GroupAdded(db, after, n) && db.members.Keys == db.groups.Keys
    ensures Grows(db, after) && after.members.Keys == after.groups.Keys && after.occurrences == db.occurrences
    ensures forall k :: k in after.ledgers && k !in db.ledgers ==> k == n.key
    ensures forall g :: g in after.groups && g !in db.groups ==> g == n.groupId
  {
    MemberRows(db, after, n);
  }

  lemma GroupInserted(db: Db, after: Db, n: NewGroup)
    requires Inv(db) && GroupAdded(db, after, n)
    ensures Inv(after)
  {
    GroupGrows(db, after, n);
    forall c | c in after.jobs && c !in db.jobs ensures JobGood(after, c) && JobRefs(after, c) && after.jobs[c].id.key.None? {
      NewMemberGood(db, after, n, c);
    }
    NewGroupGood(db, after, n);
    OccurrencesGrown(db, after);
    UniqueGrown(db, after);
    Grown(db, after);
  }

  lemma AcceptGroupKeeps(db: Db, n: NewGroup)
    requires Inv(db)
    ensures Inv(AcceptGroupStep(db, n).db)
    ensures AcceptGroupStep(db, n).out != Failure(NotFound)
  {
    var r := AcceptGroupStep(db, n);
    if n.key in db.ledgers { assert LedgerRefs(db, n.key); }
    if r.out.Inserted? {
      GroupInserted(db, r.db, n);
    }
  }
}
