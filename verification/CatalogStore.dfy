/** The catalog as it runs: each transaction executes its statements one after another on the tables
    and either commits or rolls back. Every one is proved equal to its atomic step. */
module CatalogStore {
  import opened Texts
  import opened Options
  import opened JobStates
  import opened CatalogModel
  import opened CatalogInvariant
  import opened CatalogSteps
  import opened CatalogPrunes
  import opened Retention
  import opened Selection

  class Catalog {
    var jobs: map<Id, Job>
    var ledgers: map<LedgerKey, Ledger>
    var groups: map<Id, Group>
    var members: map<Id, seq<Id>>
    var staged: map<Id, Staged>
    var occurrences: map<Occurrence, Id>

    function Contents(): Db
      reads this
    {
      Db(jobs, ledgers, groups, members, staged, occurrences)
    }

    ghost predicate Valid()
      reads this
    {
      Inv(Contents())
    }

    constructor ()
      ensures Contents() == EMPTY && Valid()
    {
      jobs, ledgers, groups := map[], map[], map[];
      members, staged, occurrences := map[], map[], map[];
    }

    method Rollback(saved: Db)
      modifies this
      ensures Contents() == saved
    {
      jobs, ledgers, groups := saved.jobs, saved.ledgers, saved.groups;
      members, staged, occurrences := saved.members, saved.staged, saved.occurrences;
    }

    /** INSERT INTO jobs, with its UNIQUE constraints. */
    method InsertJob(n: NewJob) returns (violation: Option<Error>)
      modifies `jobs
      ensures violation == old(JobViolation(Contents(), n))
      ensures jobs == if violation.Some? then old(jobs) else old(jobs)[n.captureId := AcceptedJob(n)]
    {
      if n.captureId in jobs {
        return Some(UniqueCapture);
      }
      if n.key.Some? {
        if c :| c in jobs && Owns(Contents(), c, n.instance, n.key.value.requestId) {
          return Some(UniqueRequest);
        }
      }
      jobs := jobs[n.captureId := AcceptedJob(n)];
      violation := None;
    }

    method AcceptJob(n: NewJob) returns (out: Outcome)
      requires Valid()
      modifies this
      ensures Result(Contents(), out) == AcceptJobStep(old(Contents()), n)
      ensures Valid() && out != Failure(UniqueRequest)
    {
      AcceptJobKeeps(Contents(), n);
      if !ValidNewJob(n, false) || n.key.None? {
        return Failure(Invalid);
      }
      if n.key.value in ledgers {
        out := FromLedger(ledgers[n.key.value].target, n.hash);
        return;
      }
      if c :| c in jobs && Owns(Contents(), c, n.instance, n.key.value.requestId) {
        assert forall d :: Owns(Contents(), d, n.instance, n.key.value.requestId) ==> d == c;
        out := FileAlias(n, c);
        return;
      }
      out := InsertWithLedger(n);
    }

    /** A second ledger for a capture that another verb has created. */
    method FileAlias(n: NewJob, c: Id) returns (out: Outcome)
      requires ValidNewJob(n, false) && n.key.Some? && n.key.value !in ledgers
      requires Owns(Contents(), c, n.instance, n.key.value.requestId)
      requires forall d :: Owns(Contents(), d, n.instance, n.key.value.requestId) ==> d == c
      modifies `ledgers
      ensures Result(Contents(), out) == AcceptJobStep(old(Contents()), n)
    {
      assert Owned(Contents(), n.instance, n.key.value.requestId);
      if jobs[c].id.hash != n.hash {
        return Conflict;
      }
      ledgers := ledgers[n.key.value := NewLedger(n.hash, n.material, n.acceptedAt, Some(c), None)];
      out := Existing(c);
    }

    /** The ledger goes in first, and out again if the job is refused. */
    method InsertWithLedger(n: NewJob) returns (out: Outcome)
      requires ValidNewJob(n, false) && n.key.Some? && n.key.value !in ledgers
      requires forall d :: d in jobs ==> !Owns(Contents(), d, n.instance, n.key.value.requestId)
      modifies this
      ensures Result(Contents(), out) == AcceptJobStep(old(Contents()), n)
    {
      var saved := Contents();
      ledgers := ledgers[n.key.value := NewLedger(n.hash, n.material, n.acceptedAt, Some(n.captureId), None)];
      var violation := InsertJob(n);
      if violation.Some? {
        Rollback(saved);
        return Failure(violation.value);
      }
      out := Inserted(n.captureId);
    }

    /** What an existing capture ledger answers. */
    method FromLedger(target: Target, hash: Hash) returns (out: Outcome)
      ensures out ==
        if target.hash != hash then Conflict
        else if target.captureId.None? then Failure(LedgerWithoutTarget)
        else if target.captureId.value !in jobs then Failure(NotFound)
        else Existing(target.captureId.value)
    {
      if target.hash != hash {
        return Conflict;
      }
      if target.captureId.None? {
        return Failure(LedgerWithoutTarget);
      }
      if target.captureId.value !in jobs {
        return Failure(NotFound);
      }
      out := Existing(target.captureId.value);
    }

    /** Once the slot is known to be free, neither insert can trip a UNIQUE constraint. */
    method AcceptScheduled(n: NewJob, schedule: Text, fireAt: int) returns (out: Outcome)
      requires Valid()
      modifies this
      ensures Result(Contents(), out) == AcceptScheduledStep(old(Contents()), n, schedule, fireAt)
      ensures Valid() && out != Failure(UniqueOccurrence)
    {
      AcceptScheduledKeeps(Contents(), n, schedule, fireAt);
      if !ValidNewJob(n, false) || n.key.Some? || schedule == [] {
        return Failure(Invalid);
      }
      var slot := Occurrence(n.instance, schedule, fireAt);
      if slot in occurrences {
        out := if occurrences[slot] in jobs then Existing(occurrences[slot]) else Failure(NotFound);
        return;
      }
      if n.captureId in jobs {
        return Conflict;
      }
      var violation := InsertJob(n);
      if violation.Some? || n.captureId in occurrences.Values {
        assert false;
      }
      occurrences := occurrences[slot := n.captureId];
      out := Inserted(n.captureId);
    }

    /** Ledger, group and members go in one by one; the first violation takes all of them out again. */
    method AcceptGroup(n: NewGroup) returns (out: Outcome)
      requires Valid()
      modifies this
      ensures Result(Contents(), out) == AcceptGroupStep(old(Contents()), n)
      ensures Valid()
    {
      AcceptGroupKeeps(Contents(), n);
      if !ValidNewGroup(n) {
        return Failure(Invalid);
      }
      if n.key in ledgers {
        var target := ledgers[n.key].target;
        out := if target.hash != n.hash then Conflict
               else if target.groupId.None? then Failure(LedgerWithoutTarget)
               else if target.groupId.value !in groups then Failure(NotFound)
               else Existing(target.groupId.value);
        return;
      }
      out := InsertGroup(n);
    }

    method InsertGroup(n: NewGroup) returns (out: Outcome)
      requires ValidNewGroup(n) && n.key !in ledgers
      modifies this
      ensures Result(Contents(), out) == AcceptGroupStep(old(Contents()), n)
    {
      var saved := Contents();
      ledgers := ledgers[n.key := NewLedger(n.hash, n.request, n.acceptedAt, None, Some(n.groupId))];
      if n.groupId in groups {
        Rollback(saved);
        return Failure(UniqueGroup);
      }
      groups := groups[n.groupId := AcceptedGroup(n)];
      var inserted := InsertMembers(n);
      if !inserted {
        Rollback(saved);
        return Failure(UniqueCapture);
      }
      out := Inserted(n.groupId);
    }

    method InsertMembers(n: NewGroup) returns (ok: bool)
      requires DistinctCaptures(n.members)
      modifies `jobs, `members
      ensures ok <==> forall i :: 0 <= i < |n.members| ==> n.members[i].captureId !in old(jobs)
      ensures ok ==> jobs == WithMembers(old(jobs), n.members) && members == old(members)[n.groupId := CaptureIds(n.members)]
    {
      var rows: seq<Id> := [];
      var index := 0;
      while index < |n.members|
        invariant 0 <= index <= |n.members|
        invariant forall i :: 0 <= i < index ==> n.members[i].captureId !in old(jobs)
        invariant jobs == WithMembers(old(jobs), n.members[..index])
        invariant rows == CaptureIds(n.members[..index]) && members == old(members)
      {
        var member := n.members[index];
        NextMember(old(jobs), n.members, index);
        if member.captureId in jobs {
          return false;
        }
        jobs := jobs[member.captureId := AcceptedJob(member)];
        rows := rows + [member.captureId];
        index := index + 1;
      }
      assert n.members[..|n.members|] == n.members;
      members := members[n.groupId := rows];
      ok := true;
    }

    /** Queues every member and the group in one transaction. The counts that the code re-checks always
        come out right: neither lost-update branch can be reached. */
    method QueueGroup(g: Id, at: int) returns (out: Outcome)
      requires Valid()
      modifies this
      ensures Result(Contents(), out) == QueueGroupStep(old(Contents()), g, at)
      ensures Valid() && out != Failure(CasLost)
    {
      QueueGroupKeeps(Contents(), g, at);
      if g !in groups {
        return Failure(NotFound);
      }
      assert GroupRefs(Contents(), g);
      if groups[g].state == Queued {
        return Done;
      }
      if groups[g].state != Accepted {
        return Failure(WrongState);
      }
      var uniform := EveryMemberIn(g, {Accepted});
      if !uniform {
        return Failure(WrongState);
      }
      assert forall i :: 0 <= i < |members[g]| ==> IsMember(Contents(), members[g][i], g);
      var changed := QueueMembers(members[g], at);
      if changed != |members[g]| {
        assert false;
      }
      if groups[g].state != Accepted {
        assert false;
      }
      groups := groups[g := groups[g].(state := Queued, queuedAt := Some(at))];
      out := Done;
    }

    method EveryMemberIn(g: Id, states: set<JobState>) returns (ok: bool)
      requires g in members
      ensures ok <==> EveryMember(Contents(), g, states)
    {
      var index := 0;
      while index < |members[g]|
        invariant 0 <= index <= |members[g]|
        invariant forall i :: 0 <= i < index ==> members[g][i] in jobs ==> jobs[members[g][i]].state in states
      {
        if members[g][index] in jobs && jobs[members[g][index]].state !in states {
          return false;
        }
        index := index + 1;
      }
      ok := true;
    }

    /** UPDATE jobs SET state='QUEUED' for the ACCEPTED rows among `ids`; returns the rows changed. */
    method QueueMembers(ids: seq<Id>, at: int) returns (changed: nat)
      requires Distinct(ids) && forall i :: 0 <= i < |ids| ==> ids[i] in jobs && jobs[ids[i]].state == Accepted
      modifies `jobs
      ensures changed == |ids|
      ensures jobs == map c | c in old(jobs) :: if c in ids then QueuedJob(old(jobs)[c], at) else old(jobs)[c]
    {
      changed := 0;
      var index := 0;
      while index < |ids|
        invariant 0 <= index <= |ids| && changed == index
        invariant jobs == map c | c in old(jobs) :: if c in ids[..index] then QueuedJob(old(jobs)[c], at) else old(jobs)[c]
      {
        var c := ids[index];
        assert c !in ids[..index];
        assert ids[..index + 1] == ids[..index] + [c];
        if c in jobs && jobs[c].state == Accepted {
          jobs := jobs[c := QueuedJob(jobs[c], at)];
          changed := changed + 1;
        }
        index := index + 1;
      }
      assert ids[..|ids|] == ids;
    }

    method CompleteGroup(g: Id, state: JobState, result: Body, code: Option<Text>, message: Option<Text>, at: int) returns (out: Outcome)
      requires Valid()
      modifies this
      ensures Result(Contents(), out) == CompleteGroupStep(old(Contents()), g, state, result, code, message, at)
      ensures Valid() && out != Failure(CasLost)
    {
      CompleteGroupKeeps(Contents(), g, state, result, code, message, at);
      if !IsTerminal(state) {
        return Failure(Invalid);
      }
      if g !in groups {
        return Failure(NotFound);
      }
      assert GroupRefs(Contents(), g) && GroupStateGood(Contents(), g);
      if IsTerminal(groups[g].state) {
        return Done;
      }
      var ended := EveryMemberIn(g, TERMINAL_STATES);
      if !ended {
        return Failure(WrongState);
      }
      var bounded := BoundedMessage(message);
      if groups[g].state != Accepted && groups[g].state != Queued {
        assert false;
      }
      groups := groups[g := groups[g].(state := state, ending := Some(Ending(at, result, code, bounded)))];
      ledgers := map k | k in ledgers ::
        if ledgers[k].target.groupId == Some(g) && ledgers[k].state == InProgress
        then FinishedLedger(ledgers[k], state == Succeeded, at, result, code, bounded) else ledgers[k];
      out := Done;
    }

    /** UPDATE ... WHERE state = expected; the rows it changed decide the outcome. */
    method CompareAndSet(c: Id, expected: JobState, next: JobState, at: int) returns (out: Outcome)
      requires Valid()
      modifies `jobs
      ensures Result(Contents(), out) == CompareAndSetStep(old(Contents()), c, expected, next, at)
      ensures Valid()
    {
      CompareAndSetKeeps(Contents(), c, expected, next, at);
      if IsTerminal(expected) || IsTerminal(next) || !CanTransition(expected, next) || next == Persisting {
        return Failure(Invalid);
      }
      var changed := 0;
      if c in jobs && jobs[c].state == expected {
        jobs := jobs[c := jobs[c].(state := next, queuedAt := if next == Queued then Some(at) else jobs[c].queuedAt)];
        changed := 1;
      }
      if c !in jobs {
        return Failure(NotFound);
      }
      out := if changed == 1 then Changed else NotChanged;
    }

    /** The installation flag is set by a guarded UPDATE; the row read back afterwards tells a second
        start from a wrong state. */
    method BeginInstall(c: Id) returns (out: Outcome)
      requires Valid()
      modifies `jobs
      ensures Result(Contents(), out) == BeginInstallStep(old(Contents()), c)
      ensures Valid()
    {
      BeginInstallKeeps(Contents(), c);
      var changed := 0;
      if c in jobs && jobs[c].state == Persisting && !jobs[c].artifact.installStarted {
        jobs := jobs[c := InstallingJob(jobs[c])];
        changed := 1;
      }
      if c !in jobs {
        return Failure(NotFound);
      }
      if changed == 1 {
        return Started;
      }
      out := if jobs[c].state == Persisting && jobs[c].artifact.installStarted then AlreadyStarted else InstallWrongState;
    }

    method RecordInstalled(c: Id, sha: Text, bytes: nat) returns (out: Outcome)
      requires Valid()
      modifies this
      ensures Result(Contents(), out) == RecordInstalledStep(old(Contents()), c, sha, bytes)
      ensures Valid()
    {
      RecordInstalledKeeps(Contents(), c, sha, bytes);
      if !IsSha256(sha) || bytes > MAX_INTEGER {
        return Failure(Invalid);
      }
      if c !in jobs {
        return Failure(NotFound);
      }
      if jobs[c].artifact.expectedSha != Some(sha) || jobs[c].artifact.expectedBytes != Some(bytes) || c !in staged {
        return Failure(Mismatch);
      }
      var saved := Contents();
      var changed := 0;
      if jobs[c].state == Persisting && jobs[c].artifact.installStarted {
        jobs := jobs[c := InstalledJob(jobs[c], sha, bytes)];
        changed := 1;
      }
      if changed != 1 {
        Rollback(saved);
        return Failure(WrongState);
      }
      out := Done;
    }

    /** State, paths, expectations and the staged success commit together; the staged row is never a
        duplicate. */
    method BeginPersisting(c: Id, p: PendingInstall) returns (out: Outcome)
      requires Valid()
      modifies this
      ensures Result(Contents(), out) == BeginPersistingStep(old(Contents()), c, p)
      ensures Valid() && out != Failure(UniqueStaged)
    {
      BeginPersistingKeeps(Contents(), c, p);
      if !ValidPending(p) {
        return Failure(Invalid);
      }
      if c !in jobs {
        return Failure(NotFound);
      }
      if !BodyMatches(p.success.result, c, jobs[c].id) {
        return Failure(Mismatch);
      }
      if jobs[c].state != Acquiring && jobs[c].state != Encoding {
        return NotChanged;
      }
      jobs := jobs[c := PersistingJob(jobs[c], p)];
      if c in staged {
        assert false;
      }
      staged := staged[c := StageWrite(p.success)];
      out := Changed;
    }

    /** Terminal arbitration, statement by statement. After the checks the guarded UPDATE always hits
        its row: the "someone else won meanwhile" branch cannot be reached inside the transaction. */
    method Terminal(c: Id, w: TerminalWrite, cancellation: bool, expected: Option<set<JobState>>) returns (out: Outcome)
      requires Valid() && (cancellation <==> w.state == Cancelled)
      modifies this
      ensures Result(Contents(), out) == TerminalStep(old(Contents()), c, w, cancellation, expected)
      ensures Valid()
    {
      TerminalKeeps(Contents(), c, w, cancellation, expected);
      if !ValidWrite(w) {
        return Failure(Invalid);
      }
      if c !in jobs {
        return Failure(NotFound);
      }
      var refusal := Refusal(c, w, cancellation, expected);
      if refusal.Some? {
        return refusal.value;
      }
      Settle(c, w, cancellation);
      out := Won;
    }

    method Settle(c: Id, w: TerminalWrite, cancellation: bool)
      requires c in jobs && !IsTerminal(jobs[c].state) && !(cancellation && jobs[c].artifact.installStarted)
      modifies this
      ensures Contents() == Settled(old(Contents()), c, w)
    {
      var changed := UpdateTerminal(c, w, cancellation);
      if changed != 1 {
        assert false;
      }
      staged := staged - {c};
      ledgers := map k | k in ledgers ::
        if ledgers[k].target.captureId == Some(c) && ledgers[k].state == InProgress
        then FinishedLedger(ledgers[k], w.state == Succeeded, w.terminalAt, w.result, w.errorCode, BoundedMessage(w.errorMessage))
        else ledgers[k];
    }

    /** The guarded UPDATE and, unless the job succeeded, the one that clears its expectations. */
    method UpdateTerminal(c: Id, w: TerminalWrite, cancellation: bool) returns (changed: nat)
      requires c in jobs
      modifies `jobs
      ensures changed == if old(!IsTerminal(jobs[c].state) && (!cancellation || !jobs[c].artifact.installStarted)) then 1 else 0
      ensures changed == 1 ==> jobs == old(jobs)[c := FinishedJob(old(jobs)[c], w)]
    {
      if IsTerminal(jobs[c].state) || (cancellation && jobs[c].artifact.installStarted) {
        return 0;
      }
      jobs := jobs[c := jobs[c].(state := w.state,
        ending := Some(Ending(w.terminalAt, w.result, w.errorCode, BoundedMessage(w.errorMessage))))];
      if w.state != Succeeded {
        jobs := jobs[c := jobs[c].(artifact := jobs[c].artifact.(expectedSha := None, expectedBytes := None))];
      }
      changed := 1;
    }

    /** The checks before the terminal UPDATE, in the order the code makes them. */
    method Refusal(c: Id, w: TerminalWrite, cancellation: bool, expected: Option<set<JobState>>) returns (r: Option<Outcome>)
      requires ValidWrite(w) && c in jobs
      ensures r.Some? ==> TerminalStep(Contents(), c, w, cancellation, expected) == Result(Contents(), r.value)
      ensures r.None? ==> TerminalStep(Contents(), c, w, cancellation, expected) == Result(Settled(Contents(), c, w), Won)
      ensures r.None? ==> !IsTerminal(jobs[c].state) && !(cancellation && jobs[c].artifact.installStarted)
    {
      var before := jobs[c];
      if IsTerminal(before.state) {
        return Some(AlreadyTerminal);
      }
      if expected.Some? && before.state !in expected.value {
        return Some(Failure(WrongState));
      }
      if !BodyMatches(w.result, c, before.id) {
        return Some(Failure(Mismatch));
      }
      if cancellation && before.artifact.installStarted {
        return Some(InstallationWon);
      }
      if !CanTransition(before.state, w.state) {
        return Some(Failure(WrongState));
      }
      if w.state == Succeeded && PendingSuccess(Contents(), c) != Some(w) {
        return Some(Failure(Mismatch));
      }
      if w.state == Succeeded && !ReadyToSucceed(before) {
        return Some(Failure(WrongState));
      }
      r := None;
    }

    // ---- Pruning ------------------------------------------------------------------------------

    /** One job and what depends on it. A member row would hold the job back as a foreign key. */
    method DeleteJob(c: Id)
      requires forall g :: g in members ==> c !in members[g]
      modifies this
      ensures Contents() == DeleteJobs(old(Contents()), {c})
    {
      occurrences := map o | o in occurrences && occurrences[o] != c :: occurrences[o];
      jobs := jobs - {c};
      staged := staged - {c};
      ledgers := map k | k in ledgers && !DiesWith(ledgers[k], {c}) :: ledgers[k];
      assert occurrences == DeleteJobs(old(Contents()), {c}).occurrences;
    }

    /** Deletes the rows one by one. No delete trips a foreign key. */
    method DeleteTerminalJobs(ids: seq<Id>)
      requires Valid() && forall c :: c in ids ==> Removable(Contents(), c)
      modifies this
      ensures Contents() == DeleteJobs(old(Contents()), Elements(ids))
      ensures Valid()
    {
      DeleteJobsKeeps(Contents(), Elements(ids));
      forall c | c in ids ensures forall g :: g in members ==> c !in members[g] {
        assert Removable(Contents(), c);
        Unreferenced(Contents(), c);
      }
      DeleteEach(ids);
    }

    method DeleteEach(ids: seq<Id>)
      requires forall c, g :: c in ids && g in members ==> c !in members[g]
      modifies this
      ensures Contents() == DeleteJobs(old(Contents()), Elements(ids))
    {
      ghost var start := Contents();
      var index := 0;
      NothingDeleted(start);
      while index < |ids|
        invariant 0 <= index <= |ids| && members == start.members
        invariant Contents() == DeleteJobs(start, Elements(ids[..index]))
      {
        var c := ids[index];
        assert c in ids;
        ElementsGrow(ids, index);
        DeleteOneMore(start, Elements(ids[..index]), c);
        DeleteJob(c);
        index := index + 1;
      }
      assert ids[..|ids|] == ids;
    }

    /** Enforces the result-record cap: select the oldest, then delete them. */
    method EnforceLimit(maximum: nat, limit: nat) returns (out: Outcome, ghost victims: set<Id>)
      requires Valid()
      modifies this
      ensures out != Failure(Invalid) ==> Selected(old(Contents()), Step.EnforceLimit(maximum, limit, victims))
      ensures Result(Contents(), out) == Prune(old(Contents()), Step.EnforceLimit(maximum, limit, victims))
      ensures Valid()
    {
      victims := {};
      if !ValidLimit(limit) || maximum > MAX_INTEGER {
        return Failure(Invalid), victims;
      }
      var terminal := |set c | c in jobs && IsTerminal(jobs[c].state)|;
      assert (set c | c in jobs && IsTerminal(jobs[c].state)) == TerminalJobs(Contents());
      if terminal <= maximum {
        NothingDeleted(Contents());
        return Pruned(0), victims;
      }
      var ids := SelectRemovable(Fewer(terminal - maximum, limit));
      victims := Elements(ids);
      DistinctSize(ids);
      DeleteTerminalJobs(ids);
      out := Pruned(|ids|);
    }

    /** Prunes by age: select the oldest of the expired, then delete them. */
    method PruneJobs(before: int, limit: nat) returns (out: Outcome, ghost victims: set<Id>)
      requires Valid()
      modifies this
      ensures out != Failure(Invalid) ==> Selected(old(Contents()), Step.PruneJobs(before, limit, victims))
      ensures Result(Contents(), out) == Prune(old(Contents()), Step.PruneJobs(before, limit, victims))
      ensures Valid()
    {
      victims := {};
      if !ValidLimit(limit) {
        return Failure(Invalid), victims;
      }
      var ids := SelectExpired(before, limit);
      victims := Elements(ids);
      DistinctSize(ids);
      DeleteTerminalJobs(ids);
      out := Pruned(|ids|);
    }

    method SelectExpired(before: int, k: nat) returns (ids: seq<Id>)
      ensures Distinct(ids) && forall c :: c in ids ==> Removable(Contents(), c)
      ensures OldestJobs(Contents(), ExpiredJobs(Contents(), before), k, Elements(ids))
    {
      var rows := map c | c in jobs && jobs[c].id.groupId.None? && IsTerminal(jobs[c].state)
                          && jobs[c].ending.Some? && jobs[c].ending.value.at < before
                          && !(exists l :: l in ledgers && ledgers[l].target.captureId == Some(c) && ledgers[l].state == OutcomeUnknown)
                       :: JobStamp(Contents(), c);
      assert rows.Keys == ExpiredJobs(Contents(), before);
      ids := SelectOldest(rows, k);
      DistinctSize(ids);
      assert |rows.Keys| == |rows|;
    }

    /** Prunes whole groups: the members' rows, their jobs, the group and its ledger, group by group. */
    method PruneGroups(before: int, limit: nat) returns (out: Outcome, ghost victims: set<Id>)
      requires Valid()
      modifies this
      ensures out != Failure(Invalid) ==> Selected(old(Contents()), Step.PruneGroups(before, limit, victims))
      ensures Result(Contents(), out) == Prune(old(Contents()), Step.PruneGroups(before, limit, victims))
      ensures Valid()
    {
      victims := {};
      if !ValidLimit(limit) {
        return Failure(Invalid), victims;
      }
      var ids := SelectExpiredGroups(before, limit);
      victims := Elements(ids);
      DistinctSize(ids);
      DeleteExpiredGroups(ids);
      out := Pruned(|ids|);
    }

    method SelectExpiredGroups(before: int, k: nat) returns (ids: seq<Id>)
      requires members.Keys == groups.Keys
      ensures Distinct(ids) && forall g :: g in ids ==> g in groups
      ensures OldestGroups(Contents(), ExpiredGroups(Contents(), before), k, Elements(ids))
    {
      var rows := map g | g in groups && IsTerminal(groups[g].state)
                          && groups[g].ending.Some? && groups[g].ending.value.at < before
                          && EveryMember(Contents(), g, TERMINAL_STATES)
                          && !(exists l :: l in ledgers && ledgers[l].target.groupId == Some(g) && ledgers[l].state == OutcomeUnknown)
                       :: GroupStamp(Contents(), g);
      assert rows.Keys == ExpiredGroups(Contents(), before);
      ids := SelectOldest(rows, k);
      DistinctSize(ids);
      assert |rows.Keys| == |rows|;
    }

    method DeleteExpiredGroups(ids: seq<Id>)
      requires Valid() && Distinct(ids) && forall g :: g in ids ==> g in groups
      modifies this
      ensures Contents() == DeleteGroups(old(Contents()), Elements(ids))
      ensures Valid()
    {
      DeleteGroupsKeeps(Contents(), Elements(ids));
      MembersAreDisjoint(Contents());
      DeleteEachGroup(ids);
    }

    method DeleteEachGroup(ids: seq<Id>)
      requires Distinct(ids) && (forall g :: g in ids ==> g in members) && Disjoint(members)
      modifies this
      ensures Contents() == DeleteGroups(old(Contents()), Elements(ids))
    {
      ghost var start := Contents();
      var index := 0;
      while index < |ids|
        invariant 0 <= index <= |ids| && members == start.members - Elements(ids[..index])
        invariant Contents() == GroupsDeleted(start, ids[..index])
      {
        var g := ids[index];
        assert g in ids && g !in ids[..index];
        assert ids[..index + 1] == ids[..index] + [g];
        DeleteGroup(g);
        index := index + 1;
      }
      assert ids[..|ids|] == ids;
      AllGroupsDeleted(start, ids);
    }

    /** One group. Its member rows go first, so that its jobs are free to go. */
    method DeleteGroup(g: Id)
      requires g in members && Disjoint(members)
      modifies this
      ensures Contents() == DeleteGroups(old(Contents()), {g})
    {
      var captures := members[g];
      members := members - {g};
      DeleteMembers(captures);
      groups := groups - {g};
      ledgers := map k | k in ledgers && !DiesWithGroup(ledgers[k], {g}) :: ledgers[k];
      assert MembersOf(old(Contents()), {g}) == Elements(captures);
    }

    method DeleteMembers(captures: seq<Id>)
      requires forall c, h :: c in captures && h in members ==> c !in members[h]
      modifies `jobs, `staged, `occurrences
      ensures jobs == old(jobs) - Elements(captures) && staged == old(staged) - Elements(captures)
      ensures occurrences == map o | o in old(occurrences) && old(occurrences)[o] !in Elements(captures) :: old(occurrences)[o]
    {
      var index := 0;
      while index < |captures|
        invariant 0 <= index <= |captures|
        invariant jobs == old(jobs) - Elements(captures[..index]) && staged == old(staged) - Elements(captures[..index])
        invariant occurrences == map o | o in old(occurrences) && old(occurrences)[o] !in Elements(captures[..index]) :: old(occurrences)[o]
      {
        var c := captures[index];
        ElementsGrow(captures, index);
        occurrences := map o | o in occurrences && occurrences[o] != c :: occurrences[o];
        jobs := jobs - {c};
        staged := staged - {c};
        index := index + 1;
      }
      assert captures[..|captures|] == captures;
    }

    /** Prunes finished standalone ledgers by age, key by key. The state re-checked by each DELETE still holds. */
    method PruneLedgers(before: int, limit: nat) returns (out: Outcome, ghost doomed: set<LedgerKey>)
      requires Valid()
      modifies this
      ensures out != Failure(Invalid) ==> Selected(old(Contents()), Step.PruneLedgers(before, limit, doomed))
      ensures Result(Contents(), out) == Prune(old(Contents()), Step.PruneLedgers(before, limit, doomed))
      ensures Valid()
    {
      doomed := {};
      if !ValidLimit(limit) {
        return Failure(Invalid), doomed;
      }
      var keys := SelectExpiredLedgers(before, limit);
      doomed := Elements(keys);
      DistinctSize(keys);
      PruneLedgersKeeps(Contents(), doomed);
      DeleteLedgers(keys);
      out := Pruned(|keys|);
    }

    method SelectExpiredLedgers(before: int, k: nat) returns (keys: seq<LedgerKey>)
      ensures Distinct(keys)
      ensures OldestLedgers(Contents(), ExpiredLedgers(Contents(), before), k, Elements(keys))
    {
      LedgerBeforeIsStrictTotal();
      var rows := set l | l in ledgers && Standalone(ledgers[l]) && IsFinished(ledgers[l]) && ledgers[l].updatedAt < before
                        :: LedgerStamp(ledgers[l].updatedAt, l);
      LedgerRows(Contents(), ExpiredLedgers(Contents(), before), rows);
      var picked := SelectFirst(rows, LedgerBefore, k);
      keys := seq(|picked|, i requires 0 <= i < |picked| => picked[i].key);
      LedgersPicked(Contents(), ExpiredLedgers(Contents(), before), rows, k, picked, keys);
    }

    method DeleteLedgers(keys: seq<LedgerKey>)
      requires forall l :: l in keys ==> l in ledgers && IsFinished(ledgers[l])
      modifies `ledgers
      ensures ledgers == old(ledgers) - Elements(keys)
    {
      var index := 0;
      while index < |keys|
        invariant 0 <= index <= |keys| && ledgers == old(ledgers) - Elements(keys[..index])
      {
        var l := keys[index];
        ElementsGrow(keys, index);
        if l in ledgers && IsFinished(ledgers[l]) {
          ledgers := ledgers - {l};
        }
        index := index + 1;
      }
      assert keys[..|keys|] == keys;
    }

    method SelectRemovable(k: nat) returns (ids: seq<Id>)
      ensures Distinct(ids) && forall c :: c in ids ==> Removable(Contents(), c)
      ensures OldestJobs(Contents(), RemovableJobs(Contents()), k, Elements(ids))
    {
      var rows := map c | c in jobs && jobs[c].id.groupId.None? && IsTerminal(jobs[c].state)
                          && !(exists l :: l in ledgers && ledgers[l].target.captureId == Some(c) && ledgers[l].state == OutcomeUnknown)
                       :: JobStamp(Contents(), c);
      assert rows.Keys == RemovableJobs(Contents());
      ids := SelectOldest(rows, k);
      DistinctSize(ids);
      assert |rows.Keys| == |rows|;
    }
  }

  ghost predicate RowsOf(db: Db, eligible: set<LedgerKey>, rows: set<LedgerStamp>)
    requires eligible <= db.ledgers.Keys
  {
    forall s :: s in rows <==> s.key in eligible && s == LedgerStampOf(db, s.key)
  }

  lemma {:induction false} LedgerRows(db: Db, eligible: set<LedgerKey>, rows: set<LedgerStamp>)
    requires eligible <= db.ledgers.Keys && RowsOf(db, eligible, rows)
    ensures |rows| == |eligible|
    decreases |eligible|
  {
    if eligible != {} {
      var l :| l in eligible;
      assert LedgerStampOf(db, l) in rows;
      LedgerRows(db, eligible - {l}, rows - {LedgerStampOf(db, l)});
      assert eligible == (eligible - {l}) + {l} && rows == (rows - {LedgerStampOf(db, l)}) + {LedgerStampOf(db, l)};
    } else {
      assert rows == {};
    }
  }

  /** The keys of the picked rows are the oldest. */
  lemma LedgersPicked(db: Db, eligible: set<LedgerKey>, rows: set<LedgerStamp>, k: nat, picked: seq<LedgerStamp>, keys: seq<LedgerKey>)
    requires eligible <= db.ledgers.Keys && RowsOf(db, eligible, rows) && |rows| == |eligible|
    requires Distinct(picked) && (forall s :: s in picked ==> s in rows) && |picked| == Fewer(k, |rows|)
    requires forall s, t :: s in picked && t in rows && t !in picked ==> LedgerBefore(s, t)
    requires |keys| == |picked| && forall i :: 0 <= i < |keys| ==> keys[i] == picked[i].key
    ensures Distinct(keys) && OldestLedgers(db, eligible, k, Elements(keys))
  {
    assert forall i :: 0 <= i < |picked| ==> picked[i] in picked && picked[i] == LedgerStampOf(db, keys[i]);
    DistinctSize(keys);
    forall v, e | v in Elements(keys) && e in eligible - Elements(keys)
      ensures LedgerBefore(LedgerStampOf(db, v), LedgerStampOf(db, e))
    {
      assert LedgerStampOf(db, e) in rows && LedgerStampOf(db, e) !in picked;
    }
  }

  ghost predicate DistinctCaptures(members: seq<NewJob>) {
    forall i, j :: 0 <= i < j < |members| ==> members[i].captureId != members[j].captureId
  }

  /** Inserting one more member, whose id no earlier member has. */
  lemma NextMember(jobs: map<Id, Job>, members: seq<NewJob>, index: nat)
    requires index < |members| && DistinctCaptures(members)
    ensures WithMembers(jobs, members[..index + 1])
         == WithMembers(jobs, members[..index])[members[index].captureId := AcceptedJob(members[index])]
    ensures CaptureIds(members[..index + 1]) == CaptureIds(members[..index]) + [members[index].captureId]
    ensures members[index].captureId in WithMembers(jobs, members[..index]) <==> members[index].captureId in jobs
  {
    assert members[..index + 1][..index] == members[..index];
    WithMembersKeeps(jobs, members[..index], members[index].captureId);
  }

  function Elements<T(==)>(ids: seq<T>): set<T> {
    set c | c in ids
  }

  lemma ElementsGrow<T>(ids: seq<T>, index: nat)
    requires index < |ids|
    ensures Elements(ids[..index + 1]) == Elements(ids[..index]) + {ids[index]}
  {
    assert ids[..index + 1] == ids[..index] + [ids[index]];
  }

  lemma {:induction false} DistinctSize<T>(ids: seq<T>)
    requires Distinct(ids)
    ensures |Elements(ids)| == |ids|
  {
    if ids != [] {
      var front := ids[..|ids| - 1];
      DistinctSize(front);
      ElementsGrow(ids, |ids| - 1);
      assert ids[..|ids|] == ids && ids[|ids| - 1] !in front;
    }
  }

  /** A removable job is in no group, so the members table does not hold it back. */
  lemma Unreferenced(db: Db, c: Id)
    requires Inv(db) && (c in db.jobs ==> db.jobs[c].id.groupId.None?)
    ensures forall g :: g in db.members ==> c !in db.members[g]
  {
    forall g | g in db.members ensures c !in db.members[g] {
      assert GroupRefs(db, g);
      assert forall i :: 0 <= i < |db.members[g]| ==> IsMember(db, db.members[g][i], g);
    }
  }

  lemma DeleteOneMore(db: Db, done: set<Id>, c: Id)
    ensures DeleteJobs(DeleteJobs(db, done), {c}) == DeleteJobs(db, done + {c})
  {
    var a, b := DeleteJobs(DeleteJobs(db, done), {c}), DeleteJobs(db, done + {c});
    assert a.jobs == b.jobs && a.staged == b.staged;
    assert a.occurrences == b.occurrences;
    assert a.ledgers == b.ledgers;
  }

  lemma NoGroupDeleted(db: Db)
    ensures DeleteGroups(db, {}) == db
  {
    var after := DeleteGroups(db, {});
    assert MembersOf(db, {}) == {};
    assert after.jobs == db.jobs && after.staged == db.staged && after.occurrences == db.occurrences;
    assert after.members == db.members && after.groups == db.groups && after.ledgers == db.ledgers;
  }

  lemma MembersSplit(db: Db, done: set<Id>, g: Id)
    requires g !in done
    ensures MembersOf(db, done + {g}) == MembersOf(db, done) + MembersOf(DeleteGroups(db, done), {g})
  {
    var mid := DeleteGroups(db, done);
    assert mid.members == db.members - done;
    forall c | c in MembersOf(db, done + {g}) ensures c in MembersOf(db, done) + MembersOf(mid, {g}) {
      var h :| h in done + {g} && h in db.members && c in db.members[h];
      assert h in done || (h in {g} && h in mid.members && c in mid.members[h]);
    }
  }

  lemma DeleteOneMoreGroup(db: Db, done: set<Id>, g: Id)
    requires g !in done
    ensures DeleteGroups(DeleteGroups(db, done), {g}) == DeleteGroups(db, done + {g})
  {
    var a, b := DeleteGroups(DeleteGroups(db, done), {g}), DeleteGroups(db, done + {g});
    MembersSplit(db, done, g);
    assert a.jobs == b.jobs && a.staged == b.staged && a.occurrences == b.occurrences;
    assert a.members == b.members && a.groups == b.groups && a.ledgers == b.ledgers;
  }

  /** Deleting the groups in turn deletes them all. */
  ghost function GroupsDeleted(db: Db, ids: seq<Id>): Db {
    if ids == [] then db else DeleteGroups(GroupsDeleted(db, ids[..|ids| - 1]), {ids[|ids| - 1]})
  }

  lemma {:induction false} AllGroupsDeleted(db: Db, ids: seq<Id>)
    requires Distinct(ids)
    ensures GroupsDeleted(db, ids) == DeleteGroups(db, Elements(ids))
  {
    if ids == [] {
      NoGroupDeleted(db);
    } else {
      var front := ids[..|ids| - 1];
      AllGroupsDeleted(db, front);
      ElementsGrow(ids, |ids| - 1);
      assert ids[..|ids|] == ids && ids[|ids| - 1] !in front;
      DeleteOneMoreGroup(db, Elements(front), ids[|ids| - 1]);
    }
  }

  ghost predicate Disjoint(members: map<Id, seq<Id>>) {
    forall g, h, c :: g in members && h in members && h != g && c in members[g] ==> c !in members[h]
  }

  /** No capture is a member of two groups. */
  lemma MembersAreDisjoint(db: Db)
    requires Inv(db)
    ensures Disjoint(db.members)
  {
    forall g, h, c | g in db.members && h in db.members && h != g && c in db.members[g] ensures c !in db.members[h] {
      assert GroupRefs(db, g) && GroupRefs(db, h);
      assert forall i :: 0 <= i < |db.members[g]| ==> IsMember(db, db.members[g][i], g);
      assert forall i :: 0 <= i < |db.members[h]| ==> IsMember(db, db.members[h][i], h);
    }
  }
}
