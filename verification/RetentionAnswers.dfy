/** Which rows each retention transaction may take, in which order, and what goes with them, column by column. */
module RetentionAnswers {
  import opened Texts
  import opened Options
  import opened JobStates
  import opened CatalogModel
  import opened CatalogAnswers
  import opened CatalogOutcomes

  /** Some outcome unknown to us hangs on the row. */
  ghost predicate Unsettled(db: Db, capture: Option<Id>, group: Option<Id>) {
    exists k :: k in db.ledgers && db.ledgers[k].state == OutcomeUnknown
                && ((capture.Some? && db.ledgers[k].target.captureId == capture)
                    || (group.Some? && db.ledgers[k].target.groupId == group))
  }

  /** Jobs of their own, outside any group, that have ended with every outcome known. */
  lemma RemovableJobsAre(db: Db, c: Id)
    ensures c in RemovableJobs(db) <==>
      c in db.jobs && db.jobs[c].id.groupId == None && db.jobs[c].state in ENDED && !Unsettled(db, Some(c), None)
  {
    if c in db.jobs && HasUnknownLedger(db, c) {
      var k :| k in db.ledgers && db.ledgers[k].target.captureId == Some(c) && db.ledgers[k].state == OutcomeUnknown;
      assert Unsettled(db, Some(c), None);
    }
  }

  /** Of those, the ones that ended before the cutoff. */
  lemma ExpiredJobsAre(db: Db, before: int, c: Id)
    ensures c in ExpiredJobs(db, before) <==>
      && c in db.jobs && db.jobs[c].id.groupId == None && db.jobs[c].state in ENDED && !Unsettled(db, Some(c), None)
      && db.jobs[c].ending != None && db.jobs[c].ending.value.at < before
  {
    RemovableJobsAre(db, c);
  }

  /** Groups that ended before the cutoff, with every member ended and every outcome known. */
  lemma ExpiredGroupsAre(db: Db, before: int, g: Id)
    ensures g in ExpiredGroups(db, before) <==>
      && g in db.groups && db.groups[g].state in ENDED && db.groups[g].ending != None && db.groups[g].ending.value.at < before
      && AllMembersIn(db, g, ENDED) && !Unsettled(db, None, Some(g))
  {
    assert TERMINAL_STATES == ENDED;
    MemberWords(db, g, ENDED);
    if g in db.groups && Unsettled(db, None, Some(g)) {
      var k :| k in db.ledgers && db.ledgers[k].state == OutcomeUnknown && db.ledgers[k].target.groupId == Some(g);
    }
  }

  /** Finished standalone commands last touched before the cutoff. */
  lemma ExpiredLedgersAre(db: Db, before: int, k: LedgerKey)
    ensures k in ExpiredLedgers(db, before) <==>
      && k in db.ledgers && StandsAlone(db.ledgers[k]) && db.ledgers[k].state in {LedgerSucceeded, LedgerFailed}
      && db.ledgers[k].updatedAt < before
  {}

  /** What counts against the maximum is every ended job, in a group or not. */
  lemma ExcessIs(db: Db, maximum: nat)
    ensures TerminalJobs(db) == set c | c in db.jobs && db.jobs[c].state in ENDED
    ensures |TerminalJobs(db)| <= maximum ==> Excess(db, maximum) == 0
    ensures |TerminalJobs(db)| > maximum ==> Excess(db, maximum) + maximum == |TerminalJobs(db)|
  {}

  /** Rows go by the time they ended, and within one time by byte order of their ids. */
  lemma JobsGoOldestFirst(db: Db, a: Id, b: Id)
    requires a in db.jobs && b in db.jobs && db.jobs[a].ending.Some? && db.jobs[b].ending.Some?
    ensures Before(JobStamp(db, a), JobStamp(db, b)) <==>
      var x, y := db.jobs[a].ending.value.at, db.jobs[b].ending.value.at;
      x < y || (x == y && ByteOrder(a, b))
  {
    LessIsByteOrder(a, b);
  }

  lemma GroupsGoOldestFirst(db: Db, a: Id, b: Id)
    requires a in db.groups && b in db.groups && db.groups[a].ending.Some? && db.groups[b].ending.Some?
    ensures Before(GroupStamp(db, a), GroupStamp(db, b)) <==>
      var x, y := db.groups[a].ending.value.at, db.groups[b].ending.value.at;
      x < y || (x == y && ByteOrder(a, b))
  {
    LessIsByteOrder(a, b);
  }

  /** Ledgers go by the time they were last touched, then by camera, verb and request id. */
  lemma LedgersGoOldestFirst(db: Db, a: LedgerKey, b: LedgerKey)
    requires a in db.ledgers && b in db.ledgers
    ensures LedgerBefore(LedgerStampOf(db, a), LedgerStampOf(db, b)) <==>
      var x, y := db.ledgers[a].updatedAt, db.ledgers[b].updatedAt;
      x < y || (x == y && (ByteOrder(a.instance, b.instance) || (a.instance == b.instance &&
        (ByteOrder(a.verb, b.verb) || (a.verb == b.verb && ByteOrder(a.requestId, b.requestId))))))
  {
    LessIsByteOrder(a.instance, b.instance);
    LessIsByteOrder(a.verb, b.verb);
    LessIsByteOrder(a.requestId, b.requestId);
  }

  /** The limit of a batch is checked first. */
  predicate Asked(s: Step)
    requires IsPrune(s)
  {
    1 <= s.limit <= 10_000 && (s.EnforceLimit? ==> s.maximum < 0x8000_0000_0000_0000)
  }

  lemma PruneAnswers(db: Db, s: Step)
    requires IsPrune(s)
    ensures
      var r := Apply(db, s);
      && (r.out == Failure(Invalid) <==> !Asked(s)) && (!Asked(s) ==> r.db == db)
      && (Asked(s) ==> r.out == Pruned(if s.PruneLedgers? then |s.doomed| else |s.victims|))
  {
    assert Apply(db, s) == Prune(db, s);
  }

  /** What goes with jobs: their staged success, their occurrences, and their ledgers unless unknown. */
  lemma JobsGoWith(db: Db, s: Step)
    requires (s.PruneJobs? || s.EnforceLimit?) && Asked(s)
    ensures
      var after := Apply(db, s).db;
      && after.groups == db.groups && after.members == db.members
      && after.jobs == db.jobs - s.victims && after.staged == db.staged - s.victims
      && (forall o :: o in after.occurrences <==> o in db.occurrences && db.occurrences[o] !in s.victims)
      && (forall o :: o in after.occurrences ==> after.occurrences[o] == db.occurrences[o])
      && (forall k :: k in after.ledgers <==>
            && k in db.ledgers
            && (db.ledgers[k].state == OutcomeUnknown || forall v :: v in s.victims ==> db.ledgers[k].target.captureId != Some(v)))
      && (forall k :: k in after.ledgers ==> after.ledgers[k] == db.ledgers[k])
  {
    assert Apply(db, s) == Prune(db, s);
  }

  /** What goes with groups: every member with all that is its own, and the group's ledgers unless unknown. */
  lemma GroupsGoWith(db: Db, s: Step)
    requires s.PruneGroups? && Asked(s)
    ensures
      var after := Apply(db, s).db;
      && after.groups == db.groups - s.victims && after.members == db.members - s.victims
      && (forall c :: c in after.jobs <==> c in db.jobs && !MemberOfAny(db, s.victims, c))
      && (forall c :: c in after.jobs ==> after.jobs[c] == db.jobs[c])
      && (forall c :: c in after.staged <==> c in db.staged && !MemberOfAny(db, s.victims, c))
      && (forall k :: k in after.ledgers <==>
            && k in db.ledgers
            && (db.ledgers[k].state == OutcomeUnknown || forall v :: v in s.victims ==> db.ledgers[k].target.groupId != Some(v)))
      && (forall k :: k in after.ledgers ==> after.ledgers[k] == db.ledgers[k])
  {
    assert Apply(db, s) == Prune(db, s);
    forall c ensures c in MembersOf(db, s.victims) <==> MemberOfAny(db, s.victims, c) {}
  }

  ghost predicate MemberOfAny(db: Db, groups: set<Id>, c: Id) {
    exists g :: g in groups && g in db.members && c in db.members[g]
  }
}
