/** Oldest-first selection, and what count retention may remove. */
module Retention {
  import opened Texts
  import opened Options
  import opened JobStates
  import opened CatalogModel
  import opened Selection

  // ---- The row order ------------------------------------------------------------------------------

  lemma BeforeIsTotal(a: Stamp, b: Stamp)
    ensures Before(a, b) || a == b || Before(b, a)
    ensures !(Before(a, b) && Before(b, a)) && !Before(a, a)
  {
    Trichotomy(a.id, b.id);
    Trichotomy(a.id, a.id);
  }

  lemma BeforeIsTransitive(a: Stamp, b: Stamp, c: Stamp)
    requires Before(a, b) && Before(b, c)
    ensures Before(a, c)
  {
    if a.time == b.time == c.time {
      Transitive(a.id, b.id, c.id);
    }
  }

  lemma BeforeIsStrictTotal()
    ensures StrictTotal(Before)
  {
    forall a, b ensures Before(a, b) || a == b || Before(b, a) { BeforeIsTotal(a, b); }
    forall a, b | Before(a, b) ensures a != b && !Before(b, a) { BeforeIsTotal(a, b); }
    forall a, b, c | Before(a, b) && Before(b, c) ensures Before(a, c) { BeforeIsTransitive(a, b, c); }
  }

  lemma KeyBeforeIsTotal(a: LedgerKey, b: LedgerKey)
    ensures KeyBefore(a, b) || a == b || KeyBefore(b, a)
    ensures !(KeyBefore(a, b) && KeyBefore(b, a)) && !KeyBefore(a, a)
  {
    Trichotomy(a.instance, b.instance);
    Trichotomy(a.verb, b.verb);
    Trichotomy(a.requestId, b.requestId);
  }

  lemma KeyBeforeIsTransitive(a: LedgerKey, b: LedgerKey, c: LedgerKey)
    requires KeyBefore(a, b) && KeyBefore(b, c)
    ensures KeyBefore(a, c)
  {
    if Less(a.instance, b.instance) && Less(b.instance, c.instance) { Transitive(a.instance, b.instance, c.instance); }
    if Less(a.verb, b.verb) && Less(b.verb, c.verb) { Transitive(a.verb, b.verb, c.verb); }
    if Less(a.requestId, b.requestId) && Less(b.requestId, c.requestId) { Transitive(a.requestId, b.requestId, c.requestId); }
  }

  lemma LedgerBeforeIsStrictTotal()
    ensures StrictTotal(LedgerBefore)
  {
    forall a, b ensures LedgerBefore(a, b) || a == b || LedgerBefore(b, a) { KeyBeforeIsTotal(a.key, b.key); }
    forall a, b | LedgerBefore(a, b) ensures a != b && !LedgerBefore(b, a) { KeyBeforeIsTotal(a.key, b.key); }
    forall a, b, c | LedgerBefore(a, b) && LedgerBefore(b, c) ensures LedgerBefore(a, c) {
      if a.time == b.time == c.time { KeyBeforeIsTransitive(a.key, b.key, c.key); }
    }
  }

  // ---- ORDER BY ... LIMIT ---------------------------------------------------------------------------

  /** A table keyed by id whose stamps carry that id. */
  ghost predicate Stamped(rows: map<Id, Stamp>) {
    forall c :: c in rows ==> rows[c].id == c
  }

  /** The `limit` oldest rows, oldest first. */
  method SelectOldest(rows: map<Id, Stamp>, limit: nat) returns (ids: seq<Id>)
    requires Stamped(rows)
    ensures Distinct(ids) && forall c :: c in ids ==> c in rows
    ensures |ids| == Fewer(limit, |rows|)
    ensures forall i, j :: 0 <= i < j < |ids| ==> Before(rows[ids[i]], rows[ids[j]])
    ensures forall c, d :: c in ids && d in rows && d !in ids ==> Before(rows[c], rows[d])
  {
    BeforeIsStrictTotal();
    StampsCounted(rows);
    var picked := SelectFirst(rows.Values, Before, limit);
    assert forall s :: s in picked ==> s.id in rows && rows[s.id] == s;
    ids := seq(|picked|, i requires 0 <= i < |picked| => picked[i].id);
    assert forall i :: 0 <= i < |picked| ==> picked[i] in picked && rows[ids[i]] == picked[i];
    forall c, d | c in ids && d in rows && d !in ids ensures Before(rows[c], rows[d]) {
      assert rows[d] in rows.Values && rows[d] !in picked;
    }
  }

  lemma {:induction false} StampsCounted(rows: map<Id, Stamp>)
    requires Stamped(rows)
    ensures |rows.Values| == |rows|
    decreases |rows|
  {
    if rows != map[] {
      var c :| c in rows;
      var rest := rows - {c};
      StampsCounted(rest);
      assert rows.Values == rest.Values + {rows[c]} && rows[c] !in rest.Values;
      assert rows.Keys == rest.Keys + {c};
    }
  }

  /** The selection is unique: a total order leaves no choice of victims. */
  lemma SelectionIsUnique(db: Db, eligible: set<Id>, k: nat, a: set<Id>, b: set<Id>)
    requires eligible <= db.jobs.Keys && OldestJobs(db, eligible, k, a) && OldestJobs(db, eligible, k, b)
    ensures a == b
  {
    if a != b {
      var x, y := ChoicesDiffer(a, b);
      assert Before(JobStamp(db, x), JobStamp(db, y)) && Before(JobStamp(db, y), JobStamp(db, x));
      BeforeIsTotal(JobStamp(db, x), JobStamp(db, y));
    }
  }

  lemma LedgerSelectionIsUnique(db: Db, eligible: set<LedgerKey>, k: nat, a: set<LedgerKey>, b: set<LedgerKey>)
    requires eligible <= db.ledgers.Keys && OldestLedgers(db, eligible, k, a) && OldestLedgers(db, eligible, k, b)
    ensures a == b
  {
    if a != b {
      var x, y := ChoicesDiffer(a, b);
      assert LedgerBefore(LedgerStampOf(db, x), LedgerStampOf(db, y)) && LedgerBefore(LedgerStampOf(db, y), LedgerStampOf(db, x));
      KeyBeforeIsTotal(x, y);
    }
  }

  // ---- Count retention ----------------------------------------------------------------------------

  ghost predicate DeletesOldest(db: Db, eligible: set<Id>, after: Db, victims: set<Id>)
    requires eligible <= db.jobs.Keys
  {
    && victims <= eligible && after.jobs.Keys == db.jobs.Keys - victims
    && (forall c :: c in after.jobs ==> after.jobs[c] == db.jobs[c])
    && (forall v, e :: v in victims && e in eligible && e in after.jobs ==> Before(JobStamp(db, v), JobStamp(db, e)))
  }

  lemma DeletedOldest(db: Db, eligible: set<Id>, k: nat, victims: set<Id>)
    requires eligible <= db.jobs.Keys && OldestJobs(db, eligible, k, victims)
    ensures DeletesOldest(db, eligible, DeleteJobs(db, victims), victims)
  {
    var after := DeleteJobs(db, victims);
    assert after.jobs == db.jobs - victims;
  }

  lemma TerminalCount(db: Db, victims: set<Id>)
    requires victims <= TerminalJobs(db)
    ensures |TerminalJobs(DeleteJobs(db, victims))| == |TerminalJobs(db)| - |victims|
  {
    var after := DeleteJobs(db, victims);
    assert TerminalJobs(after) == TerminalJobs(db) - victims;
    assert TerminalJobs(db) == TerminalJobs(after) + victims;
  }

  /** Count retention removes exactly min(excess, limit, eligible) rows, the oldest of the ungrouped
      terminal ones, leaves all other rows as they are, never takes the terminal count below the cap,
      and changes nothing while the cap is not exceeded. */
  lemma CountRetentionIsExact(db: Db, maximum: nat, limit: nat, victims: set<Id>)
    requires Selected(db, EnforceLimit(maximum, limit, victims))
    ensures |victims| == Fewer(Fewer(Excess(db, maximum), limit), |RemovableJobs(db)|)
    ensures DeletesOldest(db, RemovableJobs(db), DeleteJobs(db, victims), victims)
    ensures |TerminalJobs(DeleteJobs(db, victims))| == |TerminalJobs(db)| - |victims|
    ensures |TerminalJobs(DeleteJobs(db, victims))| >= Fewer(|TerminalJobs(db)|, maximum)
    ensures |TerminalJobs(db)| <= maximum ==> DeleteJobs(db, victims) == db
    ensures ValidLimit(limit) && maximum <= MAX_INTEGER ==>
      Apply(db, EnforceLimit(maximum, limit, victims)) == Result(DeleteJobs(db, victims), Pruned(|victims|))
  {
    DeletedOldest(db, RemovableJobs(db), Fewer(Excess(db, maximum), limit), victims);
    assert victims <= TerminalJobs(db);
    TerminalCount(db, victims);
    if |TerminalJobs(db)| <= maximum {
      assert victims == {};
      NothingDeleted(db);
    }
  }

  lemma NothingDeleted(db: Db)
    ensures DeleteJobs(db, {}) == db
  {
    var after := DeleteJobs(db, {});
    assert after.jobs == db.jobs && after.staged == db.staged;
    assert after.occurrences == db.occurrences;
    assert after.ledgers == db.ledgers;
  }

  /** Age retention, likewise, among the rows whose terminal time is before the cutoff. It keeps every
      standalone ledger and every unknown outcome. */
  lemma AgeRetentionIsExact(db: Db, before: int, limit: nat, victims: set<Id>)
    requires Selected(db, PruneJobs(before, limit, victims))
    ensures |victims| == Fewer(limit, |ExpiredJobs(db, before)|)
    ensures DeletesOldest(db, ExpiredJobs(db, before), DeleteJobs(db, victims), victims)
    ensures forall k :: k in db.ledgers && (db.ledgers[k].state == OutcomeUnknown || Standalone(db.ledgers[k])) ==>
      k in DeleteJobs(db, victims).ledgers && DeleteJobs(db, victims).ledgers[k] == db.ledgers[k]
    ensures ValidLimit(limit) ==>
      Apply(db, PruneJobs(before, limit, victims)) == Result(DeleteJobs(db, victims), Pruned(|victims|))
  {
    DeletedOldest(db, ExpiredJobs(db, before), limit, victims);
  }

  /** Ledger retention removes exactly min(limit, eligible) of the finished standalone ledgers that were last
      changed before the cutoff, the oldest of them, and touches nothing else. */
  lemma LedgerRetentionIsExact(db: Db, before: int, limit: nat, doomed: set<LedgerKey>)
    requires Selected(db, PruneLedgers(before, limit, doomed)) && ValidLimit(limit)
    ensures |doomed| == Fewer(limit, |ExpiredLedgers(db, before)|)
    ensures var r := Apply(db, PruneLedgers(before, limit, doomed));
      && r == Result(db.(ledgers := db.ledgers - doomed), Pruned(|doomed|))
      && (forall k :: k in db.ledgers && (!Standalone(db.ledgers[k]) || !IsFinished(db.ledgers[k])) ==> k in r.db.ledgers)
      && (forall v, e :: v in doomed && e in ExpiredLedgers(db, before) && e in r.db.ledgers ==>
            LedgerBefore(LedgerStampOf(db, v), LedgerStampOf(db, e)))
  {
    assert Prune(db, PruneLedgers(before, limit, doomed)) == Result(db.(ledgers := db.ledgers - doomed), Pruned(|doomed|));
  }
}
