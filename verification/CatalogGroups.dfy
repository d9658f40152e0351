/** Capture groups over runs: all or nothing at acceptance, in request order while retained, and
    removed whole. */
module CatalogGroups {
  import opened Texts
  import opened Options
  import opened JobStates
  import opened CatalogModel
  import opened CatalogInvariant
  import opened CatalogSteps
  import opened CatalogPrunes
  import opened CatalogRuns
  import opened CatalogLedgers

  /** A group's member rows as `load_group` returns them: those that exist, by result index. */
  function LoadMembers(jobs: map<Id, Job>, ids: seq<Id>): seq<Id> {
    if ids == [] then []
    else if ids[0] in jobs then [ids[0]] + LoadMembers(jobs, ids[1..])
    else LoadMembers(jobs, ids[1..])
  }

  lemma {:induction false} LoadsEveryMember(jobs: map<Id, Job>, ids: seq<Id>)
    requires forall i :: 0 <= i < |ids| ==> ids[i] in jobs
    ensures LoadMembers(jobs, ids) == ids
  {
    if ids != [] {
      LoadsEveryMember(jobs, ids[1..]);
      assert ids == [ids[0]] + ids[1..];
    }
  }

  /** One row of the group's members: a capture and its place in the request. */
  datatype MemberRow = MemberRow(capture: Id, index: nat)

  predicate IsRow(ids: seq<Id>, r: MemberRow) { r.index < |ids| && ids[r.index] == r.capture }

  /** What the query may return: the rows whose job exists, each once, by ascending result index. */
  ghost predicate IsLoad(jobs: map<Id, Job>, ids: seq<Id>, loaded: seq<MemberRow>) {
    && (forall i, j :: 0 <= i < j < |loaded| ==> loaded[i].index < loaded[j].index)
    && (forall r :: r in loaded <==> IsRow(ids, r) && r.capture in jobs)
  }

  function Captures(rows: seq<MemberRow>): (ids: seq<Id>)
    ensures |ids| == |rows| && forall i :: 0 <= i < |ids| ==> ids[i] == rows[i].capture
  {
    seq(|rows|, i requires 0 <= i < |rows| => rows[i].capture)
  }

  lemma {:induction false} LoadSnoc(jobs: map<Id, Job>, ids: seq<Id>, c: Id)
    ensures LoadMembers(jobs, ids + [c]) == LoadMembers(jobs, ids) + if c in jobs then [c] else []
  {
    if ids == [] {
      assert [] + [c] == [c] && [c][1..] == [];
    } else {
      assert (ids + [c])[1..] == ids[1..] + [c];
      LoadSnoc(jobs, ids[1..], c);
    }
  }

  lemma LastRow(jobs: map<Id, Job>, ids: seq<Id>, loaded: seq<MemberRow>)
    requires ids != [] && IsLoad(jobs, ids, loaded) && ids[|ids| - 1] in jobs
    ensures loaded != [] && loaded[|loaded| - 1] == MemberRow(ids[|ids| - 1], |ids| - 1)
  {
    var last := MemberRow(ids[|ids| - 1], |ids| - 1);
    assert IsRow(ids, last);
    var i :| 0 <= i < |loaded| && loaded[i] == last;
    assert loaded[|loaded| - 1] in loaded && IsRow(ids, loaded[|loaded| - 1]);
  }

  lemma LoadFront(jobs: map<Id, Job>, ids: seq<Id>, loaded: seq<MemberRow>)
    requires ids != [] && IsLoad(jobs, ids, loaded) && ids[|ids| - 1] in jobs && loaded != []
    requires loaded[|loaded| - 1] == MemberRow(ids[|ids| - 1], |ids| - 1)
    ensures IsLoad(jobs, ids[..|ids| - 1], loaded[..|loaded| - 1])
  {
    var front, last := loaded[..|loaded| - 1], loaded[|loaded| - 1];
    assert loaded == front + [last];
    forall r ensures r in front <==> IsRow(ids[..|ids| - 1], r) && r.capture in jobs {
      assert r in loaded <==> r in front || r == last;
      assert r in front ==> r.index < last.index;
    }
  }

  lemma LoadWithout(jobs: map<Id, Job>, ids: seq<Id>, loaded: seq<MemberRow>)
    requires ids != [] && IsLoad(jobs, ids, loaded) && ids[|ids| - 1] !in jobs
    ensures IsLoad(jobs, ids[..|ids| - 1], loaded)
  {
    forall r ensures r in loaded <==> IsRow(ids[..|ids| - 1], r) && r.capture in jobs {
      assert r in loaded <==> IsRow(ids, r) && r.capture in jobs;
    }
  }

  /** However the rows are stored, ordering by result index reads the members back in request order. */
  lemma {:induction false} OrderedByIndex(jobs: map<Id, Job>, ids: seq<Id>, loaded: seq<MemberRow>)
    requires IsLoad(jobs, ids, loaded)
    ensures Captures(loaded) == LoadMembers(jobs, ids)
    decreases |ids|
  {
    assert loaded != [] ==> loaded[0] in loaded && IsRow(ids, loaded[0]);
    if ids == [] {
      assert loaded == [] && Captures(loaded) == [];
    } else {
      var front, c := ids[..|ids| - 1], ids[|ids| - 1];
      LoadSnoc(jobs, front, c);
      assert ids == front + [c];
      if c in jobs {
        LastRow(jobs, ids, loaded);
        LoadFront(jobs, ids, loaded);
        OrderedByIndex(jobs, front, loaded[..|loaded| - 1]);
        assert Captures(loaded) == Captures(loaded[..|loaded| - 1]) + [c];
      } else {
        LoadWithout(jobs, ids, loaded);
        OrderedByIndex(jobs, front, loaded);
      }
    }
  }

  /** Acceptance files the ledger, the group and every member in request order, or changes nothing. */
  lemma AcceptGroupIsAtomic(db: Db, n: NewGroup)
    requires Inv(db)
    ensures
      var r := AcceptGroupStep(db, n);
      if !r.out.Inserted? then r.db == db
      else
        && n.key !in db.ledgers && n.groupId !in db.groups && n.key in r.db.ledgers && n.groupId in r.db.groups
        && r.db.ledgers[n.key].target.groupId == Some(n.groupId)
        && r.db.members[n.groupId] == CaptureIds(n.members)
        && (forall i :: 0 <= i < |n.members| ==>
              && n.members[i].captureId !in db.jobs && n.members[i].captureId in r.db.jobs
              && r.db.jobs[n.members[i].captureId] == AcceptedJob(n.members[i]))
        && (forall c :: c in r.db.jobs ==> c in db.jobs || Names(n.members, c))
        && (forall c :: c in db.jobs ==> c in r.db.jobs && r.db.jobs[c] == db.jobs[c])
  {
    var r := AcceptGroupStep(db, n);
    if r.out.Inserted? {
      MemberRows(db, r.db, n);
    }
  }

  /** One step of one group: identity and members are fixed, and a terminal group is frozen. */
  predicate GroupStep(a: Group, b: Group) {
    && a.id == b.id
    && (a == b || (a.state == Accepted && b.state == Queued) || (!IsTerminal(a.state) && IsTerminal(b.state)))
  }

  ghost predicate GroupKept(db: Db, after: Db, g: Id)
    requires g in db.groups && g in db.members
  {
    g in after.groups ==> g in after.members && after.members[g] == db.members[g] && GroupStep(db.groups[g], after.groups[g])
  }

  lemma GroupKeptByMoves(db: Db, s: Step, g: Id)
    requires g in db.groups && g in db.members && IsGroupMove(s)
    ensures GroupKept(db, GroupMove(db, s).db, g) && g in GroupMove(db, s).db.groups
  {}

  lemma GroupKeptByAccepts(db: Db, s: Step, g: Id)
    requires g in db.groups && g in db.members && IsAccept(s)
    ensures GroupKept(db, Accept(db, s).db, g) && g in Accept(db, s).db.groups
  {}

  lemma GroupKeptByPrunes(db: Db, s: Step, g: Id)
    requires g in db.groups && g in db.members && IsPrune(s)
    ensures GroupKept(db, Prune(db, s).db, g) && (!s.PruneGroups? ==> g in Prune(db, s).db.groups)
  {}

  lemma GroupKeptByProgress(db: Db, s: Step, g: Id)
    requires g in db.groups && g in db.members && IsProgress(s)
    ensures GroupKept(db, Progress(db, s).db, g) && g in Progress(db, s).db.groups
  {}

  lemma GroupKeptByEndings(db: Db, s: Step, g: Id)
    requires g in db.groups && g in db.members && IsEnding(s)
    ensures GroupKept(db, End(db, s).db, g) && g in End(db, s).db.groups
  {
    EndingUnfolds(db, s);
  }

  lemma GroupKeptByCommands(db: Db, s: Step, g: Id)
    requires g in db.groups && g in db.members && IsCommand(s)
    ensures GroupKept(db, Command(db, s).db, g) && g in Command(db, s).db.groups
  {}

  lemma GroupKeptByRecovery(db: Db, s: Step, g: Id)
    requires g in db.groups && g in db.members && IsRecovery(s)
    ensures GroupKept(db, Recover(db, s).db, g) && g in Recover(db, s).db.groups
  {}

  lemma GroupFollows(db: Db, s: Step, g: Id)
    requires g in db.groups && g in db.members
    ensures GroupKept(db, Apply(db, s).db, g)
    ensures !s.PruneGroups? ==> g in Apply(db, s).db.groups
  {
    if IsGroupMove(s) {
      assert Apply(db, s) == GroupMove(db, s);
      GroupKeptByMoves(db, s, g);
    } else if IsAccept(s) {
      assert Apply(db, s) == Accept(db, s);
      GroupKeptByAccepts(db, s, g);
    } else if IsPrune(s) {
      assert Apply(db, s) == Prune(db, s);
      GroupKeptByPrunes(db, s, g);
    } else if IsProgress(s) {
      assert Apply(db, s) == Progress(db, s);
      GroupKeptByProgress(db, s, g);
    } else if IsEnding(s) {
      assert Apply(db, s) == End(db, s);
      GroupKeptByEndings(db, s, g);
    } else if IsCommand(s) {
      assert Apply(db, s) == Command(db, s);
      GroupKeptByCommands(db, s, g);
    } else {
      assert Apply(db, s) == Recover(db, s);
      GroupKeptByRecovery(db, s, g);
    }
  }

  /** As long as an accepted group is retained it reads back whole: every member, in request order,
      each with the identity it was accepted with. */
  lemma {:induction false} MembersReadInOrder(r: Run, i: nat, j: nat)
    requires IsRun(r) && i < j < |r.states| && r.steps[i].AcceptGroup? && r.outs[i].Inserted?
    requires forall m :: i < m <= j ==> r.steps[i].group.groupId in r.states[m].groups
    ensures
      var n := r.steps[i].group;
      && n.groupId in r.states[j].members && r.states[j].members[n.groupId] == CaptureIds(n.members)
      && (forall loaded :: IsLoad(r.states[j].jobs, r.states[j].members[n.groupId], loaded) ==>
            Captures(loaded) == CaptureIds(n.members))
      && (forall k :: 0 <= k < |n.members| ==>
            n.members[k].captureId in r.states[j].jobs && r.states[j].jobs[n.members[k].captureId].id == AcceptedJob(n.members[k]).id)
  {
    var n := r.steps[i].group;
    AcceptedInRun(r, i);
    MembersFixed(r, i, j);
    forall m | i < m <= j ensures forall k :: 0 <= k < |n.members| ==> n.members[k].captureId in r.states[m].jobs {
      MembersFixed(r, i, m);
      MembersExist(r, m, n.groupId);
      assert forall k :: 0 <= k < |n.members| ==> r.states[m].members[n.groupId][k] == n.members[k].captureId;
    }
    assert forall k :: 0 <= k < |n.members| ==> CaptureIds(n.members)[k] == n.members[k].captureId;
    LoadsEveryMember(r.states[j].jobs, CaptureIds(n.members));
    forall loaded | IsLoad(r.states[j].jobs, CaptureIds(n.members), loaded)
      ensures Captures(loaded) == CaptureIds(n.members)
    {
      OrderedByIndex(r.states[j].jobs, CaptureIds(n.members), loaded);
    }
    forall k | 0 <= k < |n.members| ensures n.members[k].captureId in r.states[j].jobs && r.states[j].jobs[n.members[k].captureId].id == AcceptedJob(n.members[k]).id {
      RowOverRun(r, n.members[k].captureId, i + 1, j);
    }
  }

  lemma MembersExist(r: Run, m: nat, g: Id)
    requires IsRun(r) && m < |r.states| && g in r.states[m].groups
    ensures g in r.states[m].members
    ensures forall k :: 0 <= k < |r.states[m].members[g]| ==> r.states[m].members[g][k] in r.states[m].jobs
  {
    RunKeeps(r, m);
    assert GroupRefs(r.states[m], g);
    assert forall k :: 0 <= k < |r.states[m].members[g]| ==> IsMember(r.states[m], r.states[m].members[g][k], g);
  }

  lemma {:induction false} MembersFixed(r: Run, i: nat, j: nat)
    requires IsRun(r) && i < j < |r.states| && r.steps[i].AcceptGroup? && r.outs[i].Inserted?
    requires forall m :: i < m <= j ==> r.steps[i].group.groupId in r.states[m].groups
    ensures r.steps[i].group.groupId in r.states[j].members
    ensures r.states[j].members[r.steps[i].group.groupId] == CaptureIds(r.steps[i].group.members)
    decreases j
  {
    if i == j - 1 {
      AcceptedInRun(r, i);
    } else {
      MembersFixed(r, i, j - 1);
      GroupInRun(r, j - 1, r.steps[i].group.groupId);
    }
  }

  lemma AcceptedInRun(r: Run, i: nat)
    requires IsRun(r) && i < |r.steps| && r.steps[i].AcceptGroup? && r.outs[i].Inserted?
    ensures r.steps[i].group.groupId in r.states[i + 1].members
    ensures r.states[i + 1].members[r.steps[i].group.groupId] == CaptureIds(r.steps[i].group.members)
    ensures
      var members := r.steps[i].group.members;
      forall k :: 0 <= k < |members| ==>
        members[k].captureId in r.states[i + 1].jobs && r.states[i + 1].jobs[members[k].captureId].id == AcceptedJob(members[k]).id
  {
    RunKeeps(r, i);
    assert StepOf(r, i);
    AcceptGroupIsAtomic(r.states[i], r.steps[i].group);
  }

  lemma GroupInRun(r: Run, i: nat, g: Id)
    requires IsRun(r) && i < |r.steps| && g in r.states[i].groups && g in r.states[i].members && g in r.states[i + 1].groups
    ensures g in r.states[i + 1].members && r.states[i + 1].members[g] == r.states[i].members[g]
  {
    assert StepOf(r, i);
    GroupFollows(r.states[i], r.steps[i], g);
  }

  /** A group leaves the catalog whole: when it goes, so do all its members and its ledger, and while
      it stays, so do they. */
  lemma GroupsLeaveWhole(db: Db, s: Step, g: Id)
    requires Inv(db) && Selected(db, s) && g in db.groups
    ensures
      var after := Apply(db, s).db;
      if g in after.groups then
        && db.groups[g].id.key in after.ledgers
        && forall i :: 0 <= i < |db.members[g]| ==> db.members[g][i] in after.jobs
      else
        && s.PruneGroups? && g in s.victims && IsTerminal(db.groups[g].state)
        && g !in after.members && db.groups[g].id.key !in after.ledgers
        && forall i :: 0 <= i < |db.members[g]| ==> db.members[g][i] !in after.jobs
  {
    var after := Apply(db, s).db;
    StepKeeps(db, s);
    assert GroupRefs(db, g);
    if g in after.groups {
      assert GroupRefs(after, g);
      GroupFollows(db, s, g);
      assert forall i :: 0 <= i < |db.members[g]| ==> IsMember(after, after.members[g][i], g);
    } else {
      GroupGone(db, s, g);
      WholeGroupDeleted(db, s.victims, g);
    }
  }

  lemma GroupGone(db: Db, s: Step, g: Id)
    requires Selected(db, s) && g in db.groups && g in db.members && g !in Apply(db, s).db.groups
    ensures s.PruneGroups? && g in s.victims && ExpiredGroup(db, g, s.before)
    ensures Apply(db, s).db == DeleteGroups(db, s.victims)
  {
    GroupFollows(db, s, g);
  }

  lemma WholeGroupDeleted(db: Db, victims: set<Id>, g: Id)
    requires Inv(db) && g in victims && g in db.groups
    ensures
      var after := DeleteGroups(db, victims);
      && g !in after.members && db.groups[g].id.key !in after.ledgers
      && forall i :: 0 <= i < |db.members[g]| ==> db.members[g][i] !in after.jobs
  {
    assert GroupRefs(db, g) && LedgerRefs(db, db.groups[g].id.key);
    forall i | 0 <= i < |db.members[g]| ensures db.members[g][i] in MembersOf(db, victims) {
      assert db.members[g][i] in db.members[g];
    }
  }
}
