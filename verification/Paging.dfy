/** Keyset paging over jobs, newest first by (acceptedAt, captureId). */
module Paging {
  import opened Texts
  import opened Options
  import opened Sets
  import opened JobStates
  import opened CatalogModel
  import opened Retention

  /** The rows a query selects. */
  function Matching(db: Db, instance: Option<Text>, states: set<JobState>): set<Stamp> {
    set c | c in db.jobs && (instance.Some? ==> db.jobs[c].id.instance == instance.value)
            && (states != {} ==> db.jobs[c].state in states) :: Stamp(db.jobs[c].id.acceptedAt, c)
  }

  ghost predicate IsNewest(rows: set<Stamp>, m: Stamp) {
    m in rows && forall x :: x in rows && x != m ==> Before(x, m)
  }

  lemma {:induction false} NewestExists(rows: set<Stamp>)
    requires rows != {}
    ensures exists m :: IsNewest(rows, m)
    decreases |rows|
  {
    var d :| d in rows;
    if rows == {d} {
      assert IsNewest(rows, d);
    } else {
      var rest := rows - {d};
      assert rows == rest + {d};
      NewestExists(rest);
      var m :| IsNewest(rest, m);
      BeforeIsTotal(m, d);
      if Before(m, d) {
        forall x | x in rows && x != d ensures Before(x, d) {
          if x != m { BeforeIsTransitive(x, m, d); }
        }
        assert IsNewest(rows, d);
      } else {
        assert IsNewest(rows, m);
      }
    }
  }

  /** One sorted scan: all rows, newest first. */
  ghost function Scan(rows: set<Stamp>): (r: seq<Stamp>)
    ensures |r| == |rows|
    decreases |rows|
  {
    if rows == {} then []
    else
      NewestExists(rows);
      var m :| IsNewest(rows, m);
      [m] + Scan(rows - {m})
  }

  lemma {:induction false} ScanIsSorted(rows: set<Stamp>)
    ensures forall x :: x in Scan(rows) <==> x in rows
    ensures forall i, j :: 0 <= i < j < |Scan(rows)| ==> Before(Scan(rows)[j], Scan(rows)[i])
    decreases |rows|
  {
    if rows != {} {
      NewestExists(rows);
      var m :| IsNewest(rows, m) && Scan(rows) == [m] + Scan(rows - {m});
      ScanIsSorted(rows - {m});
      NewestFirst(rows, m, Scan(rows - {m}));
    }
  }

  lemma NewestFirst(rows: set<Stamp>, m: Stamp, rest: seq<Stamp>)
    requires IsNewest(rows, m) && forall x :: x in rest <==> x in rows - {m}
    requires forall i, j :: 0 <= i < j < |rest| ==> Before(rest[j], rest[i])
    ensures forall x :: x in [m] + rest <==> x in rows
    ensures forall i, j :: 0 <= i < j < |[m] + rest| ==> Before(([m] + rest)[j], ([m] + rest)[i])
  {
    var all := [m] + rest;
    forall i, j | 0 <= i < j < |all| ensures Before(all[j], all[i]) {
      assert all[j] == rest[j - 1] && rest[j - 1] in rest;
      if i > 0 { assert all[i] == rest[i - 1]; }
    }
  }

  /** Rows strictly older than the cursor. */
  function Older(rows: set<Stamp>, cursor: Option<Stamp>): set<Stamp> {
    set x | x in rows && (cursor.Some? ==> Before(x, cursor.value))
  }

  /** One page: the newest `limit` rows past the cursor. */
  ghost function Page(rows: set<Stamp>, cursor: Option<Stamp>, limit: nat): seq<Stamp> {
    var scan := Scan(Older(rows, cursor));
    scan[..Fewer(limit, |scan|)]
  }

  /** What a client collects by following cursors until a page comes back empty. */
  ghost function Follow(rows: set<Stamp>, cursor: Option<Stamp>, limit: nat): seq<Stamp>
    requires limit >= 1
    decreases |Older(rows, cursor)|
  {
    var page := Page(rows, cursor, limit);
    if page == [] then []
    else
      PageShrinks(rows, cursor, page[|page| - 1]);
      page + Follow(rows, Some(page[|page| - 1]), limit)
  }

  lemma PageShrinks(rows: set<Stamp>, cursor: Option<Stamp>, last: Stamp)
    ensures last in Scan(Older(rows, cursor)) ==>
      |Older(rows, Some(last))| < |Older(rows, cursor)| && Older(rows, Some(last)) == Older(Older(rows, cursor), Some(last))
  {
    ScanIsSorted(Older(rows, cursor));
    if last in Scan(Older(rows, cursor)) {
      BeforeIsTotal(last, last);
      forall x | x in Older(rows, Some(last)) ensures x in Older(rows, cursor) {
        if cursor.Some? { BeforeIsTransitive(x, last, cursor.value); }
      }
      Smaller(Older(rows, Some(last)), Older(rows, cursor) - {last});
    }
  }

  lemma ScanHead(rows: set<Stamp>, m: Stamp)
    requires rows != {} && m == Scan(rows)[0]
    ensures IsNewest(rows, m) && Scan(rows) == [m] + Scan(rows - {m})
  {
    NewestExists(rows);
  }

  lemma OlderThanTail(rows: set<Stamp>, m: Stamp, last: Stamp)
    requires IsNewest(rows, m) && last in rows
    ensures Older(rows, Some(last)) == if last == m then rows - {m} else Older(rows - {m}, Some(last))
  {
    BeforeIsTotal(last, m);
    BeforeIsTotal(m, m);
  }

  lemma Shifted(m: Stamp, rest: seq<Stamp>, n: nat)
    requires 2 <= n <= |rest| + 1
    ensures ([m] + rest)[n - 1] == rest[n - 2] && ([m] + rest)[n..] == rest[n - 1..]
  {}

  /** Resuming after row `n - 1` continues the scan at row `n`. */
  lemma {:induction false} ScanResumes(rows: set<Stamp>, n: nat)
    requires 1 <= n <= |rows|
    ensures Scan(Older(rows, Some(Scan(rows)[n - 1]))) == Scan(rows)[n..]
    decreases n
  {
    var m := Scan(rows)[0];
    ScanHead(rows, m);
    var rest := rows - {m};
    if n == 1 {
      OlderThanTail(rows, m, m);
    } else {
      Shifted(m, Scan(rest), n);
      ResumesInTail(rows, m, Scan(rest)[n - 2]);
      ScanResumes(rest, n - 1);
    }
  }

  lemma ResumesInTail(rows: set<Stamp>, m: Stamp, last: Stamp)
    requires IsNewest(rows, m) && last in Scan(rows - {m})
    ensures Older(rows, Some(last)) == Older(rows - {m}, Some(last))
  {
    ScanIsSorted(rows - {m});
    OlderThanTail(rows, m, last);
  }

  lemma CutAt(scan: seq<Stamp>, n: nat)
    requires n <= |scan|
    ensures scan == scan[..n] + scan[n..]
  {}

  /** What follows a page is the rest of the scan. */
  lemma PageThenRest(rows: set<Stamp>, cursor: Option<Stamp>, limit: nat)
    requires limit >= 1 && Page(rows, cursor, limit) != []
    ensures
      var page, older := Page(rows, cursor, limit), Older(rows, cursor);
      var last := page[|page| - 1];
      |Older(rows, Some(last))| < |older| && page + Scan(Older(rows, Some(last))) == Scan(older)
  {
    var page, older := Page(rows, cursor, limit), Older(rows, cursor);
    var last := page[|page| - 1];
    assert last == Scan(older)[|page| - 1];
    PageShrinks(rows, cursor, last);
    ScanResumes(older, |page|);
    CutAt(Scan(older), |page|);
  }

  lemma {:induction false} FollowIsScan(rows: set<Stamp>, cursor: Option<Stamp>, limit: nat)
    requires limit >= 1
    ensures Follow(rows, cursor, limit) == Scan(Older(rows, cursor))
    decreases |Older(rows, cursor)|
  {
    var page := Page(rows, cursor, limit);
    if page != [] {
      PageThenRest(rows, cursor, limit);
      FollowIsScan(rows, Some(page[|page| - 1]), limit);
    }
  }

  /** Following cursors with any page size collects every matching row exactly once, newest first. */
  lemma PagesAreOneScan(db: Db, instance: Option<Text>, states: set<JobState>, limit: nat)
    requires limit >= 1
    ensures
      var rows := Matching(db, instance, states);
      var all := Follow(rows, None, limit);
      && all == Scan(rows)
      && (forall x :: x in all <==> x in rows)
      && (forall i, j :: 0 <= i < j < |all| ==> Before(all[j], all[i]))
  {
    var rows := Matching(db, instance, states);
    assert Older(rows, None) == rows;
    FollowIsScan(rows, None, limit);
    ScanIsSorted(rows);
  }

  /** Rows that appear or disappear at or above the cursor do not disturb the pages below it. */
  lemma PagesBelowAreStable(rows: set<Stamp>, changed: set<Stamp>, cursor: Stamp, limit: nat)
    requires limit >= 1
    requires forall x :: (x in rows) != (x in changed) ==> !Before(x, cursor)
    ensures Page(changed, Some(cursor), limit) == Page(rows, Some(cursor), limit)
    ensures Follow(changed, Some(cursor), limit) == Follow(rows, Some(cursor), limit)
  {
    assert Older(changed, Some(cursor)) == Older(rows, Some(cursor));
    FollowIsScan(changed, Some(cursor), limit);
    FollowIsScan(rows, Some(cursor), limit);
  }

  // ---- One page, column by column -------------------------------------------------------------------------------

  /** One call: the limit is checked first. */
  ghost function JobsPage(db: Db, instance: Option<Text>, states: set<JobState>, before: Option<Stamp>, limit: nat): Option<seq<Stamp>> {
    if !(1 <= limit <= 1_000) then None else Some(Page(Matching(db, instance, states), before, limit))
  }

  /** The rows a call asks for: of that camera if one is named, in one of those states if any is named, and accepted
      before the cursor, or at the same time with a smaller id. */
  ghost predicate Wanted(db: Db, instance: Option<Text>, states: set<JobState>, before: Option<Stamp>, c: Id) {
    && c in db.jobs && (instance == None || instance == Some(db.jobs[c].id.instance))
    && (states == {} || db.jobs[c].state in states)
    && (before == None || db.jobs[c].id.acceptedAt < before.value.time
        || (db.jobs[c].id.acceptedAt == before.value.time && ByteOrder(c, before.value.id)))
  }

  /** Accepted later, or at the same time with a larger id. */
  ghost predicate Newer(db: Db, a: Id, b: Id)
    requires a in db.jobs && b in db.jobs
  {
    db.jobs[a].id.acceptedAt > db.jobs[b].id.acceptedAt
    || (db.jobs[a].id.acceptedAt == db.jobs[b].id.acceptedAt && ByteOrder(b, a))
  }

  lemma WantedAre(db: Db, instance: Option<Text>, states: set<JobState>, before: Option<Stamp>, x: Stamp)
    ensures x in Older(Matching(db, instance, states), before) <==>
      Wanted(db, instance, states, before, x.id) && x.time == db.jobs[x.id].id.acceptedAt
  {
    if before.Some? { LessIsByteOrder(x.id, before.value.id); }
    if Wanted(db, instance, states, before, x.id) && x.time == db.jobs[x.id].id.acceptedAt {
      assert x == Stamp(db.jobs[x.id].id.acceptedAt, x.id);
      assert x in Matching(db, instance, states);
    }
  }

  /** A page holds the `limit` newest wanted rows, newest first; a page that is not full is the last one. */
  lemma PageIsExact(db: Db, instance: Option<Text>, states: set<JobState>, before: Option<Stamp>, limit: nat)
    ensures JobsPage(db, instance, states, before, limit) == None <==> limit == 0 || limit > 1_000
    ensures 1 <= limit <= 1_000 ==>
      var page := JobsPage(db, instance, states, before, limit).value;
      && |page| <= limit
      && (forall i :: 0 <= i < |page| ==>
            Wanted(db, instance, states, before, page[i].id) && page[i].time == db.jobs[page[i].id].id.acceptedAt)
      && (forall i, j :: 0 <= i < j < |page| ==> Newer(db, page[i].id, page[j].id))
      && (forall c :: Wanted(db, instance, states, before, c) && Stamp(db.jobs[c].id.acceptedAt, c) !in page ==>
            |page| == limit && forall i :: 0 <= i < |page| ==> Newer(db, page[i].id, c))
  {
    if 1 <= limit <= 1_000 {
      var rows := Older(Matching(db, instance, states), before);
      var scan, page := Scan(rows), JobsPage(db, instance, states, before, limit).value;
      ScanIsSorted(rows);
      assert page == scan[..|page|];
      forall i | 0 <= i < |page|
        ensures Wanted(db, instance, states, before, page[i].id) && page[i].time == db.jobs[page[i].id].id.acceptedAt
      {
        assert scan[i] in scan;
        WantedAre(db, instance, states, before, page[i]);
      }
      forall i, j | 0 <= i < j < |page| ensures Newer(db, page[i].id, page[j].id) {
        assert Before(scan[j], scan[i]);
        LessIsByteOrder(page[j].id, page[i].id);
      }
      forall c | Wanted(db, instance, states, before, c) && Stamp(db.jobs[c].id.acceptedAt, c) !in page
        ensures |page| == limit && forall i :: 0 <= i < |page| ==> Newer(db, page[i].id, c)
      {
        RestIsOlder(db, instance, states, before, scan, page, c);
      }
    }
  }

  lemma RestIsOlder(db: Db, instance: Option<Text>, states: set<JobState>, before: Option<Stamp>, scan: seq<Stamp>, page: seq<Stamp>, c: Id)
    requires Wanted(db, instance, states, before, c) && |page| <= |scan| && page == scan[..|page|]
    requires forall x :: x in scan <==> x in Older(Matching(db, instance, states), before)
    requires forall i, j :: 0 <= i < j < |scan| ==> Before(scan[j], scan[i])
    requires forall i :: 0 <= i < |page| ==> page[i].id in db.jobs && page[i].time == db.jobs[page[i].id].id.acceptedAt
    requires Stamp(db.jobs[c].id.acceptedAt, c) !in page
    ensures |page| < |scan| && forall i :: 0 <= i < |page| ==> Newer(db, page[i].id, c)
  {
    var x := Stamp(db.jobs[c].id.acceptedAt, c);
    WantedAre(db, instance, states, before, x);
    var k :| 0 <= k < |scan| && scan[k] == x;
    assert k >= |page|;
    forall i | 0 <= i < |page| ensures Newer(db, page[i].id, c) {
      assert Before(scan[k], scan[i]);
      LessIsByteOrder(c, page[i].id);
    }
  }
}
