/** `ORDER BY ... LIMIT k`, over rows of any kind and any strict total order of them. */
module Selection {
  import opened Texts

  ghost predicate StrictTotal<S(!new)>(before: (S, S) -> bool) {
    && (forall a, b :: before(a, b) || a == b || before(b, a))
    && (forall a, b :: before(a, b) ==> a != b && !before(b, a))
    && (forall a, b, c :: before(a, b) && before(b, c) ==> before(a, c))
  }

  lemma {:induction false} FirstExists<S(!new)>(rows: set<S>, before: (S, S) -> bool) returns (c: S)
    requires StrictTotal(before) && rows != {}
    ensures c in rows && forall d :: d in rows ==> d == c || before(c, d)
    decreases |rows|
  {
    var d :| d in rows;
    if rows == {d} {
      c := d;
    } else {
      c := FirstExists(rows - {d}, before);
      if before(d, c) { c := d; }
    }
  }

  /** Takes the first `limit` rows, in order. */
  method SelectFirst<S(==, !new)>(rows: set<S>, before: (S, S) -> bool, limit: nat) returns (picked: seq<S>)
    requires StrictTotal(before)
    ensures Distinct(picked) && forall c :: c in picked ==> c in rows
    ensures |picked| == if limit < |rows| then limit else |rows|
    ensures forall i, j :: 0 <= i < j < |picked| ==> before(picked[i], picked[j])
    ensures forall c, d :: c in picked && d in rows && d !in picked ==> before(c, d)
  {
    picked := [];
    var rest := rows;
    while |picked| < limit && rest != {}
      invariant |picked| <= limit && |picked| + |rest| == |rows|
      invariant forall c :: c in rows <==> c in picked || c in rest
      invariant forall c :: c in picked ==> c !in rest
      invariant Distinct(picked)
      invariant forall i, j :: 0 <= i < j < |picked| ==> before(picked[i], picked[j])
      invariant forall c, d :: c in picked && d in rest ==> before(c, d)
      decreases |rest|
    {
      ghost var w := FirstExists(rest, before);
      assert forall d :: d in rest ==> d == w || before(w, d);
      var c :| c in rest && forall d :: d in rest ==> d == c || before(c, d);
      picked := picked + [c];
      rest := rest - {c};
    }
  }

  /** Two different choices of the same size each hold something that the other left behind. */
  lemma ChoicesDiffer<S>(a: set<S>, b: set<S>) returns (x: S, y: S)
    requires |a| == |b| && a != b
    ensures x in a && x !in b && y in b && y !in a
  {
    assert a == a * b + (a - b) && b == a * b + (b - a);
    assert |a - b| == |b - a|;
    assert a - b != {} || b - a != {};
    assert a - b != {} && b - a != {};
    x :| x in a - b;
    y :| y in b - a;
  }
}
