/** UTF-8 text as the adapter handles it: byte sequences under byte order, the order that both
    Rust string comparison and SQLite's default TEXT collation use. */
module Texts {
  type Byte = b: int | 0 <= b < 256
  type Text = seq<Byte>

  predicate Less(a: Text, b: Text) {
    |b| > 0 && (|a| == 0 || a[0] < b[0] || (a[0] == b[0] && Less(a[1..], b[1..])))
  }

  /** Byte order, said outright: at the first difference the smaller byte, or the end, comes first. */
  ghost predicate ByteOrder(a: Text, b: Text) {
    exists i :: 0 <= i <= |a| && i < |b| && a[..i] == b[..i] && (i == |a| || a[i] < b[i])
  }

  lemma {:induction false} LessIsByteOrder(a: Text, b: Text)
    ensures Less(a, b) <==> ByteOrder(a, b)
    decreases |a|
  {
    forall i | 0 < i <= |a| && i < |b| && a[..i] == b[..i] ensures a[0] == b[0] {
      assert a[..i][0] == b[..i][0];
    }
    if a == [] || b == [] || a[0] != b[0] {
      assert a[..0] == b[..0];
    } else {
      LessIsByteOrder(a[1..], b[1..]);
      if ByteOrder(a[1..], b[1..]) {
        var i :| 0 <= i <= |a[1..]| && i < |b[1..]| && a[1..][..i] == b[1..][..i] && (i == |a[1..]| || a[1..][i] < b[1..][i]);
        assert a[..i + 1] == [a[0]] + a[1..][..i] && b[..i + 1] == [b[0]] + b[1..][..i];
      }
      if ByteOrder(a, b) {
        var i :| 0 <= i <= |a| && i < |b| && a[..i] == b[..i] && (i == |a| || a[i] < b[i]);
        assert a[1..][..i - 1] == a[..i][1..] && b[1..][..i - 1] == b[..i][1..];
      }
    }
  }

  /** The bytes of a plain ASCII word. */
  function Ascii(word: string): Text {
    seq(|word|, i requires 0 <= i < |word| => if word[i] as int < 128 then word[i] as int else 0x3f)
  }

  lemma {:induction false} Irreflexive(a: Text)
    ensures !Less(a, a)
  {
    if |a| > 0 { Irreflexive(a[1..]); }
  }

  /** Byte order is a strict total order: exactly one of the three holds. */
  lemma {:induction false} Trichotomy(a: Text, b: Text)
    ensures Less(a, b) || a == b || Less(b, a)
    ensures !(Less(a, b) && Less(b, a)) && !Less(a, a)
    decreases |a| + |b|
  {
    Irreflexive(a);
    if |a| > 0 && |b| > 0 && a[0] == b[0] {
      Trichotomy(a[1..], b[1..]);
      assert a == [a[0]] + a[1..] && b == [b[0]] + b[1..];
    }
  }

  lemma {:induction false} Transitive(a: Text, b: Text, c: Text)
    requires Less(a, b) && Less(b, c)
    ensures Less(a, c)
    decreases |a|
  {
    if |a| > 0 && a[0] == b[0] && b[0] == c[0] {
      Transitive(a[1..], b[1..], c[1..]);
    }
  }

  predicate Sorted(s: seq<Text>) {
    forall i, j :: 0 <= i < j < |s| ==> !Less(s[j], s[i])
  }

  predicate Ascending(s: seq<Text>) {
    forall i, j :: 0 <= i < j < |s| ==> Less(s[i], s[j])
  }

  predicate Distinct<T(==)>(s: seq<T>) {
    forall i, j :: 0 <= i < j < |s| ==> s[i] != s[j]
  }

  /** The sorted sequence of the elements of `s`; duplicates are kept. */
  function Sort(s: seq<Text>): (r: seq<Text>)
    ensures |r| == |s|
  {
    if s == [] then [] else Insert(Sort(s[..|s| - 1]), s[|s| - 1])
  }

  function Insert(s: seq<Text>, x: Text): (r: seq<Text>)
    ensures |r| == |s| + 1
  {
    if s == [] then [x]
    else
      var last := s[|s| - 1];
      if !Less(x, last) then s + [x] else Insert(s[..|s| - 1], x) + [last]
  }

  lemma {:induction false} SortSorts(s: seq<Text>)
    ensures Sorted(Sort(s)) && multiset(Sort(s)) == multiset(s)
    ensures forall x :: x in Sort(s) <==> x in s
  {
    if s != [] {
      assert s == s[..|s| - 1] + [s[|s| - 1]];
      SortSorts(s[..|s| - 1]);
      InsertSorts(Sort(s[..|s| - 1]), s[|s| - 1]);
    }
    assert forall x :: x in Sort(s) <==> x in multiset(Sort(s));
    assert forall x :: x in s <==> x in multiset(s);
  }

  lemma {:induction false} InsertSorts(s: seq<Text>, x: Text)
    requires Sorted(s)
    ensures Sorted(Insert(s, x)) && multiset(Insert(s, x)) == multiset(s) + multiset{x}
  {
    if s != [] {
      var last := s[|s| - 1];
      assert s == s[..|s| - 1] + [last];
      if !Less(x, last) {
        LastIsLargest(s, x);
      } else {
        InsertSorts(s[..|s| - 1], x);
        InsertedBelow(s, x, Insert(s[..|s| - 1], x));
      }
    }
  }

  lemma LastIsLargest(s: seq<Text>, x: Text)
    requires Sorted(s) && s != [] && !Less(x, s[|s| - 1])
    ensures Sorted(s + [x])
  {
    forall i | 0 <= i < |s| ensures !Less(x, s[i]) {
      if Less(x, s[i]) && i < |s| - 1 {
        Trichotomy(s[i], s[|s| - 1]);
        if Less(s[i], s[|s| - 1]) { Transitive(x, s[i], s[|s| - 1]); }
      }
    }
  }

  lemma InsertedBelow(s: seq<Text>, x: Text, front: seq<Text>)
    requires Sorted(s) && s != [] && Less(x, s[|s| - 1])
    requires Sorted(front) && multiset(front) == multiset(s[..|s| - 1]) + multiset{x}
    ensures Sorted(front + [s[|s| - 1]])
  {
    var last := s[|s| - 1];
    forall i | 0 <= i < |front| ensures !Less(last, front[i]) {
      assert front[i] in multiset(front);
      if front[i] == x {
        Trichotomy(x, last);
      } else {
        assert front[i] in s[..|s| - 1];
      }
    }
  }

  /** A duplicate anywhere shows up as two equal neighbours once sorted. */
  lemma DuplicatesAreAdjacent(s: seq<Text>)
    ensures Distinct(s) <==> Ascending(Sort(s))
    ensures Distinct(s) <==> (forall i :: 0 <= i < |s| - 1 ==> Sort(s)[i] != Sort(s)[i + 1])
  {
    var r := Sort(s);
    SortSorts(s);
    DistinctCounts(s);
    DistinctCounts(r);
    if forall i :: 0 <= i < |r| - 1 ==> r[i] != r[i + 1] {
      NeighboursAscend(r);
    }
    forall i, j | 0 <= i < j < |r| ensures Less(r[i], r[j]) || r[i] == r[j] {
      Trichotomy(r[i], r[j]);
    }
    if Ascending(r) {
      forall i, j | 0 <= i < j < |r| ensures r[i] != r[j] { Trichotomy(r[i], r[j]); }
    }
  }

  lemma NeighboursAscend(r: seq<Text>)
    requires Sorted(r)
    requires forall i :: 0 <= i < |r| - 1 ==> r[i] != r[i + 1]
    ensures Ascending(r)
  {
    forall i, j | 0 <= i < j < |r| ensures Less(r[i], r[j]) {
      Trichotomy(r[i], r[i + 1]);
      if i + 1 < j {
        Trichotomy(r[i + 1], r[j]);
        if Less(r[i + 1], r[j]) { Transitive(r[i], r[i + 1], r[j]); }
      }
    }
  }

  lemma {:induction false} DistinctCounts<T>(s: seq<T>)
    ensures Distinct(s) <==> (forall x :: multiset(s)[x] <= 1)
  {
    if s != [] {
      var front, last := s[..|s| - 1], s[|s| - 1];
      assert s == front + [last];
      DistinctCounts(front);
      assert last in front <==> multiset(front)[last] >= 1;
      assert Distinct(s) <==> Distinct(front) && last !in front;
      assert forall x :: multiset(s)[x] == multiset(front)[x] + (if x == last then 1 else 0);
    }
  }

  /** An ascending sequence is determined by its set of elements. */
  lemma {:induction false} AscendingUnique(a: seq<Text>, b: seq<Text>)
    requires Ascending(a) && Ascending(b)
    requires forall x :: x in a <==> x in b
    ensures a == b
    decreases |a|
  {
    assert b != [] ==> b[0] in a;
    if a != [] {
      HeadIsLeast(a, b);
      HeadIsLeast(b, a);
      assert a[0] == b[0] by { Trichotomy(a[0], b[0]); }
      forall x ensures x in a[1..] <==> x in b[1..] {
        TailMembers(a, x);
        TailMembers(b, x);
      }
      AscendingUnique(a[1..], b[1..]);
      assert a == [a[0]] + a[1..] && b == [b[0]] + b[1..];
    }
  }

  lemma HeadIsLeast(a: seq<Text>, b: seq<Text>)
    requires Ascending(b) && a != []
    requires forall x :: x in a <==> x in b
    ensures b != [] && !Less(a[0], b[0])
  {
    assert a[0] in b;
    var i :| 0 <= i < |b| && b[i] == a[0];
    Trichotomy(b[0], b[i]);
  }

  lemma TailMembers(a: seq<Text>, x: Text)
    requires Ascending(a) && a != []
    ensures x in a[1..] <==> x in a && x != a[0]
  {
    if x in a[1..] {
      var i :| 1 <= i < |a| && a[i] == x;
      assert Less(a[0], x);
      Trichotomy(a[0], x);
    }
  }
}
