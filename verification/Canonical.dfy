/** The canonical request encoding that decides "same request" or "conflict". */
module Canonical {
  import opened Texts
  import opened Options
  import opened Json
  import opened JsonReader

  const REQUEST_ID: Text := [0x72, 0x65, 0x71, 0x75, 0x65, 0x73, 0x74, 0x49, 0x64]
  const INSTANCES: Text := [0x69, 0x6e, 0x73, 0x74, 0x61, 0x6e, 0x63, 0x65, 0x73]

  datatype Rejection = NotAnObject | InstancesNotArray | InstanceNotString | DuplicateInstance

  datatype Encoded = Ok(bytes: Text) | Rejected(why: Rejection)

  datatype Context = Root(sortInstances: bool) | Nested

  // ---- Reference definition: which requests count as the same ----------------------------------

  /** Equal JSON values up to the order of object members, at every depth. */
  ghost predicate Same(a: Json, b: Json)
    decreases a
  {
    match a
    case Arr(items) =>
      b.Arr? && |items| == |b.items| && forall i :: 0 <= i < |items| ==> Same(items[i], b.items[i])
    case Obj(members) =>
      && b.Obj?
      && (forall k :: HasKey(members, k) <==> HasKey(b.members, k))
      && forall k :: HasKey(members, k) ==>
        Same(members[IndexOf(members, k)].value, b.members[IndexOf(b.members, k)].value)
    case _ => a == b
  }

  /** Two requests are the same when they agree on every root member but `requestId`; a group
      request compares its `instances` as a set. */
  ghost predicate SameRequest(a: Json, b: Json, sortInstances: bool)
    requires a.Obj? && b.Obj?
  {
    && (forall k :: k != REQUEST_ID ==> (HasKey(a.members, k) <==> HasKey(b.members, k)))
    && forall k :: k != REQUEST_ID && HasKey(a.members, k) ==>
      SameMember(k, Get(a.members, k), Get(b.members, k), sortInstances)
  }

  ghost predicate SameMember(key: Text, a: Json, b: Json, sortInstances: bool) {
    if key == INSTANCES && sortInstances then
      a.Arr? && b.Arr? && forall x :: x in a.items <==> x in b.items
    else Same(a, b)
  }

  /** A group request may only name its cameras as an array of distinct strings. */
  ghost predicate Acceptable(v: Json, sortInstances: bool) {
    v.Obj? && (sortInstances && HasKey(v.members, INSTANCES) ==> IsNameList(Get(v.members, INSTANCES)))
  }

  ghost predicate IsNameList(v: Json) {
    && v.Arr? && (forall i :: 0 <= i < |v.items| ==> v.items[i].Str?)
    && forall i, j :: 0 <= i < j < |v.items| ==> v.items[i].text != v.items[j].text
  }

  type Problem = Option<Rejection>

  function InstancesProblem(v: Json): Problem {
    if !v.Arr? then Some(InstancesNotArray)
    else if !(forall i :: 0 <= i < |v.items| ==> v.items[i].Str?) then Some(InstanceNotString)
    else if !Distinct(v.items) then Some(DuplicateInstance)
    else None
  }

  // ---- The encoder as a function: a canonical tree, printed ------------------------------------

  function SortedKeys(members: seq<Member>): (r: seq<Text>)
    ensures forall i :: 0 <= i < |r| ==> HasKey(members, r[i])
  {
    var keys := KeyList(members);
    SortSorts(keys);
    assert forall i :: 0 <= i < |Sort(keys)| ==> Sort(keys)[i] in Sort(keys);
    Sort(keys)
  }

  lemma SortedKeysAscend(members: seq<Member>)
    ensures forall k :: k in SortedKeys(members) <==> HasKey(members, k)
    ensures Distinct(KeyList(members)) ==> Ascending(SortedKeys(members))
  {
    SortSorts(KeyList(members));
    DuplicatesAreAdjacent(KeyList(members));
    assert forall k :: k in KeyList(members) <==> HasKey(members, k);
  }

  /** The value with the members of every object put in key order. */
  function Normal(v: Json): Json {
    match v
    case Arr(items) => Arr(seq(|items|, i requires 0 <= i < |items| => Normal(items[i])))
    case Obj(members) =>
      var keys := SortedKeys(members);
      Obj(seq(|keys|, i requires 0 <= i < |keys| =>
        Member(keys[i], Normal(members[IndexOf(members, keys[i])].value))))
    case _ => v
  }

  function TextsOf(items: seq<Json>): (r: seq<Text>)
    requires forall i :: 0 <= i < |items| ==> items[i].Str?
    ensures |r| == |items| && forall i :: 0 <= i < |r| ==> items[i] == Str(r[i])
  {
    seq(|items|, i requires 0 <= i < |items| => items[i].text)
  }

  function Strings(texts: seq<Text>): (r: seq<Json>)
    ensures |r| == |texts| && forall i :: 0 <= i < |r| ==> r[i] == Str(texts[i])
  {
    seq(|texts|, i requires 0 <= i < |texts| => Str(texts[i]))
  }

  /** What one member's value contributes in a given context. */
  function Child(key: Text, value: Json, context: Context): Json {
    if key == INSTANCES && context == Root(true) && InstancesProblem(value).None?
    then Arr(Strings(Sort(TextsOf(value.items))))
    else Normal(value)
  }

  predicate Keeps(key: Text, context: Context) {
    !(context.Root? && key == REQUEST_ID)
  }

  function Kept(keys: seq<Text>, context: Context): (r: seq<Text>)
  {
    if keys == [] then []
    else Kept(keys[..|keys| - 1], context) + if Keeps(keys[|keys| - 1], context) then [keys[|keys| - 1]] else []
  }

  lemma {:induction false} KeptKeys(keys: seq<Text>, context: Context)
    ensures forall k :: k in Kept(keys, context) <==> k in keys && Keeps(k, context)
    ensures Ascending(keys) ==> Ascending(Kept(keys, context))
  {
    if keys != [] {
      var front, last := keys[..|keys| - 1], keys[|keys| - 1];
      assert keys == front + [last];
      assert Ascending(keys) ==> Ascending(front) && forall k :: k in front ==> Less(k, last);
      KeptKeys(front, context);
    }
  }

  function KeptSorted(members: seq<Member>, context: Context): (r: seq<Text>)
    ensures forall i :: 0 <= i < |r| ==> HasKey(members, r[i])
  {
    var r := Kept(SortedKeys(members), context);
    KeptKeys(SortedKeys(members), context);
    SortedKeysAscend(members);
    assert forall i :: 0 <= i < |r| ==> r[i] in r;
    r
  }

  /** The canonical members for a run of keys, in that order. */
  function CanonicalMembers(members: seq<Member>, keys: seq<Text>, context: Context): (r: seq<Member>)
    requires forall i :: 0 <= i < |keys| ==> HasKey(members, keys[i])
  {
    seq(|keys|, i requires 0 <= i < |keys| => Member(keys[i], Child(keys[i], Get(members, keys[i]), context)))
  }

  function CanonicalTree(v: Json, context: Context): Json {
    if v.Obj? then Obj(CanonicalMembers(v.members, KeptSorted(v.members, context), context)) else Normal(v)
  }

  function CanonicalBytes(request: Json, sortInstances: bool): Encoded {
    if !request.Obj? then Rejected(NotAnObject)
    else if sortInstances && HasKey(request.members, INSTANCES)
            && InstancesProblem(Get(request.members, INSTANCES)).Some? then
      Rejected(InstancesProblem(Get(request.members, INSTANCES)).value)
    else Ok(Print(CanonicalTree(request, Root(sortInstances))))
  }

  // ---- Faithfulness ---------------------------------------------------------------------------

  lemma {:induction false} NormalPrintable(v: Json)
    requires Valid(v)
    ensures NumbersPrintable(Normal(v))
  {
    match v
    case Arr(items) => forall i | 0 <= i < |items| { NormalPrintable(items[i]); }
    case Obj(members) => forall i | 0 <= i < |members| { NormalPrintable(members[i].value); }
    case _ =>
  }

  lemma SortedKeysUnique(a: seq<Member>, b: seq<Member>)
    requires Distinct(KeyList(a)) && Distinct(KeyList(b))
    ensures (forall k :: HasKey(a, k) <==> HasKey(b, k)) <==> SortedKeys(a) == SortedKeys(b)
  {
    SortedKeysAscend(a);
    SortedKeysAscend(b);
    if forall k :: HasKey(a, k) <==> HasKey(b, k) {
      AscendingUnique(SortedKeys(a), SortedKeys(b));
    } else {
      var k :| HasKey(a, k) != HasKey(b, k);
      assert k in SortedKeys(a) <==> HasKey(a, k);
      assert k in SortedKeys(b) <==> HasKey(b, k);
    }
  }

  /** Sorting the members erases exactly their order. */
  lemma {:induction false} NormalFaithful(a: Json, b: Json)
    requires Valid(a) && Valid(b)
    ensures Normal(a) == Normal(b) <==> Same(a, b)
    decreases a
  {
    if a.Arr? && b.Arr? {
      ArrayFaithful(a, b);
    } else if a.Obj? && b.Obj? {
      ObjectFaithful(a, b);
    }
  }

  lemma {:induction false} ArrayFaithful(a: Json, b: Json)
    requires a.Arr? && b.Arr? && Valid(a) && Valid(b)
    ensures Normal(a) == Normal(b) <==> Same(a, b)
    decreases a, 0
  {
    if |a.items| == |b.items| {
      forall i | 0 <= i < |a.items| ensures Normal(a.items[i]) == Normal(b.items[i]) <==> Same(a.items[i], b.items[i]) {
        NormalFaithful(a.items[i], b.items[i]);
      }
      var x, y := Normal(a).items, Normal(b).items;
      assert forall i :: 0 <= i < |x| ==> x[i] == Normal(a.items[i]) && y[i] == Normal(b.items[i]);
    } else {
      assert |Normal(a).items| != |Normal(b).items|;
    }
  }

  /** Member `i` of a normal object is its `i`-th smallest key with that key's normal value. */
  lemma NormalMember(a: Json, i: nat)
    requires a.Obj? && i < |SortedKeys(a.members)|
    ensures |Normal(a).members| == |SortedKeys(a.members)|
    ensures HasKey(a.members, SortedKeys(a.members)[i])
    ensures Normal(a).members[i]
         == Member(SortedKeys(a.members)[i], Normal(Get(a.members, SortedKeys(a.members)[i])))
  {}

  lemma {:induction false} ObjectFaithful(a: Json, b: Json)
    requires a.Obj? && b.Obj? && Valid(a) && Valid(b)
    ensures Normal(a) == Normal(b) <==> Same(a, b)
    decreases a, 0
  {
    SortedKeysUnique(a.members, b.members);
    forall k | HasKey(a.members, k) && HasKey(b.members, k)
      ensures Normal(Get(a.members, k)) == Normal(Get(b.members, k)) <==> Same(Get(a.members, k), Get(b.members, k))
    {
      NormalFaithful(Get(a.members, k), Get(b.members, k));
    }
    if Normal(a) == Normal(b) {
      EqualNormals(a, b);
    }
    if Same(a, b) {
      var keys := SortedKeys(a.members);
      forall i | 0 <= i < |keys| ensures Normal(a).members[i] == Normal(b).members[i] {
        NormalMember(a, i);
        NormalMember(b, i);
      }
      assert Normal(a).members == Normal(b).members;
    }
  }

  lemma EqualNormals(a: Json, b: Json)
    requires a.Obj? && b.Obj? && Normal(a) == Normal(b)
    ensures SortedKeys(a.members) == SortedKeys(b.members)
    ensures forall k :: HasKey(a.members, k) && HasKey(b.members, k) ==>
      Normal(Get(a.members, k)) == Normal(Get(b.members, k))
  {
    var ka, kb := SortedKeys(a.members), SortedKeys(b.members);
    assert |ka| == |Normal(a).members| == |kb|;
    forall i | 0 <= i < |ka| ensures ka[i] == kb[i] {
      NormalMember(a, i);
      NormalMember(b, i);
    }
    SortedKeysAscend(a.members);
    forall k | HasKey(a.members, k) && HasKey(b.members, k)
      ensures Normal(Get(a.members, k)) == Normal(Get(b.members, k))
    {
      assert k in ka;
      var i :| 0 <= i < |ka| && ka[i] == k;
      NormalMember(a, i);
      NormalMember(b, i);
    }
  }

  lemma {:induction false} KeptNested(keys: seq<Text>)
    ensures Kept(keys, Nested) == keys
  {
    if keys != [] {
      KeptNested(keys[..|keys| - 1]);
    }
  }

  /** Below the root the encoder prints the plain normal form. */
  lemma NestedTree(v: Json)
    ensures CanonicalTree(v, Nested) == Normal(v)
  {
    if v.Obj? {
      var keys := SortedKeys(v.members);
      KeptNested(keys);
      var x, y := CanonicalMembers(v.members, keys, Nested), Normal(v).members;
      assert |x| == |y|;
      forall i | 0 <= i < |x| ensures x[i] == y[i] {
        NormalMember(v, i);
        ChildNested(keys[i], Get(v.members, keys[i]));
      }
      assert x == y;
    }
  }

  lemma ChildNested(key: Text, value: Json)
    ensures Child(key, value, Nested) == Normal(value)
  {}

  lemma InstancesFaithful(a: Json, b: Json)
    requires InstancesProblem(a).None? && InstancesProblem(b).None?
    ensures Sort(TextsOf(a.items)) == Sort(TextsOf(b.items)) <==> (forall x :: x in a.items <==> x in b.items)
  {
    SameStrings(a.items, b.items);
    SameSorted(TextsOf(a.items), TextsOf(b.items));
  }

  lemma SameStrings(a: seq<Json>, b: seq<Json>)
    requires forall i :: 0 <= i < |a| ==> a[i].Str?
    requires forall i :: 0 <= i < |b| ==> b[i].Str?
    ensures (forall x :: x in a <==> x in b) <==> (forall x :: x in TextsOf(a) <==> x in TextsOf(b))
    ensures Distinct(a) ==> Distinct(TextsOf(a))
    ensures Distinct(b) ==> Distinct(TextsOf(b))
  {
    var s, t := TextsOf(a), TextsOf(b);
    assert forall x :: x in s <==> Str(x) in a;
    assert forall x :: x in t <==> Str(x) in b;
    if forall x :: x in s <==> x in t {
      forall x ensures x in a <==> x in b {
        assert x in a ==> x == Str(x.text) && x.text in s;
        assert x in b ==> x == Str(x.text) && x.text in t;
      }
    }
  }

  lemma SameSorted(s: seq<Text>, t: seq<Text>)
    requires Distinct(s) && Distinct(t)
    ensures Sort(s) == Sort(t) <==> (forall x :: x in s <==> x in t)
  {
    DuplicatesAreAdjacent(s);
    DuplicatesAreAdjacent(t);
    SortSorts(s);
    SortSorts(t);
    if forall x :: x in s <==> x in t {
      AscendingUnique(Sort(s), Sort(t));
    }
  }

  lemma StringsInjective(s: seq<Text>, t: seq<Text>)
    ensures Strings(s) == Strings(t) <==> s == t
  {
    if Strings(s) == Strings(t) {
      assert |s| == |Strings(s)| == |t|;
      forall i | 0 <= i < |s| ensures s[i] == t[i] {
        assert Strings(s)[i] == Str(s[i]) && Strings(t)[i] == Str(t[i]);
      }
    }
  }

  lemma ChildFaithful(key: Text, a: Json, b: Json, sort: bool)
    requires Valid(a) && Valid(b)
    requires key == INSTANCES && sort ==> InstancesProblem(a).None? && InstancesProblem(b).None?
    ensures Child(key, a, Root(sort)) == Child(key, b, Root(sort)) <==> SameMember(key, a, b, sort)
  {
    if key == INSTANCES && sort {
      InstancesFaithful(a, b);
      StringsInjective(Sort(TextsOf(a.items)), Sort(TextsOf(b.items)));
    } else {
      NormalFaithful(a, b);
    }
  }

  lemma ChildPrintable(key: Text, a: Json, context: Context)
    requires Valid(a)
    ensures NumbersPrintable(Child(key, a, context))
  {
    NormalPrintable(a);
  }

  lemma KeptSortedKeys(members: seq<Member>, context: Context)
    ensures forall k :: k in KeptSorted(members, context) <==> HasKey(members, k) && Keeps(k, context)
    ensures Distinct(KeyList(members)) ==> Ascending(KeptSorted(members, context))
  {
    KeptKeys(SortedKeys(members), context);
    SortedKeysAscend(members);
  }

  lemma KeptUnique(a: Json, b: Json, sort: bool)
    requires a.Obj? && b.Obj? && Valid(a) && Valid(b)
    ensures KeptSorted(a.members, Root(sort)) == KeptSorted(b.members, Root(sort))
       <==> (forall k :: k != REQUEST_ID ==> (HasKey(a.members, k) <==> HasKey(b.members, k)))
  {
    var ka, kb := KeptSorted(a.members, Root(sort)), KeptSorted(b.members, Root(sort));
    KeptSortedKeys(a.members, Root(sort));
    KeptSortedKeys(b.members, Root(sort));
    if forall k :: k != REQUEST_ID ==> (HasKey(a.members, k) <==> HasKey(b.members, k)) {
      AscendingUnique(ka, kb);
    } else {
      var k :| k != REQUEST_ID && HasKey(a.members, k) != HasKey(b.members, k);
      assert k in ka <==> HasKey(a.members, k);
      assert k in kb <==> HasKey(b.members, k);
    }
  }

  lemma TreePrintable(a: Json, context: Context)
    requires Valid(a)
    ensures NumbersPrintable(CanonicalTree(a, context))
  {
    NormalPrintable(a);
    if a.Obj? {
      var keys := KeptSorted(a.members, context);
      forall i | 0 <= i < |keys| ensures NumbersPrintable(CanonicalTree(a, context).members[i].value) {
        ChildPrintable(keys[i], Get(a.members, keys[i]), context);
      }
    }
  }

  lemma SameKeys(a: seq<Member>, ka: seq<Text>, b: seq<Member>, kb: seq<Text>, context: Context)
    requires forall i :: 0 <= i < |ka| ==> HasKey(a, ka[i])
    requires forall i :: 0 <= i < |kb| ==> HasKey(b, kb[i])
    requires CanonicalMembers(a, ka, context) == CanonicalMembers(b, kb, context)
    ensures ka == kb
  {
    var x, y := CanonicalMembers(a, ka, context), CanonicalMembers(b, kb, context);
    assert |ka| == |x| == |y| == |kb|;
    assert forall i :: 0 <= i < |ka| ==> x[i].key == ka[i] && y[i].key == kb[i];
  }

  lemma TreeFaithful(a: Json, b: Json, sort: bool)
    requires Valid(a) && Valid(b) && Acceptable(a, sort) && Acceptable(b, sort)
    ensures CanonicalTree(a, Root(sort)) == CanonicalTree(b, Root(sort)) <==> SameRequest(a, b, sort)
  {
    var ka, kb := KeptSorted(a.members, Root(sort)), KeptSorted(b.members, Root(sort));
    KeptUnique(a, b, sort);
    if CanonicalTree(a, Root(sort)) == CanonicalTree(b, Root(sort)) {
      SameKeys(a.members, ka, b.members, kb, Root(sort));
    }
    if ka == kb {
      KeptSortedKeys(a.members, Root(sort));
      KeptSortedKeys(b.members, Root(sort));
      MembersFaithful(a, b, sort, ka);
    }
  }

  lemma MembersFaithful(a: Json, b: Json, sort: bool, keys: seq<Text>)
    requires Valid(a) && Valid(b) && Acceptable(a, sort) && Acceptable(b, sort)
    requires forall k :: k in keys <==> k != REQUEST_ID && HasKey(a.members, k)
    requires forall k :: k in keys <==> k != REQUEST_ID && HasKey(b.members, k)
    ensures forall i :: 0 <= i < |keys| ==> HasKey(a.members, keys[i]) && HasKey(b.members, keys[i])
    ensures CanonicalMembers(a.members, keys, Root(sort)) == CanonicalMembers(b.members, keys, Root(sort))
       <==> (forall k :: k in keys ==> SameMember(k, Get(a.members, k), Get(b.members, k), sort))
  {
    assert forall i :: 0 <= i < |keys| ==> keys[i] in keys;
    var x, y := CanonicalMembers(a.members, keys, Root(sort)), CanonicalMembers(b.members, keys, Root(sort));
    forall i | 0 <= i < |keys|
      ensures keys[i] in keys && (x[i] == y[i] <==> SameMember(keys[i], Get(a.members, keys[i]), Get(b.members, keys[i]), sort))
    {
      assert keys[i] in keys;
      ChildFaithful(keys[i], Get(a.members, keys[i]), Get(b.members, keys[i]), sort);
    }
    assert x == y <==> forall i :: 0 <= i < |keys| ==> x[i] == y[i];
  }

  /** Main result: two accepted requests get equal bytes exactly when they are the same request. */
  lemma CanonicalBytesFaithful(a: Json, b: Json, sort: bool)
    requires Valid(a) && Valid(b)
    requires CanonicalBytes(a, sort).Ok? && CanonicalBytes(b, sort).Ok?
    ensures CanonicalBytes(a, sort) == CanonicalBytes(b, sort) <==> SameRequest(a, b, sort)
  {
    var x, y := CanonicalTree(a, Root(sort)), CanonicalTree(b, Root(sort));
    TreeFaithful(a, b, sort);
    TreePrintable(a, Root(sort));
    TreePrintable(b, Root(sort));
    if Print(x) == Print(y) {
      assert Print(x) + [] == Print(y) + [];
      PrintUnique(x, [], y, []);
    }
  }

  // ---- The bytes are JSON text of the request ---------------------------------------------------------------

  /** The two member names that are special at the root. */
  lemma SpecialNames()
    ensures REQUEST_ID == Ascii("requestId") && INSTANCES == Ascii("instances")
  {}

  /** Members in strict byte order of their names, at every depth. */
  ghost predicate Ordered(v: Json) {
    match v
    case Arr(items) => forall i :: 0 <= i < |items| ==> Ordered(items[i])
    case Obj(members) =>
      && (forall i, j :: 0 <= i < j < |members| ==> ByteOrder(members[i].key, members[j].key))
      && forall i :: 0 <= i < |members| ==> Ordered(members[i].value)
    case _ => true
  }

  /** Texts in strict byte order. */
  ghost predicate AscendingNames(v: Json) {
    && v.Arr? && (forall i :: 0 <= i < |v.items| ==> v.items[i].Str?)
    && forall i, j :: 0 <= i < j < |v.items| ==> ByteOrder(v.items[i].text, v.items[j].text)
  }

  lemma NamesAscend(texts: seq<Text>)
    requires Ascending(texts)
    ensures AscendingNames(Arr(Strings(texts)))
  {
    forall i, j | 0 <= i < j < |texts| ensures ByteOrder(texts[i], texts[j]) {
      LessIsByteOrder(texts[i], texts[j]);
    }
  }

  /** `bytes` is JSON text of the request: an object that is the same request, without its `requestId`, with the
      members of every object in byte order of their names and, for a group, its `instances` in byte order. */
  ghost predicate IsTextOf(bytes: Text, a: Json, sort: bool)
    requires a.Obj?
  {
    var read := ReadText(bytes);
    && read.Got? && read.value.Obj? && SameRequest(read.value, a, sort)
    && Ordered(read.value) && !HasKey(read.value.members, REQUEST_ID)
    && (sort && HasKey(read.value.members, INSTANCES) ==> AscendingNames(Get(read.value.members, INSTANCES)))
  }

  lemma AscendingIsOrdered(members: seq<Member>)
    requires Ascending(KeyList(members))
    ensures forall i, j :: 0 <= i < j < |members| ==> ByteOrder(members[i].key, members[j].key)
  {
    forall i, j | 0 <= i < j < |members| ensures ByteOrder(members[i].key, members[j].key) {
      assert Less(KeyList(members)[i], KeyList(members)[j]);
      LessIsByteOrder(members[i].key, members[j].key);
    }
  }

  lemma {:induction false} NormalIsOrdered(v: Json)
    requires Valid(v)
    ensures Ordered(Normal(v))
  {
    match v
    case Arr(items) => forall i | 0 <= i < |items| { NormalIsOrdered(items[i]); }
    case Obj(members) =>
      SortedKeysAscend(members);
      var keys := SortedKeys(members);
      assert KeyList(Normal(v).members) == keys;
      AscendingIsOrdered(Normal(v).members);
      forall i | 0 <= i < |keys| ensures Ordered(Normal(v).members[i].value) {
        NormalIsOrdered(members[IndexOf(members, keys[i])].value);
      }
    case _ =>
  }

  lemma {:induction false} NormalIsSame(v: Json)
    requires Valid(v)
    ensures Same(Normal(v), v)
  {
    match v
    case Arr(items) => forall i | 0 <= i < |items| ensures Same(Normal(v).items[i], items[i]) { NormalIsSame(items[i]); }
    case Obj(members) => NormalObjectIsSame(v);
    case _ =>
  }

  lemma {:induction false} NormalObjectIsSame(v: Json)
    requires Valid(v) && v.Obj?
    ensures Same(Normal(v), v)
    decreases v, 0
  {
    var keys, normal := SortedKeys(v.members), Normal(v).members;
    SortedKeysAscend(v.members);
    assert KeyList(normal) == keys;
    forall k ensures HasKey(normal, k) <==> HasKey(v.members, k) {
      assert k in keys <==> HasKey(v.members, k);
      if HasKey(normal, k) { assert normal[IndexOf(normal, k)].key in keys; }
    }
    forall k | HasKey(normal, k)
      ensures Same(normal[IndexOf(normal, k)].value, v.members[IndexOf(v.members, k)].value)
    {
      NormalIsSame(v.members[IndexOf(v.members, k)].value);
    }
  }

  lemma NameListHasNoProblem(v: Json)
    ensures IsNameList(v) <==> InstancesProblem(v).None?
  {
    if IsNameList(v) { assert Distinct(v.items); }
    if InstancesProblem(v).None? {
      forall i, j | 0 <= i < j < |v.items| ensures v.items[i].text != v.items[j].text {
        assert v.items[i] != v.items[j];
      }
    }
  }

  /** When the encoder refuses, and with which error: the first that applies. */
  lemma Refusals(request: Json, sort: bool)
    ensures CanonicalBytes(request, sort).Ok? <==> Acceptable(request, sort)
    ensures CanonicalBytes(request, sort) == Rejected(NotAnObject) <==> !request.Obj?
    ensures CanonicalBytes(request, sort) == Rejected(InstancesNotArray)
       <==> request.Obj? && sort && HasKey(request.members, INSTANCES) && !Get(request.members, INSTANCES).Arr?
    ensures CanonicalBytes(request, sort) == Rejected(DuplicateInstance)
       ==> request.Obj? && sort && HasKey(request.members, INSTANCES) && Get(request.members, INSTANCES).Arr?
           && forall x :: x in Get(request.members, INSTANCES).items ==> x.Str?
    ensures CanonicalBytes(request, sort) == Rejected(InstanceNotString)
       <==> request.Obj? && sort && HasKey(request.members, INSTANCES) && Get(request.members, INSTANCES).Arr?
            && exists x :: x in Get(request.members, INSTANCES).items && !x.Str?
  {
    if request.Obj? && HasKey(request.members, INSTANCES) {
      NameListHasNoProblem(Get(request.members, INSTANCES));
    }
  }

  lemma ChildIsSame(key: Text, value: Json, sort: bool)
    requires Valid(value) && (key == INSTANCES && sort ==> IsNameList(value))
    ensures SameMember(key, Child(key, value, Root(sort)), value, sort)
    ensures key == INSTANCES && sort ==> AscendingNames(Child(key, value, Root(sort)))
  {
    NameListHasNoProblem(value);
    if key == INSTANCES && sort {
      var texts := TextsOf(value.items);
      SortSorts(texts);
      DuplicatesAreAdjacent(texts);
      NamesAscend(Sort(texts));
      forall x ensures x in Child(key, value, Root(sort)).items <==> x in value.items {
        if x in value.items {
          var i :| 0 <= i < |value.items| && value.items[i] == x;
          assert texts[i] in texts && texts[i] in Sort(texts);
          var j :| 0 <= j < |Sort(texts)| && Sort(texts)[j] == texts[i];
          assert Strings(Sort(texts))[j] == x;
        }
        if x in Strings(Sort(texts)) {
          var j :| 0 <= j < |Sort(texts)| && Strings(Sort(texts))[j] == x;
          assert Sort(texts)[j] in Sort(texts) && Sort(texts)[j] in texts;
          var i :| 0 <= i < |texts| && texts[i] == Sort(texts)[j];
          assert value.items[i] == x;
        }
      }
    } else {
      NormalIsSame(value);
    }
  }

  lemma ChildIsOrdered(key: Text, value: Json, sort: bool)
    requires Valid(value)
    ensures Ordered(Child(key, value, Root(sort)))
  {
    NormalIsOrdered(value);
  }

  lemma TreeKeys(a: Json, sort: bool)
    requires a.Obj? && Valid(a)
    ensures var tree := CanonicalTree(a, Root(sort)).members;
      && KeyList(tree) == KeptSorted(a.members, Root(sort)) && Ascending(KeyList(tree)) && Distinct(KeyList(tree))
      && forall k :: HasKey(tree, k) <==> HasKey(a.members, k) && k != REQUEST_ID
  {
    var tree, keys := CanonicalTree(a, Root(sort)).members, KeptSorted(a.members, Root(sort));
    SortedKeysAscend(a.members);
    KeptKeys(SortedKeys(a.members), Root(sort));
    assert KeyList(tree) == keys;
    AscendingDistinct(keys);
    forall k ensures HasKey(tree, k) <==> HasKey(a.members, k) && k != REQUEST_ID {
      KeyListed(tree, k);
    }
  }

  lemma AscendingDistinct(keys: seq<Text>)
    requires Ascending(keys)
    ensures Distinct(keys)
  {
    forall i, j | 0 <= i < j < |keys| ensures keys[i] != keys[j] { Trichotomy(keys[i], keys[j]); }
  }

  lemma KeyListed(members: seq<Member>, k: Text)
    ensures HasKey(members, k) <==> k in KeyList(members)
  {
    forall i | 0 <= i < |members| ensures KeyList(members)[i] == members[i].key {}
    if HasKey(members, k) { assert KeyList(members)[IndexOf(members, k)] == k; }
  }

  lemma TreeIsSame(a: Json, sort: bool)
    requires Valid(a) && Acceptable(a, sort)
    ensures var tree := CanonicalTree(a, Root(sort)); SameRequest(tree, a, sort) && !HasKey(tree.members, REQUEST_ID)
    ensures var tree := CanonicalTree(a, Root(sort));
      sort && HasKey(tree.members, INSTANCES) ==> AscendingNames(Get(tree.members, INSTANCES))
  {
    var tree := CanonicalTree(a, Root(sort));
    TreeKeys(a, sort);
    forall k | k != REQUEST_ID && HasKey(tree.members, k)
      ensures SameMember(k, Get(tree.members, k), Get(a.members, k), sort)
      ensures k == INSTANCES && sort ==> AscendingNames(Get(tree.members, k))
    {
      ChildIsSame(k, Get(a.members, k), sort);
    }
  }

  lemma TreeIsOrdered(a: Json, sort: bool)
    requires a.Obj? && Valid(a)
    ensures Ordered(CanonicalTree(a, Root(sort)))
  {
    var tree := CanonicalTree(a, Root(sort));
    TreeKeys(a, sort);
    AscendingIsOrdered(tree.members);
    forall i | 0 <= i < |tree.members| ensures Ordered(tree.members[i].value) {
      ChildIsOrdered(tree.members[i].key, Get(a.members, tree.members[i].key), sort);
    }
  }

  /** The bytes of an accepted request are JSON text of it. */
  lemma BytesReadBack(a: Json, sort: bool)
    requires Valid(a) && Acceptable(a, sort)
    ensures CanonicalBytes(a, sort).Ok? && IsTextOf(CanonicalBytes(a, sort).bytes, a, sort)
  {
    Refusals(a, sort);
    TreePrintable(a, Root(sort));
    TextReadsBack(CanonicalTree(a, Root(sort)));
    TreeIsSame(a, sort);
    TreeIsOrdered(a, sort);
  }
}
