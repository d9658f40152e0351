/** The encoder as the adapter runs it: one output buffer, appended to in place. */
module Encoder {
  import opened Texts
  import opened Options
  import opened Json
  import opened Canonical

  class Buffer {
    var bytes: Text

    constructor ()
      ensures bytes == []
    {
      bytes := [];
    }

    method Extend(more: Text)
      modifies this
      ensures bytes == old(bytes) + more
    {
      bytes := bytes + more;
    }
  }

  function EncodeProblem(value: Json, context: Context): Problem {
    if value.Obj? && context == Root(true) && HasKey(value.members, INSTANCES)
    then InstancesProblem(Get(value.members, INSTANCES)) else None
  }

  lemma {:induction false} PrintMoreItemsSnoc(items: seq<Json>, x: Json)
    ensures PrintMoreItems(items + [x]) == PrintMoreItems(items) + [COMMA] + Print(x)
  {
    if items == [] {
      assert items + [x] == [x] && [x][1..] == [];
    } else {
      assert (items + [x])[1..] == items[1..] + [x];
      PrintMoreItemsSnoc(items[1..], x);
    }
  }

  lemma PrintItemsSnoc(items: seq<Json>, x: Json)
    ensures PrintItems(items + [x]) == PrintItems(items) + (if items == [] then [] else [COMMA]) + Print(x)
  {
    if items == [] {
      assert items + [x] == [x] && [x][1..] == [];
    } else {
      assert (items + [x])[1..] == items[1..] + [x];
      PrintMoreItemsSnoc(items[1..], x);
    }
  }

  lemma {:induction false} PrintMoreMembersSnoc(members: seq<Member>, m: Member)
    ensures PrintMoreMembers(members + [m]) == PrintMoreMembers(members) + [COMMA] + PrintMember(m)
  {
    if members == [] {
      assert members + [m] == [m] && [m][1..] == [];
    } else {
      assert (members + [m])[1..] == members[1..] + [m];
      PrintMoreMembersSnoc(members[1..], m);
    }
  }

  lemma PrintMembersSnoc(members: seq<Member>, m: Member)
    ensures PrintMembers(members + [m])
         == PrintMembers(members) + (if members == [] then [] else [COMMA]) + PrintMember(m)
  {
    if members == [] {
      assert members + [m] == [m] && [m][1..] == [];
    } else {
      assert (members + [m])[1..] == members[1..] + [m];
      PrintMoreMembersSnoc(members[1..], m);
    }
  }

  lemma CanonicalMembersSnoc(members: seq<Member>, keys: seq<Text>, key: Text, context: Context)
    requires HasKey(members, key)
    requires forall i :: 0 <= i < |keys| ==> HasKey(members, keys[i])
    ensures forall i :: 0 <= i < |keys + [key]| ==> HasKey(members, (keys + [key])[i])
    ensures CanonicalMembers(members, keys + [key], context)
         == CanonicalMembers(members, keys, context) + [Member(key, Child(key, Get(members, key), context))]
  {}

  lemma NormalItems(items: seq<Json>, i: nat)
    requires i < |items|
    ensures Normal(Arr(items[..i + 1])).items == Normal(Arr(items[..i])).items + [Normal(items[i])]
  {}

  /** Appends the canonical text of `value`, or says why the request is rejected. */
  method EncodeValue(value: Json, output: Buffer, context: Context) returns (r: Problem)
    modifies output
    ensures r == EncodeProblem(value, context)
    ensures r.None? ==> output.bytes == old(output.bytes) + Print(CanonicalTree(value, context))
    decreases value, 4
  {
    match value
    case Null => output.Extend(NULL_TEXT); r := None;
    case Bool(flag) => output.Extend(if flag then TRUE_TEXT else FALSE_TEXT); r := None;
    case Num(token) => output.Extend(token); r := None;
    case Str(text) => output.Extend(PrintString(text)); r := None;
    case Arr(items) => EncodeArray(value, output); r := None;
    case Obj(members) =>
      var keys := SortedKeys(members);
      ghost var turns := TurnsOf(value, keys, context);
      output.Extend([0x7b]);
      r := EncodeMembers(value, keys, output, context, turns);
      TurnsDecide(value, context, keys, turns);
      if r.None? {
        output.Extend([0x7d]);
        ObjectDone(value, context, keys, turns, old(output.bytes));
      }
  }

  method EncodeArray(value: Json, output: Buffer)
    requires value.Arr?
    modifies output
    ensures output.bytes == old(output.bytes) + Print(Normal(value))
    decreases value, 0
  {
    var items := value.items;
    ghost var before := output.bytes;
    output.Extend([0x5b]);
    var index := 0;
    while index < |items|
      invariant 0 <= index <= |items|
      invariant output.bytes == (before + [0x5b]) + PrintItems(Normal(Arr(items[..index])).items)
    {
      ghost var done := Normal(Arr(items[..index])).items;
      ghost var comma := if index == 0 then [] else [COMMA];
      if index != 0 {
        output.Extend([COMMA]);
      }
      var problem := EncodeValue(items[index], output, Nested);
      NestedTree(items[index]);
      Regroup(before + [0x5b], PrintItems(done), comma, Print(Normal(items[index])));
      Regroup(PrintItems(done), comma, Print(Normal(items[index])), []);
      NormalItems(items, index);
      PrintItemsSnoc(done, Normal(items[index]));
      index := index + 1;
    }
    assert items[..|items|] == items;
    output.Extend([0x5d]);
    Regroup(before, [0x5b], PrintItems(Normal(value).items), [0x5d]);
    Regroup([0x5b], PrintItems(Normal(value).items), [0x5d], []);
  }

  /** The text that key `i` adds. */
  ghost function Piece(members: seq<Member>, keys: seq<Text>, i: nat, context: Context): Text
    requires i < |keys| && HasKey(members, keys[i])
  {
    if Keeps(keys[i], context) then
      (if NoneYet(keys, i, context) then [] else [COMMA])
      + PrintMember(Member(keys[i], Child(keys[i], Get(members, keys[i]), context)))
    else []
  }

  ghost predicate NoneYet(keys: seq<Text>, n: nat, context: Context)
    requires n <= |keys|
  {
    n == 0 || (NoneYet(keys, n - 1, context) && !Keeps(keys[n - 1], context))
  }

  lemma PrintObject(members: seq<Member>)
    ensures Print(Obj(members)) == [0x7b] + PrintMembers(members) + [0x7d]
  {}

  /** What one key adds to the text, whether it is rejected, and whether it is the first that is kept. */
  datatype Turn = Turn(piece: Text, problem: Problem, first: bool)

  ghost predicate IsTurn(turns: seq<Turn>, members: seq<Member>, keys: seq<Text>, context: Context, i: nat) {
    && i < |keys| && i < |turns| && HasKey(members, keys[i])
    && turns[i] == Turn(Piece(members, keys, i, context), MemberProblem(keys[i], Get(members, keys[i]), context), NoneYet(keys, i, context))
  }

  ghost predicate AreTurns(turns: seq<Turn>, members: seq<Member>, keys: seq<Text>, context: Context) {
    |turns| == |keys| && forall i {:trigger IsTurn(turns, members, keys, context, i)} :: 0 <= i < |keys| ==>
      IsTurn(turns, members, keys, context, i)
  }

  lemma TurnsOf(value: Json, keys: seq<Text>, context: Context) returns (turns: seq<Turn>)
    requires value.Obj? && keys == SortedKeys(value.members)
    ensures AreTurns(turns, value.members, keys, context)
  {
    SortedKeysAscend(value.members);
    turns := seq(|keys|, i requires 0 <= i < |keys| =>
      Turn(Piece(value.members, keys, i, context), MemberProblem(keys[i], Get(value.members, keys[i]), context), NoneYet(keys, i, context)));
    forall i | 0 <= i < |keys| ensures IsTurn(turns, value.members, keys, context, i) {}
  }

  ghost function Joined(turns: seq<Turn>, n: nat): Text
    requires n <= |turns|
  {
    if n == 0 then [] else Joined(turns, n - 1) + turns[n - 1].piece
  }

  lemma {:induction false} JoinedMembers(turns: seq<Turn>, members: seq<Member>, keys: seq<Text>, n: nat, context: Context, kept: seq<Text>)
    requires n <= |keys| && kept == Kept(keys[..n], context) && AreTurns(turns, members, keys, context)
    ensures forall i :: 0 <= i < |kept| ==> HasKey(members, kept[i])
    ensures Joined(turns, n) == PrintMembers(CanonicalMembers(members, kept, context))
    ensures NoneYet(keys, n, context) <==> kept == []
  {
    if n > 0 {
      var front := Kept(keys[..n - 1], context);
      JoinedMembers(turns, members, keys, n - 1, context, front);
      assert IsTurn(turns, members, keys, context, n - 1);
      assert keys[..n][..n - 1] == keys[..n - 1];
      if Keeps(keys[n - 1], context) {
        AppendMember(members, front, keys[n - 1], context);
      } else {
        assert kept == front;
      }
    }
  }

  lemma JoinedTree(value: Json, context: Context, keys: seq<Text>, turns: seq<Turn>)
    requires value.Obj? && keys == SortedKeys(value.members) && AreTurns(turns, value.members, keys, context)
    ensures Print(CanonicalTree(value, context)) == [0x7b] + Joined(turns, |keys|) + [0x7d]
  {
    var kept := KeptSorted(value.members, context);
    assert keys[..|keys|] == keys;
    JoinedMembers(turns, value.members, keys, |keys|, context, kept);
    PrintObject(CanonicalMembers(value.members, kept, context));
  }

  /** The only member that can be rejected is the root `instances` of a group request. */
  lemma TurnsDecide(value: Json, context: Context, keys: seq<Text>, turns: seq<Turn>)
    requires value.Obj? && keys == SortedKeys(value.members) && AreTurns(turns, value.members, keys, context)
    ensures forall i :: 0 <= i < |keys| && turns[i].problem.Some? ==> turns[i].problem == EncodeProblem(value, context)
    ensures (forall i :: 0 <= i < |keys| ==> turns[i].problem.None?) ==> EncodeProblem(value, context).None?
  {
    SortedKeysAscend(value.members);
    forall i | 0 <= i < |keys| && turns[i].problem.Some? ensures turns[i].problem == EncodeProblem(value, context) {
      assert IsTurn(turns, value.members, keys, context, i);
    }
    if HasKey(value.members, INSTANCES) {
      assert INSTANCES in keys;
      var i :| 0 <= i < |keys| && keys[i] == INSTANCES;
      assert IsTurn(turns, value.members, keys, context, i);
    }
  }

  lemma JoinedNext(before: Text, turns: seq<Turn>, n: nat)
    requires n < |turns|
    ensures (before + Joined(turns, n)) + turns[n].piece == before + Joined(turns, n + 1)
  {
    Assoc(before, Joined(turns, n), turns[n].piece);
  }

  /** The members of an object in key order, with the root `requestId` left out. */
  method EncodeMembers(value: Json, keys: seq<Text>, output: Buffer, context: Context, ghost turns: seq<Turn>) returns (r: Problem)
    requires value.Obj? && AreTurns(turns, value.members, keys, context)
    modifies output
    ensures r.Some? ==> exists i :: 0 <= i < |keys| && turns[i].problem == r
    ensures r.None? ==> forall i :: 0 <= i < |keys| ==> turns[i].problem.None?
    ensures r.None? ==> output.bytes == old(output.bytes) + Joined(turns, |keys|)
    decreases value, 3
  {
    ghost var before := output.bytes;
    var first := true;
    var index := 0;
    while index < |keys|
      invariant 0 <= index <= |keys|
      invariant output.bytes == before + Joined(turns, index)
      invariant index < |keys| ==> first == (index == 0 || turns[index].first)
      invariant forall i :: 0 <= i < index ==> turns[i].problem.None?
    {
      r, first := EncodeTurn(value, keys, index, output, context, first, turns);
      if r.Some? {
        return;
      }
      JoinedNext(before, turns, index);
      index := index + 1;
    }
    r := None;
  }

  method EncodeTurn(value: Json, keys: seq<Text>, index: nat, output: Buffer, context: Context, first: bool, ghost turns: seq<Turn>)
    returns (r: Problem, still: bool)
    requires value.Obj? && index < |keys| && AreTurns(turns, value.members, keys, context)
    requires first == (index == 0 || turns[index].first)
    modifies output
    ensures r == turns[index].problem
    ensures r.None? ==> output.bytes == old(output.bytes) + turns[index].piece
    ensures index + 1 < |keys| ==> still == turns[index + 1].first
    decreases value, 2
  {
    assert IsTurn(turns, value.members, keys, context, index);
    assert index + 1 < |keys| ==> IsTurn(turns, value.members, keys, context, index + 1);
    r := EncodeKey(value, keys, index, output, context, first);
    still := first && !Keeps(keys[index], context);
  }

  method EncodeKey(value: Json, keys: seq<Text>, index: nat, output: Buffer, context: Context, first: bool)
    returns (r: Problem)
    requires value.Obj? && index < |keys| && HasKey(value.members, keys[index])
    requires first <==> NoneYet(keys, index, context)
    modifies output
    ensures r == MemberProblem(keys[index], Get(value.members, keys[index]), context)
    ensures r.None? ==> output.bytes == old(output.bytes) + Piece(value.members, keys, index, context)
    decreases value, 1
  {
    if !Keeps(keys[index], context) {
      return None;
    }
    var child := value.members[IndexOf(value.members, keys[index])].value;
    r := EncodeMember(keys[index], child, output, context, first);
  }

  lemma ObjectDone(value: Json, context: Context, keys: seq<Text>, turns: seq<Turn>, start: Text)
    requires value.Obj? && keys == SortedKeys(value.members) && AreTurns(turns, value.members, keys, context)
    ensures start + [0x7b] + Joined(turns, |keys|) + [0x7d] == start + Print(CanonicalTree(value, context))
  {
    var written := Joined(turns, |keys|);
    JoinedTree(value, context, keys, turns);
    Regroup(start, [0x7b], written, [0x7d]);
    Regroup([0x7b], written, [0x7d], []);
  }

  lemma AppendMember(members: seq<Member>, kept: seq<Text>, key: Text, context: Context)
    requires HasKey(members, key)
    requires forall i :: 0 <= i < |kept| ==> HasKey(members, kept[i])
    ensures forall i :: 0 <= i < |kept + [key]| ==> HasKey(members, (kept + [key])[i])
    ensures PrintMembers(CanonicalMembers(members, kept + [key], context))
         == PrintMembers(CanonicalMembers(members, kept, context))
          + ((if kept == [] then [] else [COMMA]) + PrintMember(Member(key, Child(key, Get(members, key), context))))
  {
    var done, m := CanonicalMembers(members, kept, context), Member(key, Child(key, Get(members, key), context));
    CanonicalMembersSnoc(members, kept, key, context);
    PrintMembersSnoc(done, m);
    Regroup(PrintMembers(done), if kept == [] then [] else [COMMA], PrintMember(m), []);
  }

  function MemberProblem(key: Text, child: Json, context: Context): Problem {
    if key == INSTANCES && context == Root(true) then InstancesProblem(child) else None
  }

  method EncodeMember(key: Text, child: Json, output: Buffer, context: Context, first: bool) returns (r: Problem)
    modifies output
    ensures r == MemberProblem(key, child, context)
    ensures r.None? ==> (output.bytes == old(output.bytes)
      + ((if first then [] else [COMMA]) + PrintMember(Member(key, Child(key, child, context)))))
    decreases child, 5
  {
    ghost var before := output.bytes;
    ghost var comma := if first then [] else [COMMA];
    if !first {
      output.Extend([COMMA]);
    }
    assert output.bytes == before + comma;
    output.Extend(PrintString(key));
    output.Extend([COLON]);
    if key == INSTANCES && context == Root(true) {
      r := EncodeSortedInstances(child, output);
    } else {
      r := EncodeValue(child, output, Nested);
      NestedTree(child);
    }
    if r.None? {
      ghost var text := Print(Child(key, child, context));
      assert output.bytes == before + comma + PrintString(key) + [COLON] + text;
      Regroup5(before, comma, PrintString(key), [COLON], text);
    }
  }

  lemma Assoc(a: Text, b: Text, c: Text)
    ensures a + b + c == a + (b + c)
  {}

  lemma Regroup5(a: Text, b: Text, c: Text, d: Text, e: Text)
    ensures a + b + c + d + e == a + (b + (c + d + e))
  {}

  /** The root `instances` of a group request: strings, sorted, without duplicates. */
  method EncodeSortedInstances(value: Json, output: Buffer) returns (r: Problem)
    modifies output
    ensures r == InstancesProblem(value)
    ensures r.None? ==>
      output.bytes == old(output.bytes) + Print(Arr(Strings(Sort(TextsOf(value.items)))))
  {
    if !value.Arr? {
      return Some(InstancesNotArray);
    }
    var instances: seq<Text> := [];
    var index := 0;
    while index < |value.items|
      invariant 0 <= index <= |value.items| && |instances| == index
      invariant forall i :: 0 <= i < index ==> value.items[i] == Str(instances[i])
    {
      if !value.items[index].Str? {
        return Some(InstanceNotString);
      }
      instances := instances + [value.items[index].text];
      index := index + 1;
    }
    assert instances == TextsOf(value.items);
    var sorted := Sort(instances);
    var adjacent := HasEqualNeighbours(sorted);
    DuplicatesAreAdjacent(instances);
    DistinctStrings(value.items, instances);
    if adjacent {
      return Some(DuplicateInstance);
    }
    EncodeStrings(sorted, output);
    r := None;
  }

  method EncodeStrings(texts: seq<Text>, output: Buffer)
    modifies output
    ensures output.bytes == old(output.bytes) + Print(Arr(Strings(texts)))
  {
    ghost var before := output.bytes;
    output.Extend([0x5b]);
    var index := 0;
    while index < |texts|
      invariant 0 <= index <= |texts|
      invariant output.bytes == (before + [0x5b]) + PrintItems(Strings(texts[..index]))
    {
      ghost var done := Strings(texts[..index]);
      ghost var comma := if index == 0 then [] else [COMMA];
      if index != 0 {
        output.Extend([COMMA]);
      }
      output.Extend(PrintString(texts[index]));
      Regroup(before + [0x5b], PrintItems(done), comma, PrintString(texts[index]));
      Regroup(PrintItems(done), comma, PrintString(texts[index]), []);
      assert Strings(texts[..index + 1]) == done + [Str(texts[index])];
      PrintItemsSnoc(done, Str(texts[index]));
      index := index + 1;
    }
    assert texts[..|texts|] == texts;
    output.Extend([0x5d]);
    Regroup(before, [0x5b], PrintItems(Strings(texts)), [0x5d]);
    Regroup([0x5b], PrintItems(Strings(texts)), [0x5d], []);
  }

  lemma DistinctStrings(items: seq<Json>, texts: seq<Text>)
    requires |items| == |texts| && forall i :: 0 <= i < |items| ==> items[i] == Str(texts[i])
    ensures Distinct(items) <==> Distinct(texts)
  {
    assert forall i, j :: 0 <= i < j < |items| ==> (items[i] == items[j] <==> texts[i] == texts[j]);
  }

  method HasEqualNeighbours(s: seq<Text>) returns (r: bool)
    ensures r <==> exists i :: 0 <= i < |s| - 1 && s[i] == s[i + 1]
  {
    var i := 0;
    while i < |s| - 1
      invariant 0 <= i
      invariant forall j :: 0 <= j < i && j < |s| - 1 ==> s[j] != s[j + 1]
    {
      if s[i] == s[i + 1] {
        return true;
      }
      i := i + 1;
    }
    r := false;
  }

  /** The bytes behind the request hash: the loops compute exactly the reference encoding. */
  method EncodeRequest(request: Json, sortInstances: bool) returns (r: Encoded)
    ensures r == CanonicalBytes(request, sortInstances)
    ensures r.Ok? <==> Acceptable(request, sortInstances)
    ensures r.Ok? && Valid(request) ==> IsTextOf(r.bytes, request, sortInstances)
  {
    if Valid(request) && Acceptable(request, sortInstances) { BytesReadBack(request, sortInstances); }
    Refusals(request, sortInstances);
    if !request.Obj? {
      return Rejected(NotAnObject);
    }
    var output := new Buffer();
    var problem := EncodeValue(request, output, Root(sortInstances));
    if problem.Some? {
      return Rejected(problem.value);
    }
    assert output.bytes == [] + Print(CanonicalTree(request, Root(sortInstances)));
    r := Ok(output.bytes);
  }
}
