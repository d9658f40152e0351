/** A JSON reader over the bytes themselves, after RFC 8259, and the proof that it reads back what is printed. It
    shares nothing with the printer but the value type. */
module JsonReader {
  import opened Texts
  import opened Json

  datatype Parsed<T> = Got(value: T, rest: Text) | Bad

  // ---- The reader -----------------------------------------------------------------------------------------

  /** Hexadecimal digits of either case. */
  function HexValue(b: Byte): (n: int)
    ensures -1 <= n < 16
  {
    if 0x30 <= b <= 0x39 then b - 0x30
    else if 0x41 <= b <= 0x46 then b - 0x41 + 10
    else if 0x61 <= b <= 0x66 then b - 0x61 + 10
    else -1
  }

  /** The short escapes of section 7 of RFC 8259; -1 for a byte that starts none. */
  function ShortEscape(b: Byte): (c: int)
    ensures -1 <= c < 256
  {
    if b == 0x22 then 0x22
    else if b == 0x5c then 0x5c
    else if b == 0x2f then 0x2f
    else if b == 0x62 then 0x08
    else if b == 0x66 then 0x0c
    else if b == 0x6e then 0x0a
    else if b == 0x72 then 0x0d
    else if b == 0x74 then 0x09
    else -1
  }

  /** One character of a string: an escape, or any byte that section 7 lets stand as it is. The four digits of a
      `u` escape are read for code points below 0x80, which are one byte long. */
  function ReadChar(t: Text): (r: Parsed<Byte>)
    ensures r.Got? ==> |r.rest| < |t|
  {
    if t == [] || t[0] == 0x22 || t[0] < 0x20 then Bad
    else if t[0] != 0x5c then Got(t[0], t[1..])
    else if |t| < 2 then Bad
    else if ShortEscape(t[1]) >= 0 then Got(ShortEscape(t[1]), t[2..])
    else if t[1] != 0x75 || |t| < 6 then Bad
    else if HexValue(t[2]) != 0 || HexValue(t[3]) != 0 then Bad
    else if !(0 <= HexValue(t[4]) < 8) || HexValue(t[5]) < 0 then Bad
    else Got(HexValue(t[4]) * 16 + HexValue(t[5]), t[6..])
  }

  /** The characters up to the closing quote. */
  function ReadChars(t: Text): (r: Parsed<Text>)
    ensures r.Got? ==> |r.rest| < |t|
    decreases |t|
  {
    if t != [] && t[0] == 0x22 then Got([], t[1..])
    else
      var c := ReadChar(t);
      if c.Bad? then Bad
      else
        var more := ReadChars(c.rest);
        if more.Bad? then Bad else Got([c.value] + more.value, more.rest)
  }

  /** Digits, sign, point and exponent. The grammar of section 6 inside a number is not checked. */
  function NumberLength(t: Text): (n: nat)
    ensures n <= |t|
  {
    if t == [] then 0
    else if 0x30 <= t[0] <= 0x39 || t[0] == 0x2b || t[0] == 0x2d || t[0] == 0x2e || t[0] == 0x45 || t[0] == 0x65
    then 1 + NumberLength(t[1..])
    else 0
  }

  predicate StartsWith(t: Text, word: Text) { |t| >= |word| && t[..|word|] == word }

  function ReadScalar(t: Text): (r: Parsed<Json>)
    ensures r.Got? ==> |r.rest| < |t|
  {
    if StartsWith(t, [0x6e, 0x75, 0x6c, 0x6c]) then Got(Null, t[4..])
    else if StartsWith(t, [0x74, 0x72, 0x75, 0x65]) then Got(Bool(true), t[4..])
    else if StartsWith(t, [0x66, 0x61, 0x6c, 0x73, 0x65]) then Got(Bool(false), t[5..])
    else if t != [] && t[0] == 0x22 then
      var s := ReadChars(t[1..]);
      if s.Bad? then Bad else Got(Str(s.value), s.rest)
    else if t != [] && (0x30 <= t[0] <= 0x39 || t[0] == 0x2d) then
      Got(Num(t[..NumberLength(t)]), t[NumberLength(t)..])
    else Bad
  }

  function ReadValue(t: Text): (r: Parsed<Json>)
    ensures r.Got? ==> |r.rest| < |t|
    decreases |t|, 0
  {
    if |t| >= 2 && t[0] == 0x5b && t[1] == 0x5d then Got(Arr([]), t[2..])
    else if |t| >= 1 && t[0] == 0x5b then
      var items := ReadItems(t[1..]);
      if items.Bad? then Bad else Got(Arr(items.value), items.rest)
    else if |t| >= 2 && t[0] == 0x7b && t[1] == 0x7d then Got(Obj([]), t[2..])
    else if |t| >= 1 && t[0] == 0x7b then
      var members := ReadMembers(t[1..]);
      if members.Bad? then Bad else Got(Obj(members.value), members.rest)
    else ReadScalar(t)
  }

  /** One or more values between commas, up to the closing bracket. */
  function ReadItems(t: Text): (r: Parsed<seq<Json>>)
    ensures r.Got? ==> |r.rest| < |t|
    decreases |t|, 1
  {
    var first := ReadValue(t);
    if first.Bad? || first.rest == [] then Bad
    else if first.rest[0] == 0x5d then Got([first.value], first.rest[1..])
    else if first.rest[0] != 0x2c then Bad
    else
      var more := ReadItems(first.rest[1..]);
      if more.Bad? then Bad else Got([first.value] + more.value, more.rest)
  }

  /** A quoted name, a colon and a value. */
  function ReadMember(t: Text): (r: Parsed<Member>)
    ensures r.Got? ==> |r.rest| < |t|
    decreases |t|, 1
  {
    if t == [] || t[0] != 0x22 then Bad
    else
      var name := ReadChars(t[1..]);
      if name.Bad? || name.rest == [] || name.rest[0] != 0x3a then Bad
      else
        var value := ReadValue(name.rest[1..]);
        if value.Bad? then Bad else Got(Member(name.value, value.value), value.rest)
  }

  function ReadMembers(t: Text): (r: Parsed<seq<Member>>)
    ensures r.Got? ==> |r.rest| < |t|
    decreases |t|, 2
  {
    var first := ReadMember(t);
    if first.Bad? || first.rest == [] then Bad
    else if first.rest[0] == 0x7d then Got([first.value], first.rest[1..])
    else if first.rest[0] != 0x2c then Bad
    else
      var more := ReadMembers(first.rest[1..]);
      if more.Bad? then Bad else Got([first.value] + more.value, more.rest)
  }

  // ---- It reads back what is printed ------------------------------------------------------------------------

  /** What may follow a value inside a larger text: nothing, or a comma or closing bracket. */
  predicate Delimited(rest: Text) {
    rest == [] || rest[0] == 0x2c || rest[0] == 0x5d || rest[0] == 0x7d
  }

  lemma DigitReadBack(d: nat)
    requires d < 16
    ensures HexValue(HexDigit(d)) == d
  {}

  lemma LongEscapeReadBack(h: Byte, l: Byte, b: Byte, r: Text)
    requires HexValue(h) == b / 16 && HexValue(l) == b % 16 && b < 0x20
    ensures ReadChar([0x5c, 0x75, 0x30, 0x30, h, l] + r) == Got(b, r)
  {
    var t := [0x5c, 0x75, 0x30, 0x30, h, l] + r;
    assert t[0] == 0x5c && t[1] == 0x75 && t[2] == 0x30 && t[3] == 0x30 && t[4] == h && t[5] == l && t[6..] == r;
  }

  lemma CharReadBack(b: Byte, r: Text)
    ensures ReadChar(Escape(b) + r) == Got(b, r) && (Escape(b) + r)[0] != 0x22
  {
    var t := Escape(b) + r;
    if |Escape(b)| == 6 {
      DigitReadBack(b / 16);
      DigitReadBack(b % 16);
      LongEscapeReadBack(HexDigit(b / 16), HexDigit(b % 16), b, r);
    } else {
      assert t[|Escape(b)|..] == r;
    }
  }

  /** Of the spellings of a character the printer takes the shortest, and lower case digits: none for a character
      that may stand as it is, two bytes where section 7 has a short escape, six otherwise. */
  lemma EscapesAreShortest(b: Byte)
    ensures |Escape(b)| == 1 <==> b >= 0x20 && b != 0x22 && b != 0x5c
    ensures |Escape(b)| == 2 <==> b in {0x22, 0x5c, 0x08, 0x09, 0x0a, 0x0c, 0x0d}
    ensures |Escape(b)| > 2 ==> |Escape(b)| == 6 && forall i :: 2 <= i < 6 ==> !(0x41 <= Escape(b)[i] <= 0x46)
  {}

  lemma {:induction false} CharsReadBack(a: Text, r: Text)
    ensures ReadChars(EscapeAll(a) + ([0x22] + r)) == Got(a, r)
  {
    var close := [0x22] + r;
    if a == [] {
      assert EscapeAll(a) + close == close && close[1..] == r;
    } else {
      Regroup(Escape(a[0]), EscapeAll(a[1..]), close, []);
      CharReadBack(a[0], EscapeAll(a[1..]) + close);
      CharsReadBack(a[1..], r);
      assert a == [a[0]] + a[1..];
    }
  }

  lemma StringText(a: Text, r: Text)
    ensures PrintString(a) + r == [0x22] + (EscapeAll(a) + ([0x22] + r))
  {
    Regroup([QUOTE], EscapeAll(a), [QUOTE], r);
  }

  lemma {:induction false} TokenReadBack(a: Text, r: Text)
    requires (forall i :: 0 <= i < |a| ==> IsNumberByte(a[i])) && Delimited(r)
    ensures NumberLength(a + r) == |a|
  {
    if a == [] {
      assert a + r == r;
    } else {
      assert (a + r)[1..] == a[1..] + r;
      TokenReadBack(a[1..], r);
    }
  }

  lemma Appended(word: Text, r: Text)
    ensures (word + r)[..|word|] == word && (word + r)[|word|..] == r
  {}

  lemma WordReadBack(v: Json, r: Text)
    requires v.Null? || v.Bool?
    ensures ReadValue(Print(v) + r) == Got(v, r)
  {
    Appended(Print(v), r);
    var t := Print(v) + r;
    assert t[0] == Print(v)[0];
  }

  lemma QuotedReadBack(inner: Text, a: Text, r: Text)
    requires ReadChars(inner) == Got(a, r)
    ensures ReadValue([0x22] + inner) == Got(Str(a), r)
  {
    assert ([0x22] + inner)[0] == 0x22 && ([0x22] + inner)[1..] == inner;
  }

  lemma StringReadBack(a: Text, r: Text)
    ensures ReadValue(PrintString(a) + r) == Got(Str(a), r)
  {
    StringText(a, r);
    CharsReadBack(a, r);
    QuotedReadBack(EscapeAll(a) + ([0x22] + r), a, r);
  }

  lemma NumberReadBack(a: Text, r: Text)
    requires IsNumberToken(a) && Delimited(r)
    ensures ReadValue(a + r) == Got(Num(a), r)
  {
    Appended(a, r);
    TokenReadBack(a, r);
    assert (a + r)[0] == a[0];
  }

  lemma ScalarReadBack(v: Json, r: Text)
    requires NumbersPrintable(v) && Delimited(r) && !v.Arr? && !v.Obj?
    ensures ReadValue(Print(v) + r) == Got(v, r)
  {
    match v
    case Str(text) => StringReadBack(text, r);
    case Num(token) => NumberReadBack(token, r);
    case _ => WordReadBack(v, r);
  }

  /** For every value and every delimited rest: reading the printed text gives the value and leaves the rest. */
  lemma {:induction false} ReadsBack(v: Json, r: Text)
    requires NumbersPrintable(v) && Delimited(r)
    ensures ReadValue(Print(v) + r) == Got(v, r)
    decreases v, 2
  {
    match v
    case Arr(items) =>
      Regroup([0x5b], PrintItems(items), [0x5d], r);
      var inner := PrintItems(items) + ([0x5d] + r);
      assert Print(v) + r == [0x5b] + inner && ([0x5b] + inner)[1..] == inner;
      if items == [] {
        assert inner == [0x5d] + r && ([0x5b] + inner)[2..] == r;
      } else {
        ItemStarts(items[0]);
        assert inner[0] == PrintItems(items)[0] == Print(items[0])[0];
        ItemsReadBack(items, r);
      }
    case Obj(members) =>
      Regroup([0x7b], PrintMembers(members), [0x7d], r);
      var inner := PrintMembers(members) + ([0x7d] + r);
      assert Print(v) + r == [0x7b] + inner && ([0x7b] + inner)[1..] == inner;
      if members == [] {
        assert inner == [0x7d] + r && ([0x7b] + inner)[2..] == r;
      } else {
        MembersStart(members);
        assert inner[0] == PrintMembers(members)[0];
        MembersReadBack(members, r);
      }
    case _ => ScalarReadBack(v, r);
  }

  lemma ItemStarts(v: Json)
    requires NumbersPrintable(v)
    ensures Print(v) != [] && Print(v)[0] != 0x5d
  {}

  lemma MembersStart(members: seq<Member>)
    requires members != []
    ensures PrintMembers(members) != [] && PrintMembers(members)[0] == 0x22
  {
    assert PrintString(members[0].key)[0] == 0x22;
    assert PrintMember(members[0]) != [] && PrintMember(members[0])[0] == 0x22;
  }

  lemma MoreItems(items: seq<Json>)
    ensures PrintMoreItems(items) == if items == [] then [] else [0x2c] + PrintItems(items)
  {
    if items != [] { Regroup([COMMA], Print(items[0]), PrintMoreItems(items[1..]), []); }
  }

  lemma LastItem(t: Text, v: Json, r: Text)
    requires ReadValue(t) == Got(v, [0x5d] + r)
    ensures ReadItems(t) == Got([v], r)
  {
    assert ([0x5d] + r)[1..] == r;
  }

  lemma NextItem(t: Text, v: Json, rest: Text, more: seq<Json>, r: Text)
    requires ReadValue(t) == Got(v, [0x2c] + rest) && ReadItems(rest) == Got(more, r)
    ensures ReadItems(t) == Got([v] + more, r)
  {
    assert ([0x2c] + rest)[1..] == rest;
  }

  lemma {:induction false} ItemsReadBack(items: seq<Json>, r: Text)
    requires items != [] && forall i :: 0 <= i < |items| ==> NumbersPrintable(items[i])
    ensures ReadItems(PrintItems(items) + ([0x5d] + r)) == Got(items, r)
    decreases items, 1
  {
    var close, tail := [0x5d] + r, items[1..];
    Regroup(Print(items[0]), PrintMoreItems(tail), close, []);
    MoreItems(tail);
    if tail == [] {
      assert [] + close == close && items == [items[0]];
      ReadsBack(items[0], close);
      LastItem(Print(items[0]) + close, items[0], r);
    } else {
      var rest := PrintItems(tail) + close;
      Regroup([0x2c], PrintItems(tail), close, []);
      ReadsBack(items[0], [0x2c] + rest);
      ItemsReadBack(tail, r);
      NextItem(Print(items[0]) + ([0x2c] + rest), items[0], rest, tail, r);
      assert items == [items[0]] + tail;
    }
  }

  lemma {:induction false} MemberReadBack(m: Member, r: Text)
    requires NumbersPrintable(m.value) && Delimited(r)
    ensures ReadMember(PrintMember(m) + r) == Got(m, r)
    decreases m, 3
  {
    var value := Print(m.value) + r;
    Regroup(PrintString(m.key), [COLON], Print(m.value), r);
    StringText(m.key, [0x3a] + value);
    var t := EscapeAll(m.key) + ([0x22] + ([0x3a] + value));
    assert PrintMember(m) + r == [0x22] + t && ([0x22] + t)[1..] == t;
    CharsReadBack(m.key, [0x3a] + value);
    assert ([0x3a] + value)[1..] == value;
    ReadsBack(m.value, r);
  }

  lemma MoreMembers(members: seq<Member>)
    ensures PrintMoreMembers(members) == if members == [] then [] else [0x2c] + PrintMembers(members)
  {
    if members != [] { Regroup([COMMA], PrintMember(members[0]), PrintMoreMembers(members[1..]), []); }
  }

  lemma LastMember(t: Text, m: Member, r: Text)
    requires ReadMember(t) == Got(m, [0x7d] + r)
    ensures ReadMembers(t) == Got([m], r)
  {
    assert ([0x7d] + r)[1..] == r;
  }

  lemma NextMember(t: Text, m: Member, rest: Text, more: seq<Member>, r: Text)
    requires ReadMember(t) == Got(m, [0x2c] + rest) && ReadMembers(rest) == Got(more, r)
    ensures ReadMembers(t) == Got([m] + more, r)
  {
    assert ([0x2c] + rest)[1..] == rest;
  }

  lemma {:induction false} MembersReadBack(members: seq<Member>, r: Text)
    requires members != [] && forall i :: 0 <= i < |members| ==> NumbersPrintable(members[i].value)
    ensures ReadMembers(PrintMembers(members) + ([0x7d] + r)) == Got(members, r)
    decreases members, 1
  {
    var close, tail := [0x7d] + r, members[1..];
    Regroup(PrintMember(members[0]), PrintMoreMembers(tail), close, []);
    MoreMembers(tail);
    if tail == [] {
      assert [] + close == close && members == [members[0]];
      MemberReadBack(members[0], close);
      LastMember(PrintMember(members[0]) + close, members[0], r);
    } else {
      var rest := PrintMembers(tail) + close;
      Regroup([0x2c], PrintMembers(tail), close, []);
      MemberReadBack(members[0], [0x2c] + rest);
      MembersReadBack(tail, r);
      NextMember(PrintMember(members[0]) + ([0x2c] + rest), members[0], rest, tail, r);
      assert members == [members[0]] + tail;
    }
  }

  /** A text that is one value and nothing else. */
  function ReadText(t: Text): Parsed<Json> {
    var v := ReadValue(t);
    if v.Bad? || v.rest != [] then Bad else v
  }

  lemma TextReadsBack(v: Json)
    requires NumbersPrintable(v)
    ensures ReadText(Print(v)) == Got(v, [])
  {
    ReadsBack(v, []);
    assert Print(v) + [] == Print(v);
  }

  /** So printed text parses in one way only. */
  lemma PrintUnique(x: Json, r: Text, y: Json, s: Text)
    requires NumbersPrintable(x) && NumbersPrintable(y) && Delimited(r) && Delimited(s)
    requires Print(x) + r == Print(y) + s
    ensures x == y && r == s
  {
    ReadsBack(x, r);
    ReadsBack(y, s);
  }
}
