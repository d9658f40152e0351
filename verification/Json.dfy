/** JSON values as the canonical encoder receives them, and the text it prints for them. */
module Json {
  import opened Texts

  /** Object members keep the order they arrived in; `Valid` says their keys are distinct.
      A number is the token that its `to_string` yields. */
  datatype Json =
    | Null
    | Bool(flag: bool)
    | Num(token: Text)
    | Str(text: Text)
    | Arr(items: seq<Json>)
    | Obj(members: seq<Member>)

  datatype Member = Member(key: Text, value: Json)

  const COMMA: Byte := 0x2c
  const COLON: Byte := 0x3a
  const QUOTE: Byte := 0x22
  const BACKSLASH: Byte := 0x5c
  const NULL_TEXT: Text := [0x6e, 0x75, 0x6c, 0x6c]
  const TRUE_TEXT: Text := [0x74, 0x72, 0x75, 0x65]
  const FALSE_TEXT: Text := [0x66, 0x61, 0x6c, 0x73, 0x65]

  predicate IsDigit(b: Byte) { 0x30 <= b <= 0x39 }

  /** Digits, sign, point and exponent: what a printed JSON number is made of. */
  predicate IsNumberByte(b: Byte) {
    IsDigit(b) || b == 0x2b || b == 0x2d || b == 0x2e || b == 0x45 || b == 0x65
  }

  predicate IsNumberToken(t: Text) {
    t != [] && (IsDigit(t[0]) || t[0] == 0x2d) && forall i :: 0 <= i < |t| ==> IsNumberByte(t[i])
  }

  /** What the parsed value type guarantees: number tokens, and no key twice in one object. */
  predicate Valid(v: Json) {
    match v
    case Num(token) => IsNumberToken(token)
    case Arr(items) => forall i :: 0 <= i < |items| ==> Valid(items[i])
    case Obj(members) =>
      Distinct(KeyList(members)) && forall i :: 0 <= i < |members| ==> Valid(members[i].value)
    case _ => true
  }

  function KeyList(members: seq<Member>): (r: seq<Text>)
    ensures |r| == |members| && forall i :: 0 <= i < |r| ==> r[i] == members[i].key
  {
    seq(|members|, i requires 0 <= i < |members| => members[i].key)
  }

  predicate HasKey(members: seq<Member>, key: Text) {
    exists i :: 0 <= i < |members| && members[i].key == key
  }

  function IndexOf(members: seq<Member>, key: Text): (i: nat)
    requires HasKey(members, key)
    ensures i < |members| && members[i].key == key
  {
    if members[0].key == key then 0 else 1 + IndexOf(members[1..], key)
  }

  function Get(members: seq<Member>, key: Text): Json
    requires HasKey(members, key)
  {
    members[IndexOf(members, key)].value
  }

  // ---- Printing ------------------------------------------------------------------------------

  function HexDigit(n: int): Byte
    requires 0 <= n < 16
  {
    if n < 10 then 0x30 + n else 0x61 + n - 10
  }

  /** String escaping of section 7 of RFC 8259, with the short forms where they exist. */
  function Escape(b: Byte): Text {
    if b == QUOTE then [BACKSLASH, QUOTE]
    else if b == BACKSLASH then [BACKSLASH, BACKSLASH]
    else if b == 0x08 then [BACKSLASH, 0x62]
    else if b == 0x09 then [BACKSLASH, 0x74]
    else if b == 0x0a then [BACKSLASH, 0x6e]
    else if b == 0x0c then [BACKSLASH, 0x66]
    else if b == 0x0d then [BACKSLASH, 0x72]
    else if b < 0x20 then [BACKSLASH, 0x75, 0x30, 0x30, HexDigit(b / 16), HexDigit(b % 16)]
    else [b]
  }

  function EscapeAll(t: Text): Text {
    if t == [] then [] else Escape(t[0]) + EscapeAll(t[1..])
  }

  function PrintString(t: Text): Text {
    [QUOTE] + EscapeAll(t) + [QUOTE]
  }

  function Print(v: Json): Text
    decreases v, 2
  {
    match v
    case Null => NULL_TEXT
    case Bool(flag) => if flag then TRUE_TEXT else FALSE_TEXT
    case Num(token) => token
    case Str(text) => PrintString(text)
    case Arr(items) => [0x5b] + PrintItems(items) + [0x5d]
    case Obj(members) => [0x7b] + PrintMembers(members) + [0x7d]
  }

  function PrintItems(items: seq<Json>): Text
    decreases items, 1
  {
    if items == [] then [] else Print(items[0]) + PrintMoreItems(items[1..])
  }

  function PrintMoreItems(items: seq<Json>): Text
    decreases items, 0
  {
    if items == [] then [] else [COMMA] + Print(items[0]) + PrintMoreItems(items[1..])
  }

  function PrintMember(m: Member): Text
    decreases m, 3
  {
    PrintString(m.key) + [COLON] + Print(m.value)
  }

  function PrintMembers(members: seq<Member>): Text
    decreases members, 1
  {
    if members == [] then [] else PrintMember(members[0]) + PrintMoreMembers(members[1..])
  }

  function PrintMoreMembers(members: seq<Member>): Text
    decreases members, 0
  {
    if members == [] then [] else [COMMA] + PrintMember(members[0]) + PrintMoreMembers(members[1..])
  }

  predicate NumbersPrintable(v: Json) {
    match v
    case Num(token) => IsNumberToken(token)
    case Arr(items) => forall i :: 0 <= i < |items| ==> NumbersPrintable(items[i])
    case Obj(members) => forall i :: 0 <= i < |members| ==> NumbersPrintable(members[i].value)
    case _ => true
  }

  lemma Regroup(a: Text, b: Text, c: Text, d: Text)
    ensures a + b + c + d == a + (b + (c + d))
    ensures (a + b) + c == a + (b + c)
  {}
}
