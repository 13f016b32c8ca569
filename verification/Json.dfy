/**
 JSON documents (RFC 8259): `JSON.stringify` as a printer and `JSON.parse` as a
 reader, over UTF-16 code units. A number is kept as the text it is written by.
 */
module Json {
  import opened Wrappers
  import opened JsonString

  datatype Member = Member(key: Text, value: Json)

  datatype Json =
    | Null
    | Bool(value: bool)
    | Num(literal: Text)
    | Str(text: Text)
    | Arr(items: seq<Json>)
    | Obj(members: seq<Member>)

  const COMMA: Unit := 0x2C
  const COLON: Unit := 0x3A
  const OPEN_BRACKET: Unit := 0x5B
  const CLOSE_BRACKET: Unit := 0x5D
  const OPEN_BRACE: Unit := 0x7B
  const CLOSE_BRACE: Unit := 0x7D

  const NULL_TEXT: Text := [0x6E, 0x75, 0x6C, 0x6C]
  const TRUE_TEXT: Text := [0x74, 0x72, 0x75, 0x65]
  const FALSE_TEXT: Text := [0x66, 0x61, 0x6C, 0x73, 0x65]

  // ----------------------------------------------------------------- numbers

  predicate IsDigit(u: Unit) { 0x30 <= u <= 0x39 }

  /** The characters a number is written with: digits, signs, point, exponent. */
  predicate IsNumberUnit(u: Unit) {
    IsDigit(u) || u == 0x2B || u == 0x2D || u == 0x2E || u == 0x45 || u == 0x65
  }

  function DigitRun(t: Text): (n: nat)
    ensures n <= |t|
  {
    if t == [] || !IsDigit(t[0]) then 0 else 1 + DigitRun(t[1..])
  }

  function NumberRun(t: Text): (n: nat)
    ensures n <= |t|
  {
    if t == [] || !IsNumberUnit(t[0]) then 0 else 1 + NumberRun(t[1..])
  }

  predicate IsExponent(t: Text) {
    t == [] ||
    ((t[0] == 0x45 || t[0] == 0x65) &&
     var d := if |t| > 1 && (t[1] == 0x2B || t[1] == 0x2D) then t[2..] else t[1..];
     d != [] && DigitRun(d) == |d|)
  }

  predicate IsFraction(t: Text) {
    if t != [] && t[0] == 0x2E then
      var n := DigitRun(t[1..]);
      n > 0 && IsExponent(t[1 + n..])
    else IsExponent(t)
  }

  predicate IsUnsigned(t: Text) {
    var n := DigitRun(t);
    n > 0 && (t[0] == 0x30 ==> n == 1) && IsFraction(t[n..])
  }

  /** The number grammar of section 6 of RFC 8259. */
  predicate IsNumber(t: Text) {
    && (forall i :: 0 <= i < |t| ==> IsNumberUnit(t[i]))
    && t != []
    && (if t[0] == 0x2D then IsUnsigned(t[1..]) else IsUnsigned(t))
  }

  /** How JavaScript writes a whole number of this size. */
  function Decimal(n: nat): Text {
    if n < 10 then [0x30 + n] else Decimal(n / 10) + [0x30 + n % 10]
  }

  // ----------------------------------------------------------------- printing

  function Print(v: Json): Text {
    match v
    case Null => NULL_TEXT
    case Bool(b) => if b then TRUE_TEXT else FALSE_TEXT
    case Num(literal) => literal
    case Str(text) => JsQuote(text)
    case Arr(items) =>
      if items == [] then [OPEN_BRACKET, CLOSE_BRACKET]
      else [OPEN_BRACKET] + (Print(items[0]) + PrintItems(items[1..]))
    case Obj(members) =>
      if members == [] then [OPEN_BRACE, CLOSE_BRACE]
      else [OPEN_BRACE] + (JsQuote(members[0].key) + ([COLON] + (Print(members[0].value) + PrintMembers(members[1..]))))
  }

  /** The items after the first one, and the closing bracket. */
  function PrintItems(items: seq<Json>): Text {
    if items == [] then [CLOSE_BRACKET]
    else [COMMA] + (Print(items[0]) + PrintItems(items[1..]))
  }

  function PrintMembers(members: seq<Member>): Text {
    if members == [] then [CLOSE_BRACE]
    else [COMMA] + (JsQuote(members[0].key) + ([COLON] + (Print(members[0].value) + PrintMembers(members[1..]))))
  }

  // ----------------------------------------------------------------- reading

  predicate IsSpace(u: Unit) { u == 0x20 || u == 0x09 || u == 0x0A || u == 0x0D }

  function Skip(t: Text): (r: Text)
    ensures |r| <= |t|
    ensures r != [] ==> !IsSpace(r[0])
  {
    if t != [] && IsSpace(t[0]) then Skip(t[1..]) else t
  }

  function ReadNumber(t: Text): (r: Option<(Json, Text)>)
    ensures r.Some? ==> |r.value.1| < |t|
  {
    var n := NumberRun(t);
    if IsNumber(t[..n]) then Some((Num(t[..n]), t[n..])) else None
  }

  /** A value without parts, or None. */
  function ReadScalar(t: Text): (r: Option<(Json, Text)>)
    ensures r.Some? ==> |r.value.1| < |t|
  {
    if t != [] && t[0] == QUOTE then
      var body := ReadBody(t[1..]);
      if body.None? then None else Some((Str(body.value.0), body.value.1))
    else if NULL_TEXT <= t then Some((Null, t[4..]))
    else if TRUE_TEXT <= t then Some((Bool(true), t[4..]))
    else if FALSE_TEXT <= t then Some((Bool(false), t[5..]))
    else ReadNumber(t)
  }

  /** A value at the start of the text (leading space allowed), and what follows it. */
  function ReadValue(text: Text): (r: Option<(Json, Text)>)
    ensures r.Some? ==> |r.value.1| < |text|
    decreases |text|, 1
  {
    var t := Skip(text);
    if t == [] then None
    else if t[0] == OPEN_BRACKET then
      var u := Skip(t[1..]);
      if u != [] && u[0] == CLOSE_BRACKET then Some((Arr([]), u[1..]))
      else
        var first := ReadValue(t[1..]);
        if first.None? then None
        else
          var more := ReadItems(first.value.1);
          if more.None? then None else Some((Arr([first.value.0] + more.value.0), more.value.1))
    else if t[0] == OPEN_BRACE then
      var u := Skip(t[1..]);
      if u != [] && u[0] == CLOSE_BRACE then Some((Obj([]), u[1..]))
      else
        var first := ReadMember(t[1..]);
        if first.None? then None
        else
          var more := ReadMembers(first.value.1);
          if more.None? then None else Some((Obj([first.value.0] + more.value.0), more.value.1))
    else ReadScalar(t)
  }

  function ReadItems(text: Text): (r: Option<(seq<Json>, Text)>)
    ensures r.Some? ==> |r.value.1| < |text|
    decreases |text|, 0
  {
    var t := Skip(text);
    if t == [] then None
    else if t[0] == CLOSE_BRACKET then Some(([], t[1..]))
    else if t[0] != COMMA then None
    else
      var first := ReadValue(t[1..]);
      if first.None? then None
      else
        var more := ReadItems(first.value.1);
        if more.None? then None else Some(([first.value.0] + more.value.0, more.value.1))
  }

  function ReadMember(text: Text): (r: Option<(Member, Text)>)
    ensures r.Some? ==> |r.value.1| < |text|
    decreases |text|, 0
  {
    var t := Skip(text);
    if t == [] || t[0] != QUOTE then None
    else
      var key := ReadBody(t[1..]);
      if key.None? then None
      else
        var u := Skip(key.value.1);
        if u == [] || u[0] != COLON then None
        else
          var value := ReadValue(u[1..]);
          if value.None? then None else Some((Member(key.value.0, value.value.0), value.value.1))
  }

  function ReadMembers(text: Text): (r: Option<(seq<Member>, Text)>)
    ensures r.Some? ==> |r.value.1| < |text|
    decreases |text|, 0
  {
    var t := Skip(text);
    if t == [] then None
    else if t[0] == CLOSE_BRACE then Some(([], t[1..]))
    else if t[0] != COMMA then None
    else
      var first := ReadMember(t[1..]);
      if first.None? then None
      else
        var more := ReadMembers(first.value.1);
        if more.None? then None else Some(([first.value.0] + more.value.0, more.value.1))
  }

  /** `JSON.parse`: one value and nothing but space after it. */
  function Parse(text: Text): Option<Json> {
    var r := ReadValue(text);
    if r.None? || Skip(r.value.1) != [] then None else Some(r.value.0)
  }

  // --------------------------------------------------------------- round trip

  /** Every number in the value is written as a JSON number. */
  predicate Printable(v: Json) {
    match v
    case Num(literal) => IsNumber(literal)
    case Arr(items) => forall i :: 0 <= i < |items| ==> Printable(items[i])
    case Obj(members) => forall i :: 0 <= i < |members| ==> Printable(members[i].value)
    case _ => true
  }

  /** What may follow a printed value: nothing that would lengthen a number. */
  predicate Ends(rest: Text) { rest == [] || !IsNumberUnit(rest[0]) }

  lemma {:induction false} NumberRunEnds(literal: Text, rest: Text)
    requires Ends(rest)
    requires forall i :: 0 <= i < |literal| ==> IsNumberUnit(literal[i])
    ensures NumberRun(literal + rest) == |literal|
  {
    if literal == [] {
      assert literal + rest == rest;
    } else {
      assert (literal + rest)[1..] == literal[1..] + rest;
      NumberRunEnds(literal[1..], rest);
    }
  }

  lemma NumberIsRead(literal: Text, rest: Text)
    requires IsNumber(literal) && Ends(rest)
    ensures ReadScalar(literal + rest) == Some((Num(literal), rest))
    ensures ReadValue(literal + rest) == ReadScalar(literal + rest)
  {
    var t := literal + rest;
    NumberRunEnds(literal, rest);
    assert IsNumberUnit(t[0]);
    assert t[..|literal|] == literal && t[|literal|..] == rest;
  }

  lemma StringIsRead(text: Text, rest: Text)
    ensures ReadScalar(JsQuote(text) + rest) == Some((Str(text), rest))
    ensures ReadValue(JsQuote(text) + rest) == ReadScalar(JsQuote(text) + rest)
  {
    JsRoundTrip(text, rest);
    assert (JsQuote(text) + rest)[0] == QUOTE;
  }

  lemma WordIsRead(v: Json, rest: Text)
    requires v.Null? || v.Bool?
    ensures ReadScalar(Print(v) + rest) == Some((v, rest))
    ensures ReadValue(Print(v) + rest) == ReadScalar(Print(v) + rest)
  {
    var t := Print(v) + rest;
    assert t[..|Print(v)|] == Print(v) && t[|Print(v)|..] == rest;
    assert t[0] == Print(v)[0];
  }

  /** A printed value does not begin with space or a closing bracket. */
  lemma PrintBegins(v: Json)
    requires Printable(v)
    ensures Print(v) != []
    ensures !IsSpace(Print(v)[0]) && Print(v)[0] != CLOSE_BRACKET
  {
  }

  lemma Regroup(a: Text, b: Text, c: Text)
    ensures (a + b) + c == a + (b + c)
  {
  }

  lemma Cons(u: Unit, t: Text)
    ensures ([u] + t)[0] == u && ([u] + t)[1..] == t
  {
  }

  lemma KeyIsRead(key: Text, after: Text)
    ensures var t := JsQuote(key) + after;
            && t != [] && t[0] == QUOTE && Skip(t) == t && ReadBody(t[1..]) == Some((key, after))
  {
    JsRoundTrip(key, after);
  }

  lemma MemberIsRead(key: Text, v: Json, rest: Text)
    requires ReadValue(Print(v) + rest) == Some((v, rest))
    ensures ReadMember(JsQuote(key) + ([COLON] + (Print(v) + rest))) == Some((Member(key, v), rest))
  {
    var tail := [COLON] + (Print(v) + rest);
    KeyIsRead(key, tail);
    Cons(COLON, Print(v) + rest);
    assert Skip(tail) == tail;
  }

  lemma NextItemIsRead(items: seq<Json>, inner: Text, rest: Text)
    requires items != [] && ReadValue(inner).Some? && ReadValue(inner).value.0 == items[0]
    requires ReadItems(ReadValue(inner).value.1) == Some((items[1..], rest))
    ensures ReadItems([COMMA] + inner) == Some((items, rest))
  {
    Cons(COMMA, inner);
    assert [items[0]] + items[1..] == items;
  }

  lemma {:induction false} ItemsAreRead(items: seq<Json>, rest: Text)
    requires forall i :: 0 <= i < |items| ==> Printable(items[i])
    ensures ReadItems(PrintItems(items) + rest) == Some((items, rest))
    decreases items, 0
  {
    if items == [] {
      Cons(CLOSE_BRACKET, rest);
    } else {
      var tail := PrintItems(items[1..]) + rest;
      ItemsAreRead(items[1..], rest);
      PrintItemsBegins(items[1..], rest);
      ValueIsRead(items[0], tail);
      Regroup([COMMA], Print(items[0]) + PrintItems(items[1..]), rest);
      Regroup(Print(items[0]), PrintItems(items[1..]), rest);
      NextItemIsRead(items, Print(items[0]) + tail, rest);
    }
  }

  lemma PrintItemsBegins(items: seq<Json>, rest: Text)
    ensures Ends(PrintItems(items) + rest)
  {
  }

  lemma PrintMembersBegins(members: seq<Member>, rest: Text)
    ensures Ends(PrintMembers(members) + rest)
  {
  }

  /** A member list as printed, read by the member reader and its follower. */
  lemma RegroupMember(key: Text, v: Json, more: Text, rest: Text)
    ensures (JsQuote(key) + ([COLON] + (Print(v) + more))) + rest
        == JsQuote(key) + ([COLON] + (Print(v) + (more + rest)))
  {
    Regroup(JsQuote(key), [COLON] + (Print(v) + more), rest);
    Regroup([COLON], Print(v) + more, rest);
    Regroup(Print(v), more, rest);
  }

  lemma NextMemberIsRead(members: seq<Member>, inner: Text, rest: Text)
    requires members != [] && ReadMember(inner).Some? && ReadMember(inner).value.0 == members[0]
    requires ReadMembers(ReadMember(inner).value.1) == Some((members[1..], rest))
    ensures ReadMembers([COMMA] + inner) == Some((members, rest))
  {
    Cons(COMMA, inner);
    assert [members[0]] + members[1..] == members;
  }

  lemma {:induction false} MembersAreRead(members: seq<Member>, rest: Text)
    requires forall i :: 0 <= i < |members| ==> Printable(members[i].value)
    ensures ReadMembers(PrintMembers(members) + rest) == Some((members, rest))
    decreases members, 0
  {
    if members == [] {
      Cons(CLOSE_BRACE, rest);
    } else {
      var more := PrintMembers(members[1..]);
      var Member(key, v) := members[0];
      MembersAreRead(members[1..], rest);
      PrintMembersBegins(members[1..], rest);
      ValueIsRead(v, more + rest);
      MemberIsRead(key, v, more + rest);
      RegroupMember(key, v, more, rest);
      Regroup([COMMA], JsQuote(key) + ([COLON] + (Print(v) + more)), rest);
      NextMemberIsRead(members, JsQuote(key) + ([COLON] + (Print(v) + (more + rest))), rest);
    }
  }

  lemma ArrayIsRead(items: seq<Json>, rest: Text)
    requires items != [] && Printable(items[0])
    requires ReadValue(Print(items[0]) + (PrintItems(items[1..]) + rest))
        == Some((items[0], PrintItems(items[1..]) + rest))
    requires ReadItems(PrintItems(items[1..]) + rest) == Some((items[1..], rest))
    ensures ReadValue(Print(Arr(items)) + rest) == Some((Arr(items), rest))
  {
    var first, more := Print(items[0]), PrintItems(items[1..]);
    Regroup([OPEN_BRACKET], first + more, rest);
    Regroup(first, more, rest);
    Cons(OPEN_BRACKET, first + (more + rest));
    PrintBegins(items[0]);
    assert (first + (more + rest))[0] == first[0];
    assert [items[0]] + items[1..] == items;
  }

  lemma ObjectPrints(members: seq<Member>, rest: Text)
    requires members != []
    ensures Print(Obj(members)) + rest
         == [OPEN_BRACE] + (JsQuote(members[0].key)
           + ([COLON] + (Print(members[0].value) + (PrintMembers(members[1..]) + rest))))
  {
    var Member(key, v) := members[0];
    var more := PrintMembers(members[1..]);
    RegroupMember(key, v, more, rest);
    Regroup([OPEN_BRACE], JsQuote(key) + ([COLON] + (Print(v) + more)), rest);
  }

  lemma ObjectIsRead(members: seq<Member>, inner: Text, rest: Text)
    requires members != [] && inner != [] && inner[0] == QUOTE
    requires ReadMember(inner).Some? && ReadMember(inner).value.0 == members[0]
    requires ReadMembers(ReadMember(inner).value.1) == Some((members[1..], rest))
    ensures ReadValue([OPEN_BRACE] + inner) == Some((Obj(members), rest))
  {
    Cons(OPEN_BRACE, inner);
    assert [members[0]] + members[1..] == members;
  }

  lemma EmptyIsRead(v: Json, rest: Text)
    requires v == Arr([]) || v == Obj([])
    ensures ReadValue(Print(v) + rest) == Some((v, rest))
  {
    var t := Print(v) + rest;
    assert t[1..] == [Print(v)[1]] + rest;
    Cons(Print(v)[1], rest);
  }

  /** What is printed is read back as the same value, and what follows it is
      left as it was. */
  lemma {:induction false} ValueIsRead(v: Json, rest: Text)
    requires Printable(v) && Ends(rest)
    ensures ReadValue(Print(v) + rest) == Some((v, rest))
    decreases v, 1
  {
    match v
    case Null => WordIsRead(v, rest);
    case Bool(_) => WordIsRead(v, rest);
    case Num(literal) => NumberIsRead(literal, rest);
    case Str(text) => StringIsRead(text, rest);
    case Arr(items) =>
      if items == [] {
        EmptyIsRead(v, rest);
      } else {
        PrintItemsBegins(items[1..], rest);
        ValueIsRead(items[0], PrintItems(items[1..]) + rest);
        ItemsAreRead(items[1..], rest);
        ArrayIsRead(items, rest);
      }
    case Obj(members) =>
      if members == [] {
        EmptyIsRead(v, rest);
      } else {
        var more := PrintMembers(members[1..]) + rest;
        PrintMembersBegins(members[1..], rest);
        ValueIsRead(members[0].value, more);
        MemberIsRead(members[0].key, members[0].value, more);
        MembersAreRead(members[1..], rest);
        ObjectPrints(members, rest);
        ObjectIsRead(members, JsQuote(members[0].key) + ([COLON] + (Print(members[0].value) + more)), rest);
      }
  }

  /** `JSON.parse` undoes `JSON.stringify`. */
  lemma ParsePrint(v: Json)
    requires Printable(v)
    ensures Parse(Print(v)) == Some(v)
  {
    ValueIsRead(v, []);
    assert Print(v) + [] == Print(v);
  }

  /** Two values printed alike are the same value. */
  lemma PrintIsInjective(a: Json, b: Json)
    requires Printable(a) && Printable(b) && Print(a) == Print(b)
    ensures a == b
  {
    ParsePrint(a);
    ParsePrint(b);
  }
}
