/**
 JSON string literals (section 7 of RFC 8259) over UTF-16 code units: one reader
 and the two writers of the repository, JavaScript's `JSON.stringify` and
 Python's `json.dumps`.
 */
module JsonString {
  import opened Wrappers

  /** A UTF-16 code unit. ECMAScript strings are sequences of these. */
  type Unit = u: int | 0 <= u < 0x1_0000
  type Text = seq<Unit>

  const QUOTE: Unit := 0x22
  const BACKSLASH: Unit := 0x5C
  const LETTER_U: Unit := 0x75

  /** The unit of a character of the basic plane; only those are used. */
  function Code(c: char): Unit {
    if c as int < 0x1_0000 then c as int else 0xFFFD
  }

  function Ascii(s: string): Text {
    seq<Unit>(|s|, i requires 0 <= i < |s| => Code(s[i]))
  }

  // ----------------------------------------------------------------- reading

  function HexValue(u: Unit): (r: Option<int>)
    ensures r.Some? ==> 0 <= r.value < 16
  {
    if 0x30 <= u <= 0x39 then Some(u - 0x30)
    else if 0x61 <= u <= 0x66 then Some(u - 0x61 + 10)
    else if 0x41 <= u <= 0x46 then Some(u - 0x41 + 10)
    else None
  }

  /** The character a two-character escape stands for. */
  function ShortEscape(u: Unit): Option<Unit> {
    if u == QUOTE || u == BACKSLASH || u == 0x2F then Some(u)
    else if u == 0x62 then Some(0x08)
    else if u == 0x66 then Some(0x0C)
    else if u == 0x6E then Some(0x0A)
    else if u == 0x72 then Some(0x0D)
    else if u == 0x74 then Some(0x09)
    else None
  }

  /** One character of a string body: its code unit and how long it is written. */
  function ReadItem(t: Text): (r: Option<(Unit, nat)>)
    ensures r.Some? ==> 1 <= r.value.1 <= |t|
  {
    if t == [] || t[0] == QUOTE || t[0] < 0x20 then None
    else if t[0] != BACKSLASH then Some((t[0], 1))
    else if |t| < 2 then None
    else if t[1] != LETTER_U then
      var e := ShortEscape(t[1]);
      if e.None? then None else Some((e.value, 2))
    else if |t| < 6 then None
    else
      var a, b, c, d := HexValue(t[2]), HexValue(t[3]), HexValue(t[4]), HexValue(t[5]);
      if a.None? || b.None? || c.None? || d.None? then None
      else Some((((a.value * 16 + b.value) * 16 + c.value) * 16 + d.value, 6))
  }

  /** Reads a string body up to its closing quote; gives the string and what
      follows the quote. */
  function ReadBody(t: Text): (r: Option<(Text, Text)>)
    ensures r.Some? ==> |r.value.1| < |t|
    decreases |t|
  {
    if t == [] then None
    else if t[0] == QUOTE then Some(([], t[1..]))
    else
      var item := ReadItem(t);
      if item.None? then None
      else
        var more := ReadBody(t[item.value.1..]);
        if more.None? then None else Some(([item.value.0] + more.value.0, more.value.1))
  }

  // ----------------------------------------------------------------- writing

  function HexDigit(v: int): Unit
    requires 0 <= v < 16
  {
    if v < 10 then 0x30 + v else 0x61 + v - 10
  }

  function HexEscape(u: Unit): Text {
    [BACKSLASH, LETTER_U, HexDigit(u / 4096), HexDigit(u / 256 % 16), HexDigit(u / 16 % 16), HexDigit(u % 16)]
  }

  function ShortLetter(u: Unit): (r: Option<Unit>)
    ensures r.Some? ==> r.value != LETTER_U && ShortEscape(r.value) == Some(u)
  {
    if u == QUOTE || u == BACKSLASH then Some(u)
    else if u == 0x08 then Some(0x62)
    else if u == 0x09 then Some(0x74)
    else if u == 0x0A then Some(0x6E)
    else if u == 0x0C then Some(0x66)
    else if u == 0x0D then Some(0x72)
    else None
  }

  /** One of the ways of writing one code unit (section 7 of RFC 8259): itself, a
      backslash and a letter or mark, or four hexadecimal digits of either case. */
  predicate Spells(piece: Text, u: Unit) {
    || (piece == [u] && u >= 0x20 && u != QUOTE && u != BACKSLASH)
    || (|piece| == 2 && piece[0] == BACKSLASH && piece[1] != LETTER_U && ShortEscape(piece[1]) == Some(u))
    || (|piece| == 6 && piece[0] == BACKSLASH && piece[1] == LETTER_U && HexSpells(piece[2..], u))
  }

  predicate HexSpells(digits: Text, u: Unit)
    requires |digits| == 4
  {
    var a, b, c, d := HexValue(digits[0]), HexValue(digits[1]), HexValue(digits[2]), HexValue(digits[3]);
    && a.Some? && b.Some? && c.Some? && d.Some?
    && ((a.value * 16 + b.value) * 16 + c.value) * 16 + d.value == u
  }

  /** The pieces, one for each code unit, run together. */
  function Join(pieces: seq<Text>): Text {
    if pieces == [] then [] else pieces[0] + Join(pieces[1..])
  }

  ghost predicate SpellsAll(pieces: seq<Text>, s: Text) {
    |pieces| == |s| && forall i :: 0 <= i < |s| ==> Spells(pieces[i], s[i])
  }

  lemma HexRoundTrip(u: Unit)
    ensures Spells(HexEscape(u), u)
  {
    var a, b, c, d := u / 4096, u / 256 % 16, u / 16 % 16, u % 16;
    HexDigitRead(a);
    HexDigitRead(b);
    HexDigitRead(c);
    HexDigitRead(d);
    assert u / 4096 == u / 16 / 16 / 16 && u / 256 == u / 16 / 16;
    assert u == ((a * 16 + b) * 16 + c) * 16 + d;
    assert HexEscape(u)[2..] == [HexDigit(a), HexDigit(b), HexDigit(c), HexDigit(d)];
  }

  lemma HexDigitRead(v: int)
    requires 0 <= v < 16
    ensures HexValue(HexDigit(v)) == Some(v)
  {
  }

  /** A piece is read back as its unit, whatever follows. */
  lemma PieceIsRead(piece: Text, u: Unit, rest: Text)
    requires Spells(piece, u)
    ensures piece != [] && piece[0] != QUOTE && piece[0] >= 0x20
    ensures ReadItem(piece + rest) == Some((u, |piece|))
  {
    var t := piece + rest;
    assert forall i :: 0 <= i < |piece| ==> t[i] == piece[i];
    if |piece| == 6 {
      assert piece[2..][0] == t[2] && piece[2..][1] == t[3] && piece[2..][2] == t[4] && piece[2..][3] == t[5];
    }
  }

  lemma FirstAndRest(pieces: seq<Text>, s: Text)
    requires SpellsAll(pieces, s) && s != []
    ensures pieces != [] && Spells(pieces[0], s[0]) && SpellsAll(pieces[1..], s[1..])
  {
  }

  /** One item, and then the rest of the body. */
  lemma ItemThenBody(t: Text, u: Unit, n: nat, s: Text, rest: Text)
    requires t != [] && t[0] != QUOTE && ReadItem(t) == Some((u, n)) && n <= |t|
    requires ReadBody(t[n..]) == Some((s, rest))
    ensures ReadBody(t) == Some(([u] + s, rest))
  {
  }

  lemma BodySplits(pieces: seq<Text>, rest: Text)
    requires pieces != []
    ensures var tail := Join(pieces[1..]) + [QUOTE] + rest;
            && Join(pieces) + [QUOTE] + rest == pieces[0] + tail
            && (pieces[0] + tail)[|pieces[0]|..] == tail
  {
  }

  /** However each unit is spelled, reading the body up to the closing quote
      gives the string back and leaves what follows the quote untouched. */
  lemma {:induction false} BodyIsRead(pieces: seq<Text>, s: Text, rest: Text)
    requires SpellsAll(pieces, s)
    ensures ReadBody(Join(pieces) + [QUOTE] + rest) == Some((s, rest))
  {
    if s == [] {
      assert Join(pieces) + [QUOTE] + rest == [QUOTE] + rest;
      assert ([QUOTE] + rest)[1..] == rest;
    } else {
      FirstAndRest(pieces, s);
      var tail := Join(pieces[1..]) + [QUOTE] + rest;
      BodySplits(pieces, rest);
      PieceIsRead(pieces[0], s[0], tail);
      BodyIsRead(pieces[1..], s[1..], rest);
      ItemThenBody(pieces[0] + tail, s[0], |pieces[0]|, s[1..], rest);
      assert s == [s[0]] + s[1..];
    }
  }

  // ---------------------------------------------------- JSON.stringify, quoted

  predicate IsHigh(u: int) { 0xD800 <= u <= 0xDBFF }
  predicate IsLow(u: int) { 0xDC00 <= u <= 0xDFFF }

  /** A surrogate that is not half of a pair. */
  predicate IsLone(s: Text, i: nat)
    requires i < |s|
  {
    || (IsHigh(s[i]) && !(i + 1 < |s| && IsLow(s[i + 1])))
    || (IsLow(s[i]) && !(0 < i && IsHigh(s[i - 1])))
  }

  function JsPiece(s: Text, i: nat): Text
    requires i < |s|
  {
    if ShortLetter(s[i]).Some? then [BACKSLASH, ShortLetter(s[i]).value]
    else if s[i] < 0x20 || IsLone(s, i) then HexEscape(s[i])
    else [s[i]]
  }

  function JsPieces(s: Text): seq<Text> {
    seq(|s|, i requires 0 <= i < |s| => JsPiece(s, i))
  }

  lemma JsPiecesSpell(s: Text)
    ensures SpellsAll(JsPieces(s), s)
  {
    forall i | 0 <= i < |s|
      ensures Spells(JsPieces(s)[i], s[i])
    {
      HexRoundTrip(s[i]);
    }
  }

  function JsQuote(s: Text): Text {
    [QUOTE] + Join(JsPieces(s)) + [QUOTE]
  }

  /** `JSON.stringify` of a string is read back as that string. */
  lemma JsRoundTrip(s: Text, rest: Text)
    ensures JsQuote(s) + rest == [QUOTE] + (Join(JsPieces(s)) + [QUOTE] + rest)
    ensures ReadBody((JsQuote(s) + rest)[1..]) == Some((s, rest))
  {
    var body := Join(JsPieces(s)) + [QUOTE] + rest;
    assert JsQuote(s) + rest == [QUOTE] + body;
    assert ([QUOTE] + body)[1..] == body;
    JsPiecesSpell(s);
    BodyIsRead(JsPieces(s), s, rest);
  }
}
