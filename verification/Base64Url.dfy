/**
 The base64url text of bytes (section 5 of RFC 4648, no padding) and its
 reader. The reader skips units outside the alphabet and also accepts the two
 characters of plain base64.
 */
module Base64Url {
  import opened Wrappers
  import opened JsonString

  type Byte = b: int | 0 <= b < 256
  type Sextet = v: int | 0 <= v < 64

  function Letter(v: Sextet): Unit {
    if v < 26 then 0x41 + v
    else if v < 52 then 0x61 + v - 26
    else if v < 62 then 0x30 + v - 52
    else if v == 62 then 0x2D
    else 0x5F
  }

  function ValueOf(u: Unit): Option<Sextet> {
    if 0x41 <= u <= 0x5A then Some(u - 0x41)
    else if 0x61 <= u <= 0x7A then Some(u - 0x61 + 26)
    else if 0x30 <= u <= 0x39 then Some(u - 0x30 + 52)
    else if u == 0x2D || u == 0x2B then Some(62)
    else if u == 0x5F || u == 0x2F then Some(63)
    else None
  }

  /** Three bytes make four sextets; one or two bytes left over make two or three. */
  function Split(bytes: seq<Byte>): seq<Sextet> {
    if bytes == [] then []
    else if |bytes| == 1 then [bytes[0] / 4, bytes[0] % 4 * 16]
    else if |bytes| == 2 then [bytes[0] / 4, bytes[0] % 4 * 16 + bytes[1] / 16, bytes[1] % 16 * 4]
    else
      [bytes[0] / 4, bytes[0] % 4 * 16 + bytes[1] / 16, bytes[1] % 16 * 4 + bytes[2] / 64, bytes[2] % 64]
      + Split(bytes[3..])
  }

  function FirstByte(p: Sextet, q: Sextet): Byte { p as int * 4 + q as int / 16 }
  function SecondByte(q: Sextet, r: Sextet): Byte { q as int % 16 * 16 + r as int / 4 }
  function ThirdByte(r: Sextet, s: Sextet): Byte { r as int % 4 * 64 + s as int }

  function Merge(s: seq<Sextet>): seq<Byte> {
    if |s| < 2 then []
    else if |s| == 2 then [FirstByte(s[0], s[1])]
    else if |s| == 3 then [FirstByte(s[0], s[1]), SecondByte(s[1], s[2])]
    else [FirstByte(s[0], s[1]), SecondByte(s[1], s[2]), ThirdByte(s[2], s[3])] + Merge(s[4..])
  }

  function Letters(s: seq<Sextet>): Text {
    if s == [] then [] else [Letter(s[0])] + Letters(s[1..])
  }

  function Values(t: Text): seq<Sextet> {
    if t == [] then []
    else if ValueOf(t[0]).Some? then [ValueOf(t[0]).value] + Values(t[1..])
    else Values(t[1..])
  }

  function Encode(bytes: seq<Byte>): Text { Letters(Split(bytes)) }

  function Decode(t: Text): seq<Byte> { Merge(Values(t)) }

  /** The units base64url text is made of; neither a dot nor a space is one. */
  predicate InAlphabet(u: Unit) {
    0x41 <= u <= 0x5A || 0x61 <= u <= 0x7A || 0x30 <= u <= 0x39 || u == 0x2D || u == 0x5F
  }

  lemma {:induction false} LettersAreRead(s: seq<Sextet>)
    ensures Values(Letters(s)) == s
    ensures |Letters(s)| == |s|
    ensures forall i :: 0 <= i < |Letters(s)| ==> InAlphabet(Letters(s)[i])
  {
    if s != [] {
      LettersAreRead(s[1..]);
      assert Letters(s)[1..] == Letters(s[1..]);
    }
  }

  lemma OneGroup(a: Byte, b: Byte, c: Byte)
    ensures FirstByte(a / 4, a % 4 * 16 + b / 16) == a
    ensures SecondByte(a % 4 * 16 + b / 16, b % 16 * 4 + c / 64) == b
    ensures ThirdByte(b % 16 * 4 + c / 64, c % 64) == c
  {
  }

  lemma {:induction false} MergeSplit(bytes: seq<Byte>)
    ensures Merge(Split(bytes)) == bytes
  {
    if |bytes| >= 3 {
      MergeSplit(bytes[3..]);
      OneGroup(bytes[0], bytes[1], bytes[2]);
      var group := Split(bytes)[..4];
      assert Split(bytes) == group + Split(bytes[3..]);
      assert Split(bytes)[4..] == Split(bytes[3..]);
      assert bytes == [bytes[0], bytes[1], bytes[2]] + bytes[3..];
    } else if |bytes| == 2 {
      OneGroup(bytes[0], bytes[1], 0);
    } else if |bytes| == 1 {
      OneGroup(bytes[0], 0, 0);
    }
  }

  /** Decoding undoes encoding, and the text is made of alphabet units only. */
  lemma DecodeEncode(bytes: seq<Byte>)
    ensures Decode(Encode(bytes)) == bytes
    ensures forall i :: 0 <= i < |Encode(bytes)| ==> InAlphabet(Encode(bytes)[i])
    ensures bytes != [] ==> Encode(bytes) != []
  {
    LettersAreRead(Split(bytes));
    MergeSplit(bytes);
  }
}
