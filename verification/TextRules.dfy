/**
 What the texts the repository writes look like, unit by unit: escapes, printed
 JSON, the order of canonical keys, base64url and placeholders.
 */
module TextRules {
  import opened Wrappers
  import opened JsonString
  import opened Json
  import opened TextOrder
  import opened CanonicalJson
  import opened Placeholders
  import Base64Url

  // --------------------------------------------------------------------- escapes

  /** The units with an escape of their own, and its letter. */
  const SHORT: map<int, char> := map[
    0x08 := 'b', 0x09 := 't', 0x0A := 'n', 0x0C := 'f', 0x0D := 'r', 0x22 := '"', 0x5C := '\\']

  const HEX: Text := Ascii("0123456789abcdef")

  /** `\u` and four hexadecimal digits, in lower case. */
  predicate IsHexEscape(piece: Text, u: Unit) {
    && |piece| == 6 && piece[0] == 0x5C && piece[1] == 0x75
    && piece[2] == HEX[u / 4096] && piece[3] == HEX[u / 256 % 16]
    && piece[4] == HEX[u / 16 % 16] && piece[5] == HEX[u % 16]
  }

  /** Written as itself, by its short escape, or by its number. */
  predicate IsWritten(piece: Text, u: Unit, plain: bool) {
    if u in SHORT then piece == [0x5C, Code(SHORT[u])]
    else if plain then piece == [u]
    else IsHexEscape(piece, u)
  }

  lemma HexDigitIs(v: int)
    requires 0 <= v < 16
    ensures HexDigit(v) == HEX[v]
  {
    assert HEX[0] == 0x30 && HEX[1] == 0x31 && HEX[2] == 0x32 && HEX[3] == 0x33 && HEX[4] == 0x34 && HEX[5] == 0x35;
    assert HEX[6] == 0x36 && HEX[7] == 0x37 && HEX[8] == 0x38 && HEX[9] == 0x39 && HEX[10] == 0x61;
    assert HEX[11] == 0x62 && HEX[12] == 0x63 && HEX[13] == 0x64 && HEX[14] == 0x65 && HEX[15] == 0x66;
  }

  lemma EscapesAreWritten(u: Unit)
    ensures u in SHORT ==> ShortLetter(u) == Some(Code(SHORT[u]))
    ensures u !in SHORT ==> ShortLetter(u).None?
    ensures IsHexEscape(HexEscape(u), u)
  {
    HexDigitIs(u / 4096);
    HexDigitIs(u / 256 % 16);
    HexDigitIs(u / 16 % 16);
    HexDigitIs(u % 16);
  }

  const HEX_UPPER: Text := Ascii("0123456789ABCDEF")

  lemma UpperHexDigits()
    ensures forall v :: 0 <= v < 16 ==> HEX_UPPER[v] == if v < 10 then 0x30 + v else 0x41 + v - 10
  {
    var h := HEX_UPPER;
    assert h[0] == 0x30 && h[1] == 0x31 && h[2] == 0x32 && h[3] == 0x33 && h[4] == 0x34 && h[5] == 0x35;
    assert h[6] == 0x36 && h[7] == 0x37 && h[8] == 0x38 && h[9] == 0x39 && h[10] == 0x41;
    assert h[11] == 0x42 && h[12] == 0x43 && h[13] == 0x44 && h[14] == 0x45 && h[15] == 0x46;
  }

  /** The reader takes hexadecimal digits of either case, the seven short escapes,
      and an escaped slash. */
  lemma EscapesAreRead(c: Unit, u: Unit, v: int)
    requires 0 <= v < 16
    ensures HexValue(c) == Some(v) <==> c == HEX[v] || c == HEX_UPPER[v]
    ensures ShortEscape(c) == Some(u) <==> (c == 0x2F && u == 0x2F) || (u in SHORT && c == Code(SHORT[u]))
  {
    HexDigitIs(v);
    UpperHexDigits();
  }

  /** `JSON.stringify` writes every unit as itself but control characters and
      surrogates without a partner. */
  lemma JsWritesExactly(s: Text, i: nat)
    requires i < |s|
    ensures |JsPieces(s)| == |s|
    ensures var high, low := 0xD800 <= s[i] < 0xDC00, 0xDC00 <= s[i] < 0xE000;
            var follows, leads := i + 1 < |s| && 0xDC00 <= s[i + 1] < 0xE000, i > 0 && 0xD800 <= s[i - 1] < 0xDC00;
            IsWritten(JsPieces(s)[i], s[i], s[i] >= 0x20 && (high ==> follows) && (low ==> leads))
  {
    EscapesAreWritten(s[i]);
  }

  /** `json.dumps` writes printable ASCII as itself and nothing else. */
  lemma PyWritesExactly(t: Text, i: nat)
    requires i < |t|
    ensures |PyPieces(t)| == |t| && IsWritten(PyPieces(t)[i], t[i], 0x20 <= t[i] < 0x7F)
  {
    EscapesAreWritten(t[i]);
  }

  // ---------------------------------------------------------------- printed JSON

  /** The texts with a comma between any two of them. */
  function Commas(texts: seq<Text>): Text {
    if texts == [] then [] else if |texts| == 1 then texts[0] else texts[0] + (Ascii(",") + Commas(texts[1..]))
  }

  function ItemTexts(items: seq<Json>): seq<Text> {
    seq(|items|, i requires 0 <= i < |items| => Print(items[i]))
  }

  function MemberText(m: Member): Text { JsQuote(m.key) + (Ascii(":") + Print(m.value)) }

  function MemberTexts(members: seq<Member>): seq<Text> {
    seq(|members|, i requires 0 <= i < |members| => MemberText(members[i]))
  }

  lemma CommaFirst(texts: seq<Text>, first: Text, rest: seq<Text>)
    requires texts == [first] + rest
    ensures Commas(texts) == if rest == [] then first else first + (Ascii(",") + Commas(rest))
  {
    assert texts[1..] == rest;
  }

  lemma Regroup(a: Text, b: Text, c: Text, d: Text)
    ensures (a + (b + c)) + d == a + (b + (c + d))
  {
  }

  lemma {:induction false} ItemsArePrinted(items: seq<Json>)
    requires items != []
    ensures Print(items[0]) + PrintItems(items[1..]) == Commas(ItemTexts(items)) + Ascii("]")
  {
    Marks();
    CommaFirst(ItemTexts(items), Print(items[0]), ItemTexts(items[1..]));
    if |items| > 1 {
      ItemsArePrinted(items[1..]);
      Regroup(Print(items[0]), Ascii(","), Commas(ItemTexts(items[1..])), Ascii("]"));
    }
  }

  lemma {:induction false} MembersArePrinted(members: seq<Member>)
    requires members != []
    ensures JsQuote(members[0].key) + ([COLON] + (Print(members[0].value) + PrintMembers(members[1..])))
         == Commas(MemberTexts(members)) + Ascii("}")
  {
    Marks();
    var texts := MemberTexts(members[1..]);
    CommaFirst(MemberTexts(members), MemberText(members[0]), texts);
    Regroup(JsQuote(members[0].key), [COLON], Print(members[0].value), PrintMembers(members[1..]));
    if |members| > 1 {
      MembersArePrinted(members[1..]);
      Regroup(MemberText(members[0]), [COMMA], Commas(texts), [CLOSE_BRACE]);
    }
  }

  lemma Marks()
    ensures Ascii(",") == [COMMA] && Ascii(":") == [COLON]
    ensures Ascii("[") == [OPEN_BRACKET] && Ascii("]") == [CLOSE_BRACKET]
    ensures Ascii("{") == [OPEN_BRACE] && Ascii("}") == [CLOSE_BRACE] && Ascii("\"") == [QUOTE]
    ensures Ascii("null") == NULL_TEXT && Ascii("true") == TRUE_TEXT && Ascii("false") == FALSE_TEXT
  {
  }

  /** `JSON.stringify` without spaces: what is between the brackets, and in which
      order. */
  lemma PrintedExactly(v: Json)
    ensures Print(v) == match v
                        case Null => Ascii("null")
                        case Bool(b) => if b then Ascii("true") else Ascii("false")
                        case Num(literal) => literal
                        case Str(text) => Ascii("\"") + Join(JsPieces(text)) + Ascii("\"")
                        case Arr(items) => Ascii("[") + Commas(ItemTexts(items)) + Ascii("]")
                        case Obj(members) => Ascii("{") + Commas(MemberTexts(members)) + Ascii("}")
  {
    Marks();
    match v
    case Arr(items) =>
      if items != [] {
        ItemsArePrinted(items);
      }
    case Obj(members) =>
      if members != [] {
        MembersArePrinted(members);
      }
    case _ =>
  }

  // ------------------------------------------------------------ whole numbers

  function Power(n: nat): (r: nat)
    ensures r > 0
  {
    if n == 0 then 1 else 10 * Power(n - 1)
  }

  predicate AllDigits(t: Text) {
    forall i :: 0 <= i < |t| ==> 0x30 <= t[i] <= 0x39
  }

  /** The number a row of digits stands for. */
  function NumberOf(t: Text): int
    requires AllDigits(t)
  {
    if t == [] then 0 else NumberOf(t[..|t| - 1]) * 10 + (t[|t| - 1] - 0x30)
  }

  /** Digits without a leading zero. */
  predicate IsDecimal(t: Text) {
    t != [] && AllDigits(t) && (t[0] == 0x30 ==> |t| == 1)
  }

  lemma {:induction false} NumberIsBelow(t: Text)
    requires AllDigits(t)
    ensures 0 <= NumberOf(t) < Power(|t|)
  {
    if t != [] {
      NumberIsBelow(t[..|t| - 1]);
    }
  }

  /** A whole number is written by its digits, without a leading zero; and any such
      text is how its number is written. */
  lemma {:induction false} DecimalIsRead(n: nat)
    ensures IsDecimal(Decimal(n)) && NumberOf(Decimal(n)) == n
    ensures n > 0 ==> Decimal(n)[0] != 0x30
  {
    if n < 10 {
      assert Decimal(n)[..0] == [];
    } else {
      DecimalIsRead(n / 10);
      var t := Decimal(n);
      assert t[..|t| - 1] == Decimal(n / 10);
    }
  }

  lemma {:induction false} LeadingDigit(t: Text)
    requires t != [] && AllDigits(t) && t[0] != 0x30
    ensures NumberOf(t) >= Power(|t| - 1)
  {
    if |t| > 1 {
      LeadingDigit(t[..|t| - 1]);
    }
  }

  lemma FirstOfJoined(a: Text, x: Unit)
    requires a != []
    ensures (a + [x])[0] == a[0] && (a + [x])[1..] == a[1..] + [x]
  {
  }

  lemma SameFirst(a: Text, b: Text)
    requires a != [] && b != [] && a[0] == b[0]
    ensures a == b <==> a[1..] == b[1..]
  {
    assert a == [a[0]] + a[1..] && b == [b[0]] + b[1..];
  }

  /** The last unit decides if nothing before it does. */
  lemma {:induction false} LessAtTheEnd(a: Text, x: Unit, b: Text, y: Unit)
    requires |a| == |b|
    ensures Less(a + [x], b + [y]) <==> Less(a, b) || (a == b && x < y)
  {
    if a != [] {
      FirstOfJoined(a, x);
      FirstOfJoined(b, y);
      if a[0] == b[0] {
        SameFirst(a, b);
        LessAtTheEnd(a[1..], x, b[1..], y);
      }
    }
  }

  /** Among texts of one length the order of texts is the order of their numbers. */
  lemma {:induction false} LessIsLess(a: Text, b: Text)
    requires AllDigits(a) && AllDigits(b) && |a| == |b|
    ensures Less(a, b) <==> NumberOf(a) < NumberOf(b)
    decreases |a|
  {
    if a != [] {
      var n := |a| - 1;
      LessIsLess(a[..n], b[..n]);
      LessIsLess(b[..n], a[..n]);
      LessIsStrict();
      assert a == a[..n] + [a[n]] && b == b[..n] + [b[n]];
      LessAtTheEnd(a[..n], a[n], b[..n], b[n]);
    }
  }

  lemma {:induction false} PowerGrows(m: nat, n: nat)
    requires m <= n
    ensures Power(m) <= Power(n)
  {
    if m < n {
      PowerGrows(m, n - 1);
    }
  }

  lemma ShorterIsSmaller(a: Text, b: Text)
    requires IsDecimal(a) && IsDecimal(b) && |a| < |b|
    ensures NumberOf(a) < NumberOf(b)
  {
    NumberIsBelow(a);
    LeadingDigit(b);
    PowerGrows(|a|, |b| - 1);
  }

  lemma SmallerExactly(a: Text, b: Text)
    requires IsDecimal(a) && IsDecimal(b)
    ensures Smaller(a, b) <==> NumberOf(a) < NumberOf(b)
  {
    if |a| == |b| {
      LessIsLess(a, b);
    } else if |a| < |b| {
      ShorterIsSmaller(a, b);
    } else {
      ShorterIsSmaller(b, a);
    }
  }

  lemma DecimalsDiffer(a: Text, b: Text)
    requires IsDecimal(a) && IsDecimal(b) && NumberOf(a) == NumberOf(b)
    ensures a == b
  {
    OrdersAreStrict();
    SmallerExactly(a, b);
    SmallerExactly(b, a);
  }

  // -------------------------------------------------------------------- numbers

  predicate AreDigits(t: Text) { t != [] && AllDigits(t) }

  /** A letter `e` of either case, perhaps a sign, and digits. */
  predicate IsPower(t: Text, sign: Text, digits: Text) {
    && (t == [Code('e')] + sign + digits || t == [Code('E')] + sign + digits)
    && (sign == [] || sign == Ascii("+") || sign == Ascii("-")) && AreDigits(digits)
  }

  /** The four parts of a number (section 6 of RFC 8259); all but the second may be
      empty. */
  ghost predicate IsNumeral(t: Text, sign: Text, whole: Text, fraction: Text, power: Text) {
    && t == sign + (whole + (fraction + power))
    && (sign == [] || sign == Ascii("-")) && IsDecimal(whole)
    && (fraction == [] || (fraction[0] == Code('.') && AreDigits(fraction[1..])))
    && (power == [] || exists plus, digits :: IsPower(power, plus, digits))
  }

  lemma {:induction false} DigitsRun(t: Text)
    ensures AllDigits(t[..DigitRun(t)]) && (DigitRun(t) < |t| ==> !IsDigit(t[DigitRun(t)]))
  {
    if t != [] && IsDigit(t[0]) {
      DigitsRun(t[1..]);
      assert t[..DigitRun(t)] == [t[0]] + t[1..][..DigitRun(t[1..])];
    }
  }

  lemma {:induction false} RunOfDigits(digits: Text, rest: Text)
    requires AllDigits(digits) && (rest != [] ==> !IsDigit(rest[0]))
    ensures DigitRun(digits + rest) == |digits|
  {
    if digits != [] {
      assert (digits + rest)[1..] == digits[1..] + rest;
      RunOfDigits(digits[1..], rest);
    } else {
      assert digits + rest == rest;
    }
  }

  lemma Signs()
    ensures Ascii("-") == [0x2D] && Ascii("+") == [0x2B] && Code('.') == 0x2E && Code('e') == 0x65 && Code('E') == 0x45
  {
  }

  lemma ExponentHasPower(t: Text)
    requires t != [] && IsExponent(t)
    ensures exists sign, digits :: IsPower(t, sign, digits)
  {
    Signs();
    var n := if |t| > 1 && (t[1] == 0x2B || t[1] == 0x2D) then 2 else 1;
    DigitsRun(t[n..]);
    assert t[n..][..|t[n..]|] == t[n..];
    assert t == [t[0]] + t[1..n] + t[n..];
    assert IsPower(t, t[1..n], t[n..]);
  }

  lemma PowerIsExponent(t: Text, sign: Text, digits: Text)
    requires IsPower(t, sign, digits)
    ensures IsExponent(t)
  {
    Signs();
    RunOfDigits(digits, []);
    assert digits + [] == digits && t[1 + |sign|..] == digits;
  }

  lemma ExponentExactly(t: Text)
    ensures IsExponent(t) <==> t == [] || exists sign, digits :: IsPower(t, sign, digits)
  {
    if t != [] && IsExponent(t) {
      ExponentHasPower(t);
    }
    forall sign, digits | IsPower(t, sign, digits)
      ensures IsExponent(t)
    {
      PowerIsExponent(t, sign, digits);
    }
  }

  lemma FractionExactly(t: Text)
    ensures IsFraction(t) <==> exists fraction, power :: IsTail(t, fraction, power)
  {
    Signs();
    if IsFraction(t) {
      var n := if t != [] && t[0] == 0x2E then 1 + DigitRun(t[1..]) else 0;
      if n > 0 {
        DigitsRun(t[1..]);
        assert t[..n][1..] == t[1..][..n - 1];
      }
      ExponentExactly(t[n..]);
      assert t == t[..n] + t[n..];
      assert IsTail(t, t[..n], t[n..]);
    }
    forall fraction, power | IsTail(t, fraction, power)
      ensures IsFraction(t)
    {
      TailIsFraction(t, fraction, power);
    }
  }

  /** What may stand behind the whole part. */
  ghost predicate IsTail(t: Text, fraction: Text, power: Text) {
    && t == fraction + power
    && (fraction == [] || (fraction[0] == Code('.') && AreDigits(fraction[1..])))
    && (power == [] || exists plus, digits :: IsPower(power, plus, digits))
  }

  lemma TailIsFraction(t: Text, fraction: Text, power: Text)
    requires IsTail(t, fraction, power)
    ensures IsFraction(t) && (t != [] ==> !IsDigit(t[0]))
  {
    Signs();
    ExponentExactly(power);
    if fraction != [] {
      RunOfDigits(fraction[1..], power);
      assert t[1..] == fraction[1..] + power && t[|fraction|..] == power;
    } else {
      assert t == power;
    }
  }

  lemma UnsignedExactly(t: Text)
    ensures IsUnsigned(t) <==> exists whole, fraction, power :: IsNumeral(t, [], whole, fraction, power)
  {
    if IsUnsigned(t) {
      var n := DigitRun(t);
      DigitsRun(t);
      FractionExactly(t[n..]);
      var fraction, power :| IsTail(t[n..], fraction, power);
      assert t == t[..n] + t[n..];
      assert t == [] + (t[..n] + (fraction + power));
      assert IsNumeral(t, [], t[..n], fraction, power);
    }
    forall whole, fraction, power | IsNumeral(t, [], whole, fraction, power)
      ensures IsUnsigned(t)
    {
      var rest := fraction + power;
      assert IsTail(rest, fraction, power) && t == whole + rest;
      TailIsFraction(rest, fraction, power);
      RunOfDigits(whole, rest);
      assert t[|whole|..] == rest;
    }
  }

  predicate AllNumberUnits(t: Text) {
    forall i :: 0 <= i < |t| ==> IsNumberUnit(t[i])
  }

  lemma NumeralUnits(t: Text, sign: Text, whole: Text, fraction: Text, power: Text)
    requires IsNumeral(t, sign, whole, fraction, power)
    ensures AllNumberUnits(t)
  {
    Signs();
    assert AllNumberUnits(sign) && AllNumberUnits(whole);
    assert fraction != [] ==> fraction == [fraction[0]] + fraction[1..];
    assert AllNumberUnits(fraction) && AllNumberUnits(power);
  }

  lemma NumberHasParts(t: Text)
    requires IsNumber(t)
    ensures exists sign, whole, fraction, power :: IsNumeral(t, sign, whole, fraction, power)
  {
    Signs();
    var sign := if t[0] == 0x2D then t[..1] else [];
    UnsignedExactly(t[|sign|..]);
    var whole, fraction, power :| IsNumeral(t[|sign|..], [], whole, fraction, power);
    PutSign(t, sign, whole, fraction, power);
  }

  lemma PutSign(t: Text, sign: Text, whole: Text, fraction: Text, power: Text)
    requires sign <= t && (sign == [] || sign == Ascii("-"))
    ensures IsNumeral(t[|sign|..], [], whole, fraction, power) <==> IsNumeral(t, sign, whole, fraction, power)
  {
    var rest := whole + (fraction + power);
    assert [] + rest == rest && t == sign + t[|sign|..];
  }

  lemma PartsMakeNumber(t: Text, sign: Text, whole: Text, fraction: Text, power: Text)
    requires IsNumeral(t, sign, whole, fraction, power)
    ensures IsNumber(t)
  {
    Signs();
    NumeralUnits(t, sign, whole, fraction, power);
    PutSign(t, sign, whole, fraction, power);
    UnsignedExactly(t[|sign|..]);
    assert t[|sign|] == whole[0];
  }

  /** A number is written as the grammar says. */
  lemma NumberExactly(t: Text)
    ensures IsNumber(t) <==> exists sign, whole, fraction, power :: IsNumeral(t, sign, whole, fraction, power)
  {
    if IsNumber(t) {
      NumberHasParts(t);
    }
    forall sign, whole, fraction, power | IsNumeral(t, sign, whole, fraction, power)
      ensures IsNumber(t)
    {
      PartsMakeNumber(t, sign, whole, fraction, power);
    }
  }

  // ------------------------------------------------------- values inside a value

  /** This value is the other one or stands somewhere in it. */
  ghost predicate Within(w: Json, v: Json) {
    w == v ||
    match v
    case Arr(items) => exists i :: 0 <= i < |items| && Within(w, items[i])
    case Obj(members) => exists i :: 0 <= i < |members| && Within(w, members[i].value)
    case _ => false
  }

  lemma {:induction false} DistinctKeys(members: seq<Member>)
    ensures Distinct(members) <==> forall i, j :: 0 <= i < j < |members| ==> members[i].key != members[j].key
  {
    if members != [] {
      DistinctKeys(members[1..]);
      KeysExactly(members[1..], members[0].key);
      assert forall i :: 0 < i < |members| ==> members[i] == members[1..][i - 1];
    }
  }

  lemma {:induction false} KeysExactly(members: seq<Member>, key: Text)
    ensures key in Keys(members) <==> exists i :: 0 <= i < |members| && members[i].key == key
  {
    if members != [] {
      KeysExactly(members[1..], key);
      assert forall i :: 0 < i < |members| ==> members[i] == members[1..][i - 1];
    }
  }

  /** Written as a number if it is one, and no key twice if it is an object. */
  ghost predicate IsSound(w: Json) {
    && (w.Num? ==> IsNumber(w.literal))
    && (w.Obj? ==> forall i, j :: 0 <= i < j < |w.members| ==> w.members[i].key != w.members[j].key)
  }

  ghost predicate IsOpen(w: Json) {
    w.Obj? ==> forall i :: 0 <= i < |w.members| ==> w.members[i].key != Ascii("__proto__")
  }

  /** A value is well-formed, or without `__proto__`, if all that stands in it is. */
  lemma {:induction false} InsideExactly(v: Json)
    ensures WellFormed(v) <==> forall w :: Within(w, v) ==> IsSound(w)
    ensures NoProto(v) <==> forall w :: Within(w, v) ==> IsOpen(w)
  {
    assert Within(v, v);
    match v
    case Arr(items) =>
      forall i | 0 <= i < |items|
        ensures WellFormed(items[i]) <==> forall w :: Within(w, items[i]) ==> IsSound(w)
        ensures NoProto(items[i]) <==> forall w :: Within(w, items[i]) ==> IsOpen(w)
        ensures forall w :: Within(w, items[i]) ==> Within(w, v)
      {
        InsideExactly(items[i]);
      }
    case Obj(members) =>
      DistinctKeys(members);
      forall i | 0 <= i < |members|
        ensures WellFormed(members[i].value) <==> forall w :: Within(w, members[i].value) ==> IsSound(w)
        ensures NoProto(members[i].value) <==> forall w :: Within(w, members[i].value) ==> IsOpen(w)
        ensures forall w :: Within(w, members[i].value) ==> Within(w, v)
      {
        InsideExactly(members[i].value);
      }
    case _ =>
  }

  // ---------------------------------------------------------- canonical key order

  /** The largest array index there is, 2^32 - 2. */
  lemma LastIndexIs()
    ensures LAST_INDEX == Decimal(0xFFFF_FFFE)
  {
    assert Decimal(4294) == Ascii("4294");
    assert Decimal(429496) == Decimal(4294) + [0x39] + [0x36];
    assert Decimal(42949672) == Decimal(429496) + [0x37] + [0x32];
    assert Decimal(4294967294) == Decimal(42949672) + [0x39] + [0x34];
  }

  /** A key is an array index exactly if it is how a whole number below 2^32 - 1 is
      written. */
  lemma IndexExactly(k: Text)
    ensures IsIndex(k) <==> exists n: nat :: n < 0xFFFF_FFFF && k == Decimal(n)
  {
    LastIndexIs();
    DecimalIsRead(0xFFFF_FFFE);
    if IsDecimal(k) {
      var n := NumberOf(k);
      NumberIsBelow(k);
      DecimalIsRead(n);
      DecimalsDiffer(k, Decimal(n));
      SmallerExactly(LAST_INDEX, k);
    }
    forall n: nat | n < 0xFFFF_FFFF && k == Decimal(n)
      ensures IsIndex(k)
    {
      DecimalIsRead(n);
    }
  }

  /** Keys are listed by number as far as they are array indices, then the others in
      the order of their units. */
  lemma KeyOrder(a: Text, b: Text)
    ensures !IsIndex(a) && !IsIndex(b) ==> (Precedes(a, b) <==> exists n: nat :: SmallerAt(a, b, n))
    ensures IsIndex(a) && !IsIndex(b) ==> Precedes(a, b) && !Precedes(b, a)
    ensures forall m: nat, n: nat :: a == Decimal(m) && b == Decimal(n) && n < 0xFFFF_FFFF ==>
                                       (Precedes(a, b) <==> m < n)
  {
    LessExactly(a, b);
    forall m: nat, n: nat | a == Decimal(m) && b == Decimal(n) && n < 0xFFFF_FFFF
      ensures Precedes(a, b) <==> m < n
    {
      IndexExactly(a);
      IndexExactly(b);
      DecimalIsRead(m);
      DecimalIsRead(n);
      SmallerExactly(a, b);
    }
  }

  // ------------------------------------------------------------------- base64url

  const UPPER := "ABCDEFGHIJKLMNOPQRSTUVWXYZ"
  const LOWER := "abcdefghijklmnopqrstuvwxyz"
  const FIGURES := "0123456789"

  /** The letters of section 5 of RFC 4648, in order. */
  lemma LettersAre(v: Base64Url.Sextet)
    ensures v < 26 ==> Base64Url.Letter(v) == Code(UPPER[v])
    ensures 26 <= v < 52 ==> Base64Url.Letter(v) == Code(LOWER[v - 26])
    ensures 52 <= v < 62 ==> Base64Url.Letter(v) == Code(FIGURES[v - 52])
    ensures v == 62 ==> Base64Url.Letter(v) == Code('-')
    ensures v == 63 ==> Base64Url.Letter(v) == Code('_')
  {
    assert forall i :: 0 <= i < 26 ==> Code(UPPER[i]) == 0x41 + i;
    assert forall i :: 0 <= i < 26 ==> Code(LOWER[i]) == 0x61 + i;
    assert forall i :: 0 <= i < 10 ==> Code(FIGURES[i]) == 0x30 + i;
  }

  /** Read as one number, six bits a letter, from the `i`th letter on. */
  function Letters4(s: seq<Base64Url.Sextet>, i: nat): int
    requires i + 3 < |s|
  {
    s[i] as int * 262144 + s[i + 1] as int * 4096 + s[i + 2] as int * 64 + s[i + 3] as int
  }

  lemma GroupBits(a: Base64Url.Byte, b: Base64Url.Byte, c: Base64Url.Byte)
    ensures a / 4 * 64 + a % 4 * 16 == a * 16
    ensures a / 4 * 4096 + (a % 4 * 16 + b / 16) * 64 + b % 16 * 4 == (a * 256 + b) * 4
    ensures a / 4 * 262144 + (a % 4 * 16 + b / 16) * 4096 + (b % 16 * 4 + c / 64) * 64 + c % 64
         == a * 65536 + b * 256 + c
  {
  }

  lemma FirstGroup(bytes: seq<Base64Url.Byte>)
    requires bytes != []
    ensures var s, n := Base64Url.Split(bytes), |bytes|;
            && (n == 1 ==> |s| == 2 && s[0] as int * 64 + s[1] as int == bytes[0] as int * 16)
            && (n == 2 ==> |s| == 3 && s[0] as int * 4096 + s[1] as int * 64 + s[2] as int
                                       == (bytes[0] as int * 256 + bytes[1] as int) * 4)
            && (n >= 3 ==> |s| >= 4 && Letters4(s, 0)
                           == bytes[0] as int * 65536 + bytes[1] as int * 256 + bytes[2] as int)
  {
    GroupBits(bytes[0], if |bytes| > 1 then bytes[1] else 0, if |bytes| > 2 then bytes[2] else 0);
  }

  lemma {:induction false} SplitsExactly(bytes: seq<Base64Url.Byte>, k: nat)
    requires 3 * k < |bytes|
    ensures var s, n := Base64Url.Split(bytes), |bytes| - 3 * k;
            && (n == 1 ==> |s| == 4 * k + 2 && s[4 * k] as int * 64 + s[4 * k + 1] as int == bytes[3 * k] as int * 16)
            && (n == 2 ==> |s| == 4 * k + 3 && s[4 * k] as int * 4096 + s[4 * k + 1] as int * 64 + s[4 * k + 2] as int
                                               == (bytes[3 * k] as int * 256 + bytes[3 * k + 1] as int) * 4)
            && (n >= 3 ==> |s| >= 4 * k + 4 && Letters4(s, 4 * k)
                           == bytes[3 * k] as int * 65536 + bytes[3 * k + 1] as int * 256 + bytes[3 * k + 2] as int)
  {
    if k > 0 {
      SplitsExactly(bytes[3..], k - 1);
      assert Base64Url.Split(bytes)[4..] == Base64Url.Split(bytes[3..]);
    } else {
      FirstGroup(bytes);
    }
  }

  lemma {:induction false} LettersInOrder(s: seq<Base64Url.Sextet>, i: nat)
    requires i < |s|
    ensures |Base64Url.Letters(s)| == |s| && Base64Url.Letters(s)[i] == Base64Url.Letter(s[i])
  {
    Base64Url.LettersAreRead(s);
    if i > 0 {
      LettersInOrder(s[1..], i - 1);
    }
  }

  /** The values of the letters are the bits of the bytes, six at a time, with zero
      bits to fill the last letter. */
  lemma EncodedExactly(bytes: seq<Base64Url.Byte>, k: nat) returns (s: seq<Base64Url.Sextet>)
    requires 3 * k < |bytes|
    ensures |Base64Url.Encode(bytes)| == |s|
    ensures forall i :: 0 <= i < |s| ==> Base64Url.Encode(bytes)[i] == Base64Url.Letter(s[i])
    ensures var n := |bytes| - 3 * k;
            && (n == 1 ==> |s| == 4 * k + 2 && s[4 * k] as int * 64 + s[4 * k + 1] as int == bytes[3 * k] as int * 16)
            && (n == 2 ==> |s| == 4 * k + 3 && s[4 * k] as int * 4096 + s[4 * k + 1] as int * 64 + s[4 * k + 2] as int
                                               == (bytes[3 * k] as int * 256 + bytes[3 * k + 1] as int) * 4)
            && (n >= 3 ==> |s| >= 4 * k + 4 && Letters4(s, 4 * k)
                           == bytes[3 * k] as int * 65536 + bytes[3 * k + 1] as int * 256 + bytes[3 * k + 2] as int)
  {
    s := Base64Url.Split(bytes);
    SplitsExactly(bytes, k);
    Base64Url.LettersAreRead(s);
    forall i | 0 <= i < |s|
      ensures Base64Url.Encode(bytes)[i] == Base64Url.Letter(s[i])
    {
      LettersInOrder(s, i);
    }
  }

  // ---------------------------------------------------------------- placeholders

  predicate IsCapital(u: Unit) { exists i :: 0 <= i < 26 && u == Code(UPPER[i]) }

  predicate IsFigure(u: Unit) { exists i :: 0 <= i < 10 && u == Code(FIGURES[i]) }

  lemma NameUnits(u: Unit)
    ensures NameStart(u) <==> IsCapital(u) || u == Code('_')
    ensures NamePart(u) <==> IsCapital(u) || IsFigure(u) || u == Code('_')
  {
    assert forall i :: 0 <= i < 26 ==> Code(UPPER[i]) == 0x41 + i;
    assert forall i :: 0 <= i < 10 ==> Code(FIGURES[i]) == 0x30 + i;
    assert 0x41 <= u <= 0x5A ==> u == Code(UPPER[u - 0x41]);
    assert 0x30 <= u <= 0x39 ==> u == Code(FIGURES[u - 0x30]);
  }

  /** `{{NAME}}`, where the name begins with a capital letter or `_` and goes on with
      those and figures. */
  predicate IsPlaceholder(mark: Text, name: Text) {
    && mark == Ascii("{{") + name + Ascii("}}")
    && name != [] && (IsCapital(name[0]) || name[0] == Code('_'))
    && forall i :: 0 <= i < |name| ==> IsCapital(name[i]) || IsFigure(name[i]) || name[i] == Code('_')
  }

  lemma PlaceholderIs(mark: Text, name: Text)
    ensures IsPlaceholder(mark, name) <==> IsName(name) && mark == Placeholder(name)
  {
    assert Ascii("{{") == [OPEN, OPEN] && Ascii("}}") == [CLOSE, CLOSE];
    forall u: Unit
      ensures NameStart(u) <==> IsCapital(u) || u == Code('_')
      ensures NamePart(u) <==> IsCapital(u) || IsFigure(u) || u == Code('_')
    {
      NameUnits(u);
    }
  }

  lemma MatchHasName(t: Text, n: nat)
    requires 0 < n <= |t| && PlaceholderAt(t) == n
    ensures IsPlaceholder(t[..n], t[2..n - 2])
  {
    var name := t[2..n - 2];
    var run := NameRun(t[2..]);
    assert t[2..][..run] == name;
    assert t[..n] == Placeholder(name);
    PlaceholderIs(t[..n], name);
  }

  lemma NameHasMatch(t: Text, n: nat, name: Text)
    requires n <= |t| && IsPlaceholder(t[..n], name)
    ensures n > 0 && PlaceholderAt(t) == n
  {
    PlaceholderIs(t[..n], name);
    assert t == t[..n] + t[n..];
    PlaceholderIsSeen(name, t[n..]);
  }

  /** The pattern matches at the start of a text, and takes so much, exactly if the
      text begins with such a placeholder. */
  lemma PlaceholderExactly(t: Text, n: nat)
    requires n <= |t|
    ensures n > 0 && PlaceholderAt(t) == n <==> exists name :: IsPlaceholder(t[..n], name)
  {
    if n > 0 && PlaceholderAt(t) == n {
      MatchHasName(t, n);
    }
    forall name | IsPlaceholder(t[..n], name)
      ensures n > 0 && PlaceholderAt(t) == n
    {
      NameHasMatch(t, n, name);
    }
  }

  lemma BasePlaceholder()
    ensures IsPlaceholder(BASE_PATTERN, Ascii("CINATRA_BASE_URL"))
  {
    var name := Ascii("CINATRA_BASE_URL");
    assert BASE_PATTERN == Placeholder(name);
    assert IsName(name);
    PlaceholderIs(BASE_PATTERN, name);
  }

  predicate BracesAt(text: Text, i: nat) {
    i + 1 < |text| && text[i..i + 2] == Ascii("{{")
  }

  /** Text without two opening braces in a row and none at its end. */
  lemma LooseExactly(text: Text)
    ensures Loose(text) <==> (forall i: nat :: !BracesAt(text, i)) && (text == [] || text[|text| - 1] != Code('{'))
  {
    assert Ascii("{{") == [OPEN, OPEN];
    forall i: nat
      ensures BracesAt(text, i) <==> i + 1 < |text| && text[i] == OPEN && text[i + 1] == OPEN
    {
      if i + 1 < |text| {
        assert text[i..i + 2] == [text[i], text[i + 1]];
      }
    }
    if Loose(text) {
      forall i: nat
        ensures !BracesAt(text, i)
      {
        assert i < |text| && text[i] == OPEN ==> i + 1 < |text| && text[i + 1] != OPEN;
      }
      var n := |text| - 1;
      assert text != [] && text[n] == OPEN ==> n + 1 < |text|;
    } else {
      var i: nat :| i < |text| && text[i] == OPEN && !(i + 1 < |text| && text[i + 1] != OPEN);
      assert BracesAt(text, i) || i == |text| - 1;
    }
  }

  /** What Python makes of a byte that is no UTF-8. */
  function Escaped(b: int): int { 0xDC00 + b }

  /** A variable can hold any character but a surrogate, the escapes of the bytes from
      0x80 on, and any row of these. */
  lemma EnvironmentExactly(s: seq<CodePoint>)
    ensures IsEnvironmentText(s)
       <==> forall c :: c in s && 0xD800 <= c < 0xE000 ==> exists b :: 0x80 <= b < 0x100 && c == Escaped(b)
  {
    forall c | c in s
      ensures (exists b :: 0x80 <= b < 0x100 && c == Escaped(b)) <==> 0xDC80 <= c <= 0xDCFF
    {
      assert c == Escaped(c - 0xDC00);
    }
    assert forall i :: 0 <= i < |s| ==> s[i] in s;
  }
}
