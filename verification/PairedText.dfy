/**
 Well-formed UTF-16: what `JSON.stringify` prints never holds a surrogate on its
 own, so it survives the passage through UTF-8 bytes.
 */
module PairedText {
  import opened Wrappers
  import opened JsonString
  import opened Json

  predicate IsSurrogate(u: int) { IsHigh(u) || IsLow(u) }

  /** Every surrogate is half of a pair. */
  predicate Paired(t: Text) {
    t == []
    || (!IsSurrogate(t[0]) && Paired(t[1..]))
    || (|t| >= 2 && IsHigh(t[0]) && IsLow(t[1]) && Paired(t[2..]))
  }

  lemma {:induction false} PairedJoin(a: Text, b: Text)
    requires Paired(a) && Paired(b)
    ensures Paired(a + b)
  {
    if a == [] {
      assert a + b == b;
    } else if !IsSurrogate(a[0]) {
      PairedJoin(a[1..], b);
      assert (a + b)[1..] == a[1..] + b;
    } else {
      PairedJoin(a[2..], b);
      assert (a + b)[2..] == a[2..] + b;
    }
  }

  lemma {:induction false} AsciiIsPaired(t: Text)
    requires forall i :: 0 <= i < |t| ==> t[i] < 128
    ensures Paired(t)
  {
    if t != [] {
      AsciiIsPaired(t[1..]);
    }
  }

  lemma EscapeIsAscii(u: Unit)
    ensures forall i :: 0 <= i < |HexEscape(u)| ==> HexEscape(u)[i] < 128
    ensures ShortLetter(u).Some? ==> ShortLetter(u).value < 128
  {
  }

  /** The second half of a pair, whose first half has been written already. */
  predicate InsidePair(s: Text, i: nat) {
    0 < i < |s| && IsHigh(s[i - 1]) && IsLow(s[i])
  }

  lemma PieceAt(s: Text, i: nat)
    requires i < |s|
    ensures JsPieces(s)[i..] == [JsPiece(s, i)] + JsPieces(s)[i + 1..]
    ensures Join(JsPieces(s)[i..]) == JsPiece(s, i) + Join(JsPieces(s)[i + 1..])
  {
    assert JsPieces(s)[i..][1..] == JsPieces(s)[i + 1..];
  }

  lemma {:induction false} BodyIsPaired(s: Text, i: nat)
    requires i <= |s| && !InsidePair(s, i)
    ensures Paired(Join(JsPieces(s)[i..]))
    decreases |s| - i
  {
    if i < |s| {
      PieceAt(s, i);
      var piece, rest := JsPiece(s, i), Join(JsPieces(s)[i + 1..]);
      if IsHigh(s[i]) && !IsLone(s, i) {
        PieceAt(s, i + 1);
        BodyIsPaired(s, i + 2);
        var more := Join(JsPieces(s)[i + 2..]);
        assert rest == [s[i + 1]] + more;
        assert (piece + rest)[2..] == more;
      } else {
        EscapeIsAscii(s[i]);
        BodyIsPaired(s, i + 1);
        PieceIsPaired(s, i);
        PairedJoin(piece, rest);
      }
    }
  }

  lemma PieceIsPaired(s: Text, i: nat)
    requires i < |s| && !InsidePair(s, i) && !(IsHigh(s[i]) && !IsLone(s, i))
    ensures Paired(JsPiece(s, i))
  {
    EscapeIsAscii(s[i]);
    var piece := JsPiece(s, i);
    if IsSurrogate(s[i]) || piece != [s[i]] {
      AsciiIsPaired(piece);
    }
  }

  lemma QuoteIsPaired(s: Text)
    ensures Paired(JsQuote(s))
  {
    BodyIsPaired(s, 0);
    assert JsPieces(s)[0..] == JsPieces(s);
    AsciiIsPaired([QUOTE]);
    PairedJoin([QUOTE], Join(JsPieces(s)));
    PairedJoin([QUOTE] + Join(JsPieces(s)), [QUOTE]);
  }

  lemma UnitJoin(u: Unit, t: Text)
    requires u < 128 && Paired(t)
    ensures Paired([u] + t)
  {
    assert ([u] + t)[1..] == t;
  }

  lemma {:induction false} ItemsArePaired(items: seq<Json>)
    requires forall i :: 0 <= i < |items| ==> Printable(items[i])
    ensures Paired(PrintItems(items))
    decreases items, 0
  {
    if items == [] {
      AsciiIsPaired([CLOSE_BRACKET]);
    } else {
      ItemsArePaired(items[1..]);
      PrintIsPaired(items[0]);
      PairedJoin(Print(items[0]), PrintItems(items[1..]));
      UnitJoin(COMMA, Print(items[0]) + PrintItems(items[1..]));
    }
  }

  lemma MemberIsPaired(key: Text, value: Text, more: Text)
    requires Paired(value) && Paired(more)
    ensures Paired(JsQuote(key) + ([COLON] + (value + more)))
  {
    QuoteIsPaired(key);
    PairedJoin(value, more);
    UnitJoin(COLON, value + more);
    PairedJoin(JsQuote(key), [COLON] + (value + more));
  }

  lemma {:induction false} MembersArePaired(members: seq<Member>)
    requires forall i :: 0 <= i < |members| ==> Printable(members[i].value)
    ensures Paired(PrintMembers(members))
    decreases members, 0
  {
    if members == [] {
      AsciiIsPaired([CLOSE_BRACE]);
    } else {
      MembersArePaired(members[1..]);
      PrintIsPaired(members[0].value);
      var key, value, more := members[0].key, Print(members[0].value), PrintMembers(members[1..]);
      MemberIsPaired(key, value, more);
      UnitJoin(COMMA, JsQuote(key) + ([COLON] + (value + more)));
    }
  }

  /** Printed JSON is well-formed UTF-16, whatever strings it holds. */
  lemma {:induction false} PrintIsPaired(v: Json)
    requires Printable(v)
    ensures Paired(Print(v))
    decreases v, 1
  {
    match v
    case Str(text) => QuoteIsPaired(text);
    case Arr(items) =>
      if items == [] {
        AsciiIsPaired(Print(v));
      } else {
        ItemsArePaired(items[1..]);
        PrintIsPaired(items[0]);
        PairedJoin(Print(items[0]), PrintItems(items[1..]));
        UnitJoin(OPEN_BRACKET, Print(items[0]) + PrintItems(items[1..]));
      }
    case Obj(members) =>
      if members == [] {
        AsciiIsPaired(Print(v));
      } else {
        MembersArePaired(members[1..]);
        PrintIsPaired(members[0].value);
        var key, value, more := members[0].key, Print(members[0].value), PrintMembers(members[1..]);
        MemberIsPaired(key, value, more);
        UnitJoin(OPEN_BRACE, JsQuote(key) + ([COLON] + (value + more)));
      }
    case _ => AsciiIsPaired(Print(v));
  }
}
