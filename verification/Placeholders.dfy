/**
 Placeholder substitution in OAS text: `_json_escape` and
 `_substitute_placeholders` of `docker/wayflow/agent_loader.py`. OAS text is
 given as UTF-16 code units; the patterns are ASCII, so this is the same as
 Python's code points.
 */
module Placeholders {
  import opened Wrappers
  import opened JsonString

  // ----------------------------------------------------- code points and units

  function Units(c: CodePoint): Text {
    if c < 0x1_0000 then [c]
    else [0xD800 + (c - 0x1_0000) / 0x400, 0xDC00 + (c - 0x1_0000) % 0x400]
  }

  function Encode16(s: seq<CodePoint>): Text {
    if s == [] then [] else Units(s[0]) + Encode16(s[1..])
  }

  function Combine(high: Unit, low: Unit): CodePoint
    requires IsHigh(high) && IsLow(low)
  {
    0x1_0000 + (high - 0xD800) * 0x400 + (low - 0xDC00)
  }

  /** Python's JSON reader turns a high surrogate followed by a low one into
      one character. */
  function Decode16(t: Text): seq<CodePoint> {
    if t == [] then []
    else if |t| >= 2 && IsHigh(t[0]) && IsLow(t[1]) then [Combine(t[0], t[1])] + Decode16(t[2..])
    else [t[0]] + Decode16(t[1..])
  }

  /** A high surrogate character directly followed by a low surrogate character.
      Such a string is legal in Python but encodes no text. */
  predicate SplitPairAt(s: seq<CodePoint>, i: nat) {
    i + 1 < |s| && IsHigh(s[i]) && IsLow(s[i + 1])
  }

  ghost predicate HasSplitPair(s: seq<CodePoint>) {
    exists i: nat :: SplitPairAt(s, i)
  }

  lemma PairUnits(c: CodePoint)
    requires c >= 0x1_0000
    ensures IsHigh(Units(c)[0]) && IsLow(Units(c)[1]) && Combine(Units(c)[0], Units(c)[1]) == c
  {
  }

  lemma FirstUnit(s: seq<CodePoint>)
    requires s != []
    ensures Encode16(s) != []
    ensures IsLow(Encode16(s)[0]) <==> IsLow(s[0])
  {
    if s[0] >= 0x1_0000 {
      PairUnits(s[0]);
    }
  }

  lemma {:induction false} DecodeLength(s: seq<CodePoint>)
    ensures |Decode16(Encode16(s))| <= |s|
    ensures HasSplitPair(s) ==> |Decode16(Encode16(s))| < |s|
    ensures !HasSplitPair(s) ==> Decode16(Encode16(s)) == s
  {
    if s != [] {
      var tail := s[1..];
      assert Encode16(s) == Units(s[0]) + Encode16(tail);
      forall i: nat | SplitPairAt(tail, i)
        ensures SplitPairAt(s, i + 1)
      {
      }
      if s[0] >= 0x1_0000 {
        DecodeLength(tail);
        PairUnits(s[0]);
        assert Encode16(s)[2..] == Encode16(tail);
        SplitPairLater(s);
      } else if SplitPairAt(s, 0) {
        SplitPairFirst(s);
        DecodeLength(tail[1..]);
      } else {
        DecodeLength(tail);
        if tail != [] {
          FirstUnit(tail);
        }
        assert Encode16(s)[1..] == Encode16(tail);
        SplitPairLater(s);
      }
    }
  }

  lemma SplitPairLater(s: seq<CodePoint>)
    requires s != [] && !SplitPairAt(s, 0)
    ensures HasSplitPair(s) <==> HasSplitPair(s[1..])
  {
    if i: nat :| SplitPairAt(s, i) {
      assert SplitPairAt(s[1..], i - 1);
    }
    if i: nat :| SplitPairAt(s[1..], i) {
      assert SplitPairAt(s, i + 1);
    }
  }

  lemma SplitPairFirst(s: seq<CodePoint>)
    requires SplitPairAt(s, 0)
    ensures Decode16(Encode16(s)) == [Combine(s[0], s[1])] + Decode16(Encode16(s[2..]))
    ensures s[1..][1..] == s[2..]
  {
    assert s[1..][1..] == s[2..];
    assert Encode16(s) == [s[0]] + ([s[1]] + Encode16(s[2..]));
    assert Encode16(s)[2..] == Encode16(s[2..]);
  }

  // ------------------------------------------------------------ _json_escape

  function PyPiece(u: Unit): Text {
    if ShortLetter(u).Some? then [BACKSLASH, ShortLetter(u).value]
    else if 0x20 <= u <= 0x7E then [u]
    else HexEscape(u)
  }

  function PyPieces(t: Text): seq<Text> {
    seq(|t|, i requires 0 <= i < |t| => PyPiece(t[i]))
  }

  lemma PyPieceSpells(u: Unit)
    ensures Spells(PyPiece(u), u)
  {
    HexRoundTrip(u);
  }

  lemma PyPiecesSpell(t: Text)
    ensures SpellsAll(PyPieces(t), t)
  {
    forall i | 0 <= i < |t|
      ensures Spells(PyPieces(t)[i], t[i])
    {
      PyPieceSpells(t[i]);
    }
  }

  function JsonEscape(s: seq<CodePoint>): Text {
    Join(PyPieces(Encode16(s)))
  }

  /** What Python's JSON reader makes of an ASCII string body. */
  function PyReadBody(t: Text): Option<(seq<CodePoint>, Text)> {
    var r := ReadBody(t);
    if r.None? then None else Some((Decode16(r.value.0), r.value.1))
  }

  /** The quoted output of `_json_escape` is always one complete string
      literal, and reads back as the original string exactly when no high
      surrogate character stands directly before a low one. */
  lemma EscapeRoundTrip(s: seq<CodePoint>, rest: Text)
    ensures var r := PyReadBody(JsonEscape(s) + [QUOTE] + rest);
            && r.Some? && r.value.1 == rest
            && (r.value.0 == s <==> !HasSplitPair(s))
  {
    PyPiecesSpell(Encode16(s));
    BodyIsRead(PyPieces(Encode16(s)), Encode16(s), rest);
    DecodeLength(s);
  }

  /** What `os.environ` can hold: decoded UTF-8, and a lone surrogate of
      U+DC80-U+DCFF for each byte that is none. */
  predicate IsEnvironmentText(s: seq<CodePoint>) {
    forall i :: 0 <= i < |s| ==> !IsHigh(s[i]) && (IsLow(s[i]) ==> 0xDC80 <= s[i] <= 0xDCFF)
  }

  /** For every value the loader can substitute, the quoted output reads back as
      the value. */
  lemma EnvironmentRoundTrip(s: seq<CodePoint>, rest: Text)
    requires IsEnvironmentText(s)
    ensures PyReadBody(JsonEscape(s) + [QUOTE] + rest) == Some((s, rest))
  {
    EscapeRoundTrip(s, rest);
    assert forall i: nat :: !SplitPairAt(s, i);
  }

  // ------------------------------------------------------------- string bodies

  /** A run of complete characters: no bare quote, no control character, no
      escape cut short. */
  predicate ValidBody(t: Text)
    decreases |t|
  {
    t == [] || (ReadItem(t).Some? && ValidBody(t[ReadItem(t).value.1..]))
  }

  predicate Plain(u: Unit) {
    u >= 0x20 && u != QUOTE && u != BACKSLASH
  }

  lemma ReadItemLocal(t: Text, rest: Text)
    requires ReadItem(t).Some?
    ensures ReadItem(t + rest) == ReadItem(t)
  {
  }

  lemma ItemFirst(t: Text, n: nat, rest: Text)
    requires ReadItem(t).Some? && ReadItem(t).value.1 == n && t[n..] == rest && ValidBody(rest)
    ensures ValidBody(t)
  {
  }

  lemma DropInFront(a: Text, b: Text, n: nat)
    requires n <= |a|
    ensures (a + b)[n..] == a[n..] + b
  {
  }

  lemma {:induction false} BodiesJoin(a: Text, b: Text)
    requires ValidBody(a) && ValidBody(b)
    ensures ValidBody(a + b)
    decreases |a|
  {
    if a == [] {
      assert a + b == b;
    } else {
      var n := ReadItem(a).value.1;
      ReadItemLocal(a, b);
      BodiesJoin(a[n..], b);
      DropInFront(a, b, n);
      ItemFirst(a + b, n, a[n..] + b);
    }
  }

  /** The literal ends at the quote after a valid body, whatever follows. */
  lemma {:induction false} BodyEnds(t: Text, rest: Text)
    requires ValidBody(t)
    ensures ReadBody(t + ([QUOTE] + rest)).Some? && ReadBody(t + ([QUOTE] + rest)).value.1 == rest
    decreases |t|
  {
    if t == [] {
      assert t + ([QUOTE] + rest) == [QUOTE] + rest;
      assert ([QUOTE] + rest)[1..] == rest;
    } else {
      var n := ReadItem(t).value.1;
      ReadItemLocal(t, [QUOTE] + rest);
      BodyEnds(t[n..], rest);
      assert (t + ([QUOTE] + rest))[n..] == t[n..] + ([QUOTE] + rest);
    }
  }

  lemma {:induction false} PiecesAreValid(t: Text)
    ensures ValidBody(Join(PyPieces(t)))
  {
    if t != [] {
      PiecesAreValid(t[1..]);
      assert PyPieces(t)[1..] == PyPieces(t[1..]);
      PyPieceSpells(t[0]);
      PieceIsValid(PyPiece(t[0]), t[0]);
      BodiesJoin(PyPiece(t[0]), Join(PyPieces(t[1..])));
    }
  }

  lemma PieceIsValid(piece: Text, u: Unit)
    requires Spells(piece, u)
    ensures ValidBody(piece)
  {
    PieceIsRead(piece, u, []);
    assert piece + [] == piece;
  }

  lemma {:induction false} PlainPrefix(t: Text, n: nat)
    requires ValidBody(t) && n <= |t|
    requires forall i :: 0 <= i < n ==> Plain(t[i])
    ensures ValidBody(t[n..])
  {
    if n > 0 {
      PlainPrefix(t[1..], n - 1);
      assert t[1..][n - 1..] == t[n..];
    }
  }

  // ------------------------------------------------------------- substitution

  const OPEN: Unit := 0x7B
  const CLOSE: Unit := 0x7D

  predicate NameStart(u: Unit) { 0x41 <= u <= 0x5A || u == 0x5F }
  predicate NamePart(u: Unit) { NameStart(u) || 0x30 <= u <= 0x39 }

  function NameRun(t: Text): (n: nat)
    ensures n <= |t|
    ensures forall i :: 0 <= i < n ==> NamePart(t[i])
    ensures n < |t| ==> !NamePart(t[n])
  {
    if t == [] || !NamePart(t[0]) then 0 else 1 + NameRun(t[1..])
  }

  /** The pattern `{{NAME}}` at the start of the text: its length. */
  function PlaceholderAt(t: Text): (n: nat)
    ensures n > 0 ==> 5 <= n <= |t| && t[0] == OPEN && forall i :: 0 <= i < n ==> Plain(t[i])
  {
    if |t| < 5 || t[0] != OPEN || t[1] != OPEN || !NameStart(t[2]) then 0
    else
      var run := NameRun(t[2..]);
      if run + 4 <= |t| && t[run + 2] == CLOSE && t[run + 3] == CLOSE then run + 4 else 0
  }

  /** A rewriting rule looks at the start of a text: how much it replaces (0 for
      no match) and by what. */
  type Rule = Text -> (nat, Text)

  /** Left to right, without overlaps, never looking at replaced text again. */
  function Rewrite(rule: Rule, t: Text): Text
    decreases |t|
  {
    if t == [] then []
    else
      var (n, text) := rule(t);
      if 0 < n <= |t| then text + Rewrite(rule, t[n..]) else [t[0]] + Rewrite(rule, t[1..])
  }

  const BASE_PATTERN: Text := Ascii("{{CINATRA_BASE_URL}}")

  /** `str.replace` of the base URL placeholder. */
  function BaseRule(base: seq<CodePoint>): Rule {
    (t: Text) => if BASE_PATTERN <= t then (|BASE_PATTERN|, JsonEscape(base)) else (0, [])
  }

  /** `re.sub` over the environment: an undefined name is left as it is. */
  function EnvRule(env: map<Text, seq<CodePoint>>): Rule {
    (t: Text) =>
      var n := PlaceholderAt(t);
      if n == 0 then (0, [])
      else
        var name := t[2..n - 2];
        (n, if name in env then JsonEscape(env[name]) else t[..n])
  }

  function Substitute(base: seq<CodePoint>, env: map<Text, seq<CodePoint>>, content: Text): Text {
    Rewrite(EnvRule(env), Rewrite(BaseRule(base), content))
  }

  /** A match replaces whole plain characters, starting at a brace, by a valid body. */
  ghost predicate SoundAt(rule: Rule, t: Text) {
    && rule(t).0 <= |t|
    && (0 < rule(t).0 ==> t[0] == OPEN && ValidBody(rule(t).1) && forall i :: 0 <= i < rule(t).0 ==> Plain(t[i]))
  }

  /** A rule does not look past a quote. */
  predicate LocalAt(rule: Rule, t: Text, rest: Text) {
    t != [] ==> rule(t + ([QUOTE] + rest)) == rule(t)
  }

  ghost predicate Safe(rule: Rule) {
    && (forall t :: SoundAt(rule, t))
    && (forall t, rest :: LocalAt(rule, t, rest))
  }

  lemma PrefixIsLocal(pattern: Text, t: Text, rest: Text)
    requires QUOTE !in pattern
    ensures pattern <= t + ([QUOTE] + rest) <==> pattern <= t
  {
    var long := t + ([QUOTE] + rest);
    assert long[|t|] == QUOTE && t <= long;
    if pattern <= long && |t| < |pattern| {
      assert false;
    }
  }

  lemma BasePatternIsPlain()
    ensures |BASE_PATTERN| == 20 && BASE_PATTERN[0] == OPEN
    ensures forall i :: 0 <= i < |BASE_PATTERN| ==> Plain(BASE_PATTERN[i])
  {
  }

  lemma BaseRuleIsSafe(base: seq<CodePoint>)
    ensures Safe(BaseRule(base))
  {
    PiecesAreValid(Encode16(base));
    BasePatternIsPlain();
    var rule := BaseRule(base);
    forall t
      ensures SoundAt(rule, t)
    {
      if BASE_PATTERN <= t {
        assert forall i :: 0 <= i < |BASE_PATTERN| ==> t[i] == BASE_PATTERN[i];
      }
    }
    forall t, rest
      ensures LocalAt(rule, t, rest)
    {
      PrefixIsLocal(BASE_PATTERN, t, rest);
    }
  }

  lemma PlaceholderLocal(t: Text, rest: Text)
    requires t != []
    ensures PlaceholderAt(t + ([QUOTE] + rest)) == PlaceholderAt(t)
  {
    var long := t + ([QUOTE] + rest);
    assert long[|t|] == QUOTE && !Plain(QUOTE);
    assert forall i :: 0 <= i < |t| ==> long[i] == t[i];
    if |t| >= 2 {
      NameRunLocal(t[2..], rest);
      assert long[2..] == t[2..] + ([QUOTE] + rest);
    }
  }

  lemma {:induction false} NameRunLocal(t: Text, rest: Text)
    ensures NameRun(t + ([QUOTE] + rest)) == NameRun(t)
  {
    if t == [] {
      assert t + ([QUOTE] + rest) == [QUOTE] + rest;
    } else {
      NameRunLocal(t[1..], rest);
      assert (t + ([QUOTE] + rest))[1..] == t[1..] + ([QUOTE] + rest);
    }
  }

  lemma {:induction false} PlainIsValid(t: Text)
    requires forall i :: 0 <= i < |t| ==> Plain(t[i])
    ensures ValidBody(t)
  {
    if t != [] {
      PlainIsValid(t[1..]);
    }
  }

  lemma EnvRuleIsSound(env: map<Text, seq<CodePoint>>, t: Text)
    ensures SoundAt(EnvRule(env), t)
  {
    var n := PlaceholderAt(t);
    if n > 0 {
      var name := t[2..n - 2];
      if name in env {
        PiecesAreValid(Encode16(env[name]));
      } else {
        PlainIsValid(t[..n]);
      }
    }
  }

  lemma EnvRuleIsLocal(env: map<Text, seq<CodePoint>>, t: Text, rest: Text)
    ensures LocalAt(EnvRule(env), t, rest)
  {
    if t != [] {
      PlaceholderLocal(t, rest);
      var n := PlaceholderAt(t);
      if n > 0 {
        assert (t + ([QUOTE] + rest))[2..n - 2] == t[2..n - 2];
        assert (t + ([QUOTE] + rest))[..n] == t[..n];
      }
    }
  }

  lemma EnvRuleIsSafe(env: map<Text, seq<CodePoint>>)
    ensures Safe(EnvRule(env))
  {
    forall t
      ensures SoundAt(EnvRule(env), t)
    {
      EnvRuleIsSound(env, t);
    }
    forall t, rest
      ensures LocalAt(EnvRule(env), t, rest)
    {
      EnvRuleIsLocal(env, t, rest);
    }
  }

  // ---------------------------------------------- what substitution preserves

  lemma RewriteStep(rule: Rule, t: Text)
    requires t != [] && rule(t).0 <= |t|
    ensures rule(t).0 == 0 ==> Rewrite(rule, t) == [t[0]] + Rewrite(rule, t[1..])
    ensures rule(t).0 > 0 ==> Rewrite(rule, t) == rule(t).1 + Rewrite(rule, t[rule(t).0..])
  {
  }

  lemma CopiesOne(rule: Rule, t: Text)
    requires t != [] && t[0] != OPEN && SoundAt(rule, t)
    ensures Rewrite(rule, t) == [t[0]] + Rewrite(rule, t[1..])
  {
    RewriteStep(rule, t);
  }

  lemma TakeOneMore(t: Text, n: nat, rest: Text)
    requires 0 < n <= |t|
    ensures t[1..][n - 1..] == t[n..]
    ensures [t[0]] + (t[1..][..n - 1] + rest) == t[..n] + rest
  {
    assert t[..n] == [t[0]] + t[1..][..n - 1];
  }

  /** A rule that matches nowhere in the first characters copies them. */
  lemma {:induction false} CopiesUnmatched(rule: Rule, t: Text, n: nat)
    requires Safe(rule) && n <= |t|
    requires forall i :: 0 <= i < n ==> t[i] != OPEN
    ensures Rewrite(rule, t) == t[..n] + Rewrite(rule, t[n..])
  {
    if n == 0 {
      assert t[0..] == t;
    } else {
      assert SoundAt(rule, t);
      CopiesOne(rule, t);
      CopiesUnmatched(rule, t[1..], n - 1);
      TakeOneMore(t, n, Rewrite(rule, t[n..]));
    }
  }

  /** A character written as an escape holds no brace. */
  lemma EscapeHasNoBrace(t: Text)
    requires ReadItem(t).Some? && t[0] == BACKSLASH
    ensures forall i :: 0 <= i < ReadItem(t).value.1 ==> t[i] != OPEN
  {
  }

  /** Rewriting keeps a string body a string body. */
  lemma {:induction false} RewriteKeepsBodies(rule: Rule, t: Text)
    requires Safe(rule) && ValidBody(t)
    ensures ValidBody(Rewrite(rule, t))
    decreases |t|
  {
    if t != [] {
      assert SoundAt(rule, t);
      var n := rule(t).0;
      RewriteStep(rule, t);
      if 0 < n {
        PlainPrefix(t, n);
        RewriteKeepsBodies(rule, t[n..]);
        BodiesJoin(rule(t).1, Rewrite(rule, t[n..]));
      } else {
        CopiesItem(rule, t);
        var k := ReadItem(t).value.1;
        RewriteKeepsBodies(rule, t[k..]);
        ItemIsBody(t);
        BodiesJoin(t[..k], Rewrite(rule, t[k..]));
      }
    }
  }

  /** Where nothing matches, the next character is copied whole. */
  lemma CopiesItem(rule: Rule, t: Text)
    requires Safe(rule) && ReadItem(t).Some? && rule(t).0 == 0
    ensures var k := ReadItem(t).value.1; Rewrite(rule, t) == t[..k] + Rewrite(rule, t[k..])
  {
    if t[0] == BACKSLASH {
      EscapeHasNoBrace(t);
      CopiesUnmatched(rule, t, ReadItem(t).value.1);
    } else {
      assert SoundAt(rule, t);
      RewriteStep(rule, t);
    }
  }

  lemma ItemIsBody(t: Text)
    requires ReadItem(t).Some?
    ensures ValidBody(t[..ReadItem(t).value.1])
  {
    var k := ReadItem(t).value.1;
    assert ReadItem(t[..k]) == ReadItem(t);
    assert t[..k][k..] == [];
  }

  lemma QuoteIsCopied(rule: Rule, b: Text)
    requires SoundAt(rule, [QUOTE] + b)
    ensures Rewrite(rule, [QUOTE] + b) == [QUOTE] + Rewrite(rule, b)
  {
    RewriteStep(rule, [QUOTE] + b);
    assert ([QUOTE] + b)[1..] == b;
  }

  /** How much one step of rewriting takes, and what it writes for it. */
  function Taken(rule: Rule, t: Text): nat { if 0 < rule(t).0 then rule(t).0 else 1 }

  function Written(rule: Rule, t: Text): Text
    requires t != []
  {
    if 0 < rule(t).0 then rule(t).1 else [t[0]]
  }

  lemma OneStep(rule: Rule, t: Text)
    requires t != [] && rule(t).0 <= |t|
    ensures Taken(rule, t) <= |t| && Rewrite(rule, t) == Written(rule, t) + Rewrite(rule, t[Taken(rule, t)..])
  {
    RewriteStep(rule, t);
  }

  /** The step is the same with and without what follows the quote. */
  lemma StepIsLocal(rule: Rule, a: Text, t: Text, rest: Text)
    requires a != [] && t == a + rest && rule(t) == rule(a) && rule(a).0 <= |a|
    ensures Taken(rule, t) == Taken(rule, a) <= |a| && Written(rule, t) == Written(rule, a)
    ensures t[Taken(rule, a)..] == a[Taken(rule, a)..] + rest
  {
  }

  /** A quote splits the document: both sides are rewritten on their own. */
  lemma {:induction false} RewriteSplits(rule: Rule, a: Text, b: Text)
    requires Safe(rule)
    ensures Rewrite(rule, a + ([QUOTE] + b)) == Rewrite(rule, a) + ([QUOTE] + Rewrite(rule, b))
    decreases |a|
  {
    assert SoundAt(rule, a + ([QUOTE] + b));
    if a == [] {
      assert a + ([QUOTE] + b) == [QUOTE] + b;
      QuoteIsCopied(rule, b);
    } else {
      assert SoundAt(rule, a) && LocalAt(rule, a, b);
      var rest := [QUOTE] + b;
      StepIsLocal(rule, a, a + rest, rest);
      OneStep(rule, a);
      OneStep(rule, a + rest);
      var k := Taken(rule, a);
      RewriteSplits(rule, a[k..], b);
      Regroup(Written(rule, a), Rewrite(rule, a[k..]), [QUOTE] + Rewrite(rule, b));
    }
  }

  lemma Regroup(a: Text, b: Text, c: Text)
    ensures a + (b + c) == (a + b) + c
  {
  }

  /** Whatever the environment holds, substitution never moves the end of a
      string literal: the literal that held `body` is still one literal, and it
      is followed by the substituted rest of the document. Both passes count,
      the second one over text the first has already substituted. */
  lemma LiteralsStayClosed(base: seq<CodePoint>, env: map<Text, seq<CodePoint>>, before: Text, body: Text, after: Text)
    requires ValidBody(body)
    ensures var out := Substitute(base, env, body);
            && ValidBody(out)
            && var follows := Substitute(base, env, after);
            && Substitute(base, env, before + ([QUOTE] + (body + ([QUOTE] + after))))
               == Substitute(base, env, before) + ([QUOTE] + (out + ([QUOTE] + follows)))
            && ReadBody(out + ([QUOTE] + follows)).Some?
            && ReadBody(out + ([QUOTE] + follows)).value.1 == follows
  {
    BaseRuleIsSafe(base);
    EnvRuleIsSafe(env);
    var first, second := BaseRule(base), EnvRule(env);
    RewriteKeepsBodies(first, body);
    RewriteKeepsBodies(second, Rewrite(first, body));
    SplitsTwice(first, before, body, after);
    SplitsTwice(second, Rewrite(first, before), Rewrite(first, body), Rewrite(first, after));
    BodyEnds(Substitute(base, env, body), Substitute(base, env, after));
  }

  lemma SplitsTwice(rule: Rule, a: Text, b: Text, c: Text)
    requires Safe(rule)
    ensures Rewrite(rule, a + ([QUOTE] + (b + ([QUOTE] + c))))
         == Rewrite(rule, a) + ([QUOTE] + (Rewrite(rule, b) + ([QUOTE] + Rewrite(rule, c))))
  {
    RewriteSplits(rule, a, b + ([QUOTE] + c));
    RewriteSplits(rule, b, c);
  }

  // ------------------------------------------------------ what it substitutes

  /** What a string body stands for. */
  function TextOf(body: Text): Text
    requires ValidBody(body)
    decreases |body|
  {
    if body == [] then []
    else [ReadItem(body).value.0] + TextOf(body[ReadItem(body).value.1..])
  }

  lemma {:induction false} TextOfIsRead(body: Text, rest: Text)
    requires ValidBody(body)
    ensures ReadBody(body + ([QUOTE] + rest)) == Some((TextOf(body), rest))
    decreases |body|
  {
    if body == [] {
      assert body + ([QUOTE] + rest) == [QUOTE] + rest;
      assert ([QUOTE] + rest)[1..] == rest;
    } else {
      var n := ReadItem(body).value.1;
      ReadItemLocal(body, [QUOTE] + rest);
      TextOfIsRead(body[n..], rest);
      assert (body + ([QUOTE] + rest))[n..] == body[n..] + ([QUOTE] + rest);
    }
  }

  lemma TextOfItem(t: Text, u: Unit, n: nat, rest: Text)
    requires ReadItem(t) == Some((u, n)) && t[n..] == rest && ValidBody(rest)
    ensures ValidBody(t) && TextOf(t) == [u] + TextOf(rest)
  {
  }

  lemma {:induction false} TextOfJoin(a: Text, b: Text)
    requires ValidBody(a) && ValidBody(b)
    ensures ValidBody(a + b) && TextOf(a + b) == TextOf(a) + TextOf(b)
    decreases |a|
  {
    BodiesJoin(a, b);
    if a == [] {
      assert a + b == b;
    } else {
      var (u, n) := ReadItem(a).value;
      ReadItemLocal(a, b);
      DropInFront(a, b, n);
      TextOfJoin(a[n..], b);
      TextOfItem(a + b, u, n, a[n..] + b);
      TextOfItem(a, u, n, a[n..]);
      Regroup([u], TextOf(a[n..]), TextOf(b));
    }
  }

  lemma TextOfEscape(s: seq<CodePoint>)
    ensures ValidBody(JsonEscape(s)) && TextOf(JsonEscape(s)) == Encode16(s)
  {
    PiecesAreValid(Encode16(s));
    TextOfIsRead(JsonEscape(s), []);
    PyPiecesSpell(Encode16(s));
    BodyIsRead(PyPieces(Encode16(s)), Encode16(s), []);
    assert JsonEscape(s) + ([QUOTE] + []) == JsonEscape(s) + [QUOTE] + [];
  }

  predicate IsName(name: Text) {
    name != [] && NameStart(name[0]) && forall i :: 0 <= i < |name| ==> NamePart(name[i])
  }

  function Placeholder(name: Text): Text {
    [OPEN, OPEN] + name + [CLOSE, CLOSE]
  }

  lemma {:induction false} NameRunOf(name: Text, rest: Text)
    requires forall i :: 0 <= i < |name| ==> NamePart(name[i])
    ensures NameRun(name + ([CLOSE, CLOSE] + rest)) == |name|
  {
    if name == [] {
      assert (name + ([CLOSE, CLOSE] + rest))[0] == CLOSE;
    } else {
      assert (name + ([CLOSE, CLOSE] + rest))[1..] == name[1..] + ([CLOSE, CLOSE] + rest);
      NameRunOf(name[1..], rest);
    }
  }

  lemma PlaceholderIsSeen(name: Text, rest: Text)
    requires IsName(name)
    ensures PlaceholderAt(Placeholder(name) + rest) == |name| + 4
    ensures (Placeholder(name) + rest)[2..|name| + 2] == name
    ensures (Placeholder(name) + rest)[..|name| + 4] == Placeholder(name)
    ensures (Placeholder(name) + rest)[|name| + 4..] == rest
  {
    var t := Placeholder(name) + rest;
    assert t[2..] == name + ([CLOSE, CLOSE] + rest);
    NameRunOf(name, rest);
    assert t[2] == name[0];
  }

  lemma FirstMatch(rule: Rule, before: Text, mark: Text, text: Text, after: Text)
    requires Safe(rule) && mark != [] && rule(mark + after) == (|mark|, text)
    requires forall i :: 0 <= i < |before| ==> before[i] != OPEN
    ensures Rewrite(rule, before + (mark + after)) == before + (text + Rewrite(rule, after))
  {
    var tail := mark + after;
    var t := before + tail;
    CopiesUnmatched(rule, t, |before|);
    assert t[|before|..] == tail && t[..|before|] == before;
    assert tail[|mark|..] == after;
    assert SoundAt(rule, tail);
    RewriteStep(rule, tail);
  }

  /** The value of a variable, escaped, or the placeholder itself. */
  function Inserted(env: map<Text, seq<CodePoint>>, name: Text): Text {
    if name in env then JsonEscape(env[name]) else Placeholder(name)
  }

  lemma EnvMatch(env: map<Text, seq<CodePoint>>, name: Text, after: Text)
    requires IsName(name)
    ensures EnvRule(env)(Placeholder(name) + after) == (|Placeholder(name)|, Inserted(env, name))
  {
    PlaceholderIsSeen(name, after);
  }

  /** The first placeholder of a text is replaced by the escaped value of its
      variable, or kept as it stands if there is no such variable; what follows
      is rewritten on its own. */
  lemma PlaceholderIsReplaced(env: map<Text, seq<CodePoint>>, before: Text, name: Text, after: Text)
    requires IsName(name) && forall i :: 0 <= i < |before| ==> before[i] != OPEN
    ensures Rewrite(EnvRule(env), before + (Placeholder(name) + after))
         == before + (Inserted(env, name) + Rewrite(EnvRule(env), after))
  {
    EnvRuleIsSafe(env);
    EnvMatch(env, name, after);
    FirstMatch(EnvRule(env), before, Placeholder(name), Inserted(env, name), after);
  }

  /** The same for the base URL, in the first pass. */
  lemma BaseIsReplaced(base: seq<CodePoint>, before: Text, after: Text)
    requires forall i :: 0 <= i < |before| ==> before[i] != OPEN
    ensures Rewrite(BaseRule(base), before + (BASE_PATTERN + after))
         == before + (JsonEscape(base) + Rewrite(BaseRule(base), after))
  {
    BaseRuleIsSafe(base);
    BasePatternIsPlain();
    FirstMatch(BaseRule(base), before, BASE_PATTERN, JsonEscape(base), after);
  }

  // ---------------------------------------------------------- whole templates

  /** OAS text taken apart: placeholders, and what stands between them. */
  datatype Piece = Lit(text: Text) | Var(name: Text)

  /** No opening brace of the text stands before another one, or at its end. The
      braces of JSON objects never do. */
  predicate Loose(text: Text) {
    forall i :: 0 <= i < |text| && text[i] == OPEN ==> i + 1 < |text| && text[i + 1] != OPEN
  }

  predicate IsTemplate(pieces: seq<Piece>) {
    forall i :: 0 <= i < |pieces| ==>
      match pieces[i]
      case Lit(text) => Loose(text)
      case Var(name) => IsName(name)
  }

  function SourceOf(p: Piece): Text {
    match p
    case Lit(text) => text
    case Var(name) => Placeholder(name)
  }

  function Source(pieces: seq<Piece>): Text {
    if pieces == [] then [] else SourceOf(pieces[0]) + Source(pieces[1..])
  }

  const BASE_NAME: Text := Ascii("CINATRA_BASE_URL")

  lemma BaseNameIsName()
    ensures IsName(BASE_NAME) && Placeholder(BASE_NAME) == BASE_PATTERN
  {
  }

  /** The values filled in: the base URL first, then the environment. */
  function FilledPiece(base: seq<CodePoint>, env: map<Text, seq<CodePoint>>, p: Piece): Text {
    match p
    case Lit(text) => text
    case Var(name) => if name == BASE_NAME then JsonEscape(base) else Inserted(env, name)
  }

  function Filled(base: seq<CodePoint>, env: map<Text, seq<CodePoint>>, pieces: seq<Piece>): Text {
    if pieces == [] then [] else FilledPiece(base, env, pieces[0]) + Filled(base, env, pieces[1..])
  }

  /** The template after the first pass. */
  function WithBase(base: seq<CodePoint>, pieces: seq<Piece>): seq<Piece> {
    if pieces == [] then []
    else [if pieces[0] == Var(BASE_NAME) then Lit(JsonEscape(base)) else pieces[0]] + WithBase(base, pieces[1..])
  }

  /** A match begins with two opening braces. */
  ghost predicate StartsWithTwo(rule: Rule) {
    forall t :: rule(t).0 > 0 ==> |t| >= 2 && t[0] == OPEN && t[1] == OPEN
  }

  lemma BothStartWithTwo(base: seq<CodePoint>, env: map<Text, seq<CodePoint>>)
    ensures StartsWithTwo(BaseRule(base)) && StartsWithTwo(EnvRule(env))
  {
    BasePatternIsPlain();
    assert BASE_PATTERN[1] == OPEN;
  }

  lemma NoMatchHere(rule: Rule, t: Text)
    requires StartsWithTwo(rule) && t != [] && !(|t| >= 2 && t[0] == OPEN && t[1] == OPEN)
    ensures rule(t).0 == 0 && Rewrite(rule, t) == [t[0]] + Rewrite(rule, t[1..])
  {
    assert rule(t).0 == 0;
  }

  lemma HeadAndTail(text: Text, rest: Text)
    requires text != []
    ensures (text + rest)[0] == text[0] && (text + rest)[1..] == text[1..] + rest
    ensures [text[0]] + (text[1..] + rest) == text + rest
  {
  }

  lemma {:induction false} LiteralIsCopied(rule: Rule, text: Text, rest: Text)
    requires StartsWithTwo(rule) && Loose(text)
    ensures Rewrite(rule, text + rest) == text + Rewrite(rule, rest)
  {
    if text == [] {
      assert text + rest == rest && text + Rewrite(rule, rest) == Rewrite(rule, rest);
    } else {
      HeadAndTail(text, rest);
      HeadAndTail(text, Rewrite(rule, rest));
      NoMatchHere(rule, text + rest);
      LiteralIsCopied(rule, text[1..], rest);
    }
  }

  lemma PlaceholderIsFilled(env: map<Text, seq<CodePoint>>, name: Text, rest: Text)
    requires IsName(name)
    ensures Rewrite(EnvRule(env), Placeholder(name) + rest) == Inserted(env, name) + Rewrite(EnvRule(env), rest)
  {
    PlaceholderIsReplaced(env, [], name, rest);
    assert [] + (Placeholder(name) + rest) == Placeholder(name) + rest;
    assert [] + (Inserted(env, name) + Rewrite(EnvRule(env), rest))
        == Inserted(env, name) + Rewrite(EnvRule(env), rest);
  }

  lemma {:induction false} EnvPass(env: map<Text, seq<CodePoint>>, pieces: seq<Piece>, base: seq<CodePoint>)
    requires IsTemplate(pieces) && Var(BASE_NAME) !in pieces
    ensures Rewrite(EnvRule(env), Source(pieces)) == Filled(base, env, pieces)
  {
    if pieces != [] {
      assert pieces[0] in pieces;
      EnvPass(env, pieces[1..], base);
      match pieces[0]
      case Lit(text) =>
        BothStartWithTwo(base, env);
        LiteralIsCopied(EnvRule(env), text, Source(pieces[1..]));
      case Var(name) => PlaceholderIsFilled(env, name, Source(pieces[1..]));
    }
  }

  /** The first pass leaves every other placeholder as it stands. */
  lemma OtherIsNotBase(name: Text, rest: Text)
    requires IsName(name) && name != BASE_NAME
    ensures !(BASE_PATTERN <= Placeholder(name) + rest)
    ensures !(BASE_PATTERN <= (Placeholder(name) + rest)[1..])
  {
    var t := Placeholder(name) + rest;
    BasePatternIsPlain();
    BaseNameIsName();
    if BASE_PATTERN <= t {
      PlaceholderIsSeen(name, rest);
      assert t == BASE_PATTERN + t[20..];
      PlaceholderIsSeen(BASE_NAME, t[20..]);
    }
    assert t[2] == name[0] && BASE_PATTERN[1] == OPEN;
  }

  lemma TwoAreCopied(rule: Rule, u: Text)
    requires rule([OPEN, OPEN] + u).0 == 0 && rule([OPEN] + u).0 == 0
    ensures Rewrite(rule, [OPEN, OPEN] + u) == [OPEN, OPEN] + Rewrite(rule, u)
  {
    assert ([OPEN, OPEN] + u)[1..] == [OPEN] + u && ([OPEN] + u)[1..] == u;
    RewriteStep(rule, [OPEN, OPEN] + u);
    RewriteStep(rule, [OPEN] + u);
  }

  lemma PlaceholderParts(name: Text, rest: Text)
    ensures Placeholder(name) + rest == [OPEN, OPEN] + ((name + [CLOSE, CLOSE]) + rest)
    ensures (Placeholder(name) + rest)[1..] == [OPEN] + ((name + [CLOSE, CLOSE]) + rest)
  {
  }

  lemma NoBraceIsLoose(name: Text)
    requires IsName(name)
    ensures Loose(name + [CLOSE, CLOSE])
  {
  }

  lemma OtherIsCopied(base: seq<CodePoint>, name: Text, rest: Text)
    requires IsName(name) && name != BASE_NAME
    ensures Rewrite(BaseRule(base), Placeholder(name) + rest) == Placeholder(name) + Rewrite(BaseRule(base), rest)
  {
    var rule, tail := BaseRule(base), name + [CLOSE, CLOSE];
    OtherIsNotBase(name, rest);
    PlaceholderParts(name, rest);
    PlaceholderParts(name, Rewrite(rule, rest));
    TwoAreCopied(rule, tail + rest);
    BothStartWithTwo(base, map[]);
    NoBraceIsLoose(name);
    LiteralIsCopied(rule, tail, rest);
  }

  lemma BaseIsFilled(base: seq<CodePoint>, rest: Text)
    ensures Rewrite(BaseRule(base), Placeholder(BASE_NAME) + rest) == JsonEscape(base) + Rewrite(BaseRule(base), rest)
  {
    BaseNameIsName();
    BaseIsReplaced(base, [], rest);
    assert [] + (BASE_PATTERN + rest) == BASE_PATTERN + rest;
    assert [] + (JsonEscape(base) + Rewrite(BaseRule(base), rest)) == JsonEscape(base) + Rewrite(BaseRule(base), rest);
  }

  lemma {:induction false} BasePass(base: seq<CodePoint>, pieces: seq<Piece>)
    requires IsTemplate(pieces)
    ensures Rewrite(BaseRule(base), Source(pieces)) == Source(WithBase(base, pieces))
  {
    if pieces != [] {
      var rest := Source(pieces[1..]);
      BasePass(base, pieces[1..]);
      assert WithBase(base, pieces)[1..] == WithBase(base, pieces[1..]);
      match pieces[0]
      case Lit(text) =>
        BothStartWithTwo(base, map[]);
        LiteralIsCopied(BaseRule(base), text, rest);
      case Var(name) =>
        if name == BASE_NAME {
          BaseIsFilled(base, rest);
        } else {
          OtherIsCopied(base, name, rest);
        }
    }
  }

  lemma {:induction false} WithBaseIsTemplate(base: seq<CodePoint>, env: map<Text, seq<CodePoint>>, pieces: seq<Piece>)
    requires IsTemplate(pieces) && Loose(JsonEscape(base))
    ensures IsTemplate(WithBase(base, pieces)) && Var(BASE_NAME) !in WithBase(base, pieces)
    ensures Filled(base, env, WithBase(base, pieces)) == Filled(base, env, pieces)
  {
    if pieces != [] {
      WithBaseIsTemplate(base, env, pieces[1..]);
      assert WithBase(base, pieces)[1..] == WithBase(base, pieces[1..]);
    }
  }

  /** Both passes over a text with any number of placeholders: each of them is
      filled in, the base URL, a defined variable, or itself; nothing else changes. (A
      base URL that holds two opening braces in a row would be searched again.) */
  lemma TemplateIsFilled(base: seq<CodePoint>, env: map<Text, seq<CodePoint>>, pieces: seq<Piece>)
    requires IsTemplate(pieces) && Loose(JsonEscape(base))
    ensures Substitute(base, env, Source(pieces)) == Filled(base, env, pieces)
  {
    BasePass(base, pieces);
    WithBaseIsTemplate(base, env, pieces);
    EnvPass(env, WithBase(base, pieces), base);
  }

  /** The string a literal part stands for, and the value for a placeholder. */
  function FilledText(base: seq<CodePoint>, env: map<Text, seq<CodePoint>>, p: Piece): Text
    requires p.Lit? ==> ValidBody(p.text)
  {
    match p
    case Lit(text) => TextOf(text)
    case Var(name) =>
      if name == BASE_NAME then Encode16(base) else if name in env then Encode16(env[name]) else Placeholder(name)
  }

  function FilledTexts(base: seq<CodePoint>, env: map<Text, seq<CodePoint>>, pieces: seq<Piece>): Text
    requires forall i :: 0 <= i < |pieces| && pieces[i].Lit? ==> ValidBody(pieces[i].text)
  {
    if pieces == [] then [] else FilledText(base, env, pieces[0]) + FilledTexts(base, env, pieces[1..])
  }

  lemma {:induction false} PlainText(t: Text)
    requires forall i :: 0 <= i < |t| ==> Plain(t[i])
    ensures ValidBody(t) && TextOf(t) == t
  {
    if t != [] {
      PlainText(t[1..]);
    }
  }

  lemma PieceText(base: seq<CodePoint>, env: map<Text, seq<CodePoint>>, p: Piece)
    requires p.Lit? ==> ValidBody(p.text)
    requires p.Var? ==> IsName(p.name)
    ensures ValidBody(FilledPiece(base, env, p)) && TextOf(FilledPiece(base, env, p)) == FilledText(base, env, p)
  {
    match p
    case Lit(text) =>
    case Var(name) =>
      if name == BASE_NAME {
        TextOfEscape(base);
      } else if name in env {
        TextOfEscape(env[name]);
      } else {
        PlainText(Placeholder(name));
      }
  }

  lemma {:induction false} PiecesText(base: seq<CodePoint>, env: map<Text, seq<CodePoint>>, pieces: seq<Piece>)
    requires IsTemplate(pieces) && forall i :: 0 <= i < |pieces| && pieces[i].Lit? ==> ValidBody(pieces[i].text)
    ensures ValidBody(Filled(base, env, pieces)) && TextOf(Filled(base, env, pieces)) == FilledTexts(base, env, pieces)
  {
    if pieces != [] {
      PieceText(base, env, pieces[0]);
      PiecesText(base, env, pieces[1..]);
      TextOfJoin(FilledPiece(base, env, pieces[0]), Filled(base, env, pieces[1..]));
    }
  }

  /** A string literal with any number of placeholders, substituted in both passes,
      stands for its own text with every value inserted as it is. */
  lemma ValuesAreInserted(base: seq<CodePoint>, env: map<Text, seq<CodePoint>>, pieces: seq<Piece>)
    requires IsTemplate(pieces) && Loose(JsonEscape(base))
    requires forall i :: 0 <= i < |pieces| && pieces[i].Lit? ==> ValidBody(pieces[i].text)
    ensures var out := Substitute(base, env, Source(pieces));
            ValidBody(out) && TextOf(out) == FilledTexts(base, env, pieces)
  {
    TemplateIsFilled(base, env, pieces);
    PiecesText(base, env, pieces);
  }
}
