/**
 Which `Authorization` headers `src/lib/agent-run-mcp-actor-token.ts` accepts, and
 for whom: every condition on the header, the three parts and the claims.
 */
module TokenRules {
  import opened Wrappers
  import opened JsonString
  import opened Json
  import opened ActorToken
  import Base64Url

  // ------------------------------------------------------------------ the header

  /** What `\s` matches, and what `.` does not. */
  lemma WhiteExactly(u: Unit)
    ensures IsWhite(u) <==> u in {0x09, 0x0A, 0x0B, 0x0C, 0x0D, 0x20, 0xA0, 0x1680, 0x2000, 0x2001, 0x2002, 0x2003,
                                  0x2004, 0x2005, 0x2006, 0x2007, 0x2008, 0x2009, 0x200A, 0x2028, 0x2029, 0x202F,
                                  0x205F, 0x3000, 0xFEFF}
    ensures IsLineEnd(u) <==> u in {0x0A, 0x0D, 0x2028, 0x2029}
  {
  }

  predicate AllWhite(t: Text) {
    forall i :: 0 <= i < |t| ==> IsWhite(t[i])
  }

  predicate IsSolid(t: Text) {
    t != [] && !IsWhite(t[0]) && !IsWhite(t[|t| - 1])
  }

  /** `bearer` in letters of either case. */
  predicate IsBearerWord(t: Text) {
    |t| == 6 && forall i :: 0 <= i < 6 ==> t[i] == Ascii("bearer")[i] || t[i] == Ascii("BEARER")[i]
  }

  lemma {:induction false} TrimStartSplits(t: Text) returns (gap: Text)
    ensures t == gap + TrimStart(t) && AllWhite(gap)
    ensures TrimStart(t) != [] ==> !IsWhite(TrimStart(t)[0])
  {
    if t != [] && IsWhite(t[0]) {
      var more := TrimStartSplits(t[1..]);
      gap := [t[0]] + more;
    } else {
      gap := [];
    }
  }

  lemma {:induction false} TrimStartOf(gap: Text, rest: Text)
    requires AllWhite(gap) && rest != [] && !IsWhite(rest[0])
    ensures TrimStart(gap + rest) == rest
  {
    if gap != [] {
      assert (gap + rest)[1..] == gap[1..] + rest;
      TrimStartOf(gap[1..], rest);
    } else {
      assert gap + rest == rest;
    }
  }

  lemma {:induction false} TrimEndSplits(t: Text) returns (tail: Text)
    ensures t == TrimEnd(t) + tail && AllWhite(tail)
    ensures TrimEnd(t) != [] ==> !IsWhite(TrimEnd(t)[|TrimEnd(t)| - 1]) && TrimEnd(t)[0] == t[0]
    ensures t != [] && !IsWhite(t[0]) ==> TrimEnd(t) != []
  {
    if t != [] && IsWhite(t[|t| - 1]) {
      var init := t[..|t| - 1];
      var more := TrimEndSplits(init);
      tail := more + [t[|t| - 1]];
      assert t == init + [t[|t| - 1]];
    } else {
      tail := [];
    }
  }

  lemma {:induction false} TrimEndOf(rest: Text, tail: Text)
    requires AllWhite(tail) && rest != [] && !IsWhite(rest[|rest| - 1])
    ensures TrimEnd(rest + tail) == rest
    decreases |tail|
  {
    if tail != [] {
      assert (rest + tail)[..|rest + tail| - 1] == rest + tail[..|tail| - 1];
      TrimEndOf(rest, tail[..|tail| - 1]);
    } else {
      assert rest + tail == rest;
    }
  }

  /** The word, white space, the token, and perhaps white space behind it, but no line
      end there. */
  predicate IsBearer(header: Text, word: Text, gap: Text, token: Text, tail: Text) {
    && header == word + (gap + (token + tail))
    && IsBearerWord(word) && gap != [] && AllWhite(gap) && IsSolid(token) && AllWhite(tail)
    && forall u :: u in token + tail ==> !IsLineEnd(u)
  }

  lemma BearerHasToken(header: Text, word: Text, gap: Text, token: Text, tail: Text)
    requires IsBearer(header, word, gap, token, tail)
    ensures ReadBearer(Some(header)) == Some(token)
  {
    assert header[..6] == word && header[6..] == gap + (token + tail);
    assert (token + tail)[0] == token[0];
    TrimStartOf(gap, token + tail);
    TrimEndOf(token, tail);
  }

  lemma TokenHasBearer(header: Text)
    requires ReadBearer(Some(header)).Some?
    ensures exists word, gap, token, tail :: IsBearer(header, word, gap, token, tail)
  {
    var after := header[6..];
    var rest := TrimStart(after);
    var gap := TrimStartSplits(after);
    var tail := TrimEndSplits(rest);
    assert header == header[..6] + after;
    assert IsBearer(header, header[..6], gap, TrimEnd(rest), tail);
  }

  /** The token of a header is what stands behind the word, and only such a header
      has one. */
  lemma BearerExactly(header: Text, token: Text)
    ensures ReadBearer(Some(header)) == Some(token)
       <==> exists word, gap, tail :: IsBearer(header, word, gap, token, tail)
  {
    if ReadBearer(Some(header)).Some? {
      TokenHasBearer(header);
    }
    forall word, gap, other, tail | IsBearer(header, word, gap, other, tail)
      ensures ReadBearer(Some(header)) == Some(other)
    {
      BearerHasToken(header, word, gap, other, tail);
    }
  }

  // ------------------------------------------------------------------ the members

  /** The last member of this name has this value. */
  ghost predicate HasMember(v: Json, key: Text, value: Json) {
    v.Obj? && exists i: nat :: IsLastMember(v.members, key, i) && v.members[i].value == value
  }

  predicate IsLastMember(members: seq<Member>, key: Text, i: nat) {
    i < |members| && members[i].key == key && forall j :: i < j < |members| ==> members[j].key != key
  }

  lemma {:induction false} FindIsLast(members: seq<Member>, key: Text)
    ensures forall i: nat :: IsLastMember(members, key, i) ==> Find(members, key) == Some(members[i].value)
    ensures (forall i: nat :: !IsLastMember(members, key, i)) ==> Find(members, key).None?
    ensures Find(members, key).Some? ==> exists i: nat :: IsLastMember(members, key, i)
  {
    if members != [] {
      FindIsLast(members[1..], key);
      forall i: nat | IsLastMember(members[1..], key, i)
        ensures IsLastMember(members, key, i + 1)
      {
        assert members[1..][i] == members[i + 1];
        assert forall j :: i + 1 < j < |members| ==> members[j] == members[1..][j - 1];
      }
      forall i: nat | IsLastMember(members, key, i) && i > 0
        ensures IsLastMember(members[1..], key, i - 1)
      {
        assert members[1..][i - 1] == members[i];
        assert forall j :: i - 1 < j < |members[1..]| ==> members[1..][j] == members[j + 1];
      }
      if Find(members[1..], key).None? && members[0].key == key {
        NoLaterMember(members, key);
        assert IsLastMember(members, key, 0);
      }
    }
  }

  lemma {:induction false} NoLaterMember(members: seq<Member>, key: Text)
    requires members != [] && Find(members[1..], key).None?
    ensures forall j :: 0 < j < |members| ==> members[j].key != key
  {
    if |members| > 1 {
      NoLaterMember(members[1..], key);
      assert forall j :: 1 < j < |members| ==> members[j] == members[1..][j - 1];
    }
  }

  lemma GetExactly(v: Json, key: Text, value: Json)
    ensures Get(v, key) == Some(value) <==> HasMember(v, key, value)
  {
    if v.Obj? {
      FindIsLast(v.members, key);
    }
  }

  // -------------------------------------------------------------------- the claims

  predicate IsRole(text: Text, role: Role) {
    match role
    case PlatformAdmin => text == Ascii("platform_admin")
    case OrgMember => text == Ascii("member")
  }

  /** A finite time of expiry that is not over yet. */
  predicate IsLive(exp: Option<real>, now: int) {
    exp.Some? && exp.value >= now as real
  }

  /** Everything the payload has to say for this actor. */
  ghost predicate Grants(p: Platform, v: Json, now: int, audience: Text, issuer: Text, actor: Actor) {
    && HasMember(v, Ascii("t"), Str(Ascii("cinatra.agent-run.mcp-obo")))
    && HasMember(v, Ascii("scope"), Str(Ascii("mcp:connect")))
    && HasMember(v, Ascii("sub"), Str(actor.userId)) && actor.userId != []
    && HasMember(v, Ascii("org"), Str(actor.orgId)) && actor.orgId != []
    && HasMember(v, Ascii("run"), Str(actor.runId)) && actor.runId != []
    && (exists role :: HasMember(v, Ascii("prole"), Str(role)) && IsRole(role, actor.role))
    && HasMember(v, Ascii("aud"), Str(audience)) && HasMember(v, Ascii("iss"), Str(issuer))
    && (exists iat :: HasMember(v, Ascii("iat"), Num(iat)) && p.number(iat).Some?)
    && (exists exp :: HasMember(v, Ascii("exp"), Num(exp)) && IsLive(p.number(exp), now))
  }

  lemma TextExactly(v: Json, key: Text, text: Text)
    ensures GetText(v, key) == Some(text) <==> HasMember(v, key, Str(text))
  {
    GetExactly(v, key, Str(text));
  }

  lemma NumberExactly(p: Platform, v: Json, key: Text, n: real)
    ensures GetNumber(p, v, key) == Some(n)
       <==> exists literal :: HasMember(v, key, Num(literal)) && p.number(literal) == Some(n)
  {
    forall literal
      ensures Get(v, key) == Some(Num(literal)) <==> HasMember(v, key, Num(literal))
    {
      GetExactly(v, key, Num(literal));
    }
    if GetNumber(p, v, key).Some? {
      assert Get(v, key) == Some(Num(Get(v, key).value.literal));
    }
  }

  lemma RoleExactly(v: Json, role: Role)
    ensures RoleOf(Get(v, Ascii("prole"))) == Some(role)
       <==> exists text :: HasMember(v, Ascii("prole"), Str(text)) && IsRole(text, role)
  {
    var field := Get(v, Ascii("prole"));
    forall text
      ensures field == Some(Str(text)) <==> HasMember(v, Ascii("prole"), Str(text))
    {
      GetExactly(v, Ascii("prole"), Str(text));
    }
    RolesDiffer();
    if field.Some? && field.value.Str? {
      assert field == Some(Str(field.value.text));
    }
  }

  lemma RolesDiffer()
    ensures Ascii("platform_admin") != Ascii("member")
  {
    assert Ascii("platform_admin")[0] == 0x70 && Ascii("member")[0] == 0x6D;
  }

  /** The claims that name somebody. */
  lemma WhoExactly(v: Json, actor: Actor)
    ensures && (GetText(v, K_SUB) == Some(actor.userId) <==> HasMember(v, Ascii("sub"), Str(actor.userId)))
            && (GetText(v, K_ORG) == Some(actor.orgId) <==> HasMember(v, Ascii("org"), Str(actor.orgId)))
            && (GetText(v, K_RUN) == Some(actor.runId) <==> HasMember(v, Ascii("run"), Str(actor.runId)))
  {
    TextExactly(v, Ascii("sub"), actor.userId);
    TextExactly(v, Ascii("org"), actor.orgId);
    TextExactly(v, Ascii("run"), actor.runId);
  }

  /** The claims that say what the token is for. */
  lemma PurposeExactly(v: Json, audience: Text, issuer: Text)
    ensures GetText(v, K_T) == Some(TOKEN_TYPE) <==> HasMember(v, Ascii("t"), Str(Ascii("cinatra.agent-run.mcp-obo")))
    ensures GetText(v, K_SCOPE) == Some(TOKEN_SCOPE) <==> HasMember(v, Ascii("scope"), Str(Ascii("mcp:connect")))
    ensures GetText(v, K_AUD) == Some(audience) <==> HasMember(v, Ascii("aud"), Str(audience))
    ensures GetText(v, K_ISS) == Some(issuer) <==> HasMember(v, Ascii("iss"), Str(issuer))
  {
    TextExactly(v, Ascii("t"), Ascii("cinatra.agent-run.mcp-obo"));
    TextExactly(v, Ascii("scope"), Ascii("mcp:connect"));
    TextExactly(v, Ascii("aud"), audience);
    TextExactly(v, Ascii("iss"), issuer);
  }

  lemma TimesExactly(p: Platform, v: Json, now: int)
    ensures GetNumber(p, v, K_IAT).Some?
       <==> exists iat :: HasMember(v, Ascii("iat"), Num(iat)) && p.number(iat).Some?
    ensures GetNumber(p, v, K_EXP).Some? && GetNumber(p, v, K_EXP).value >= now as real
       <==> exists exp :: HasMember(v, Ascii("exp"), Num(exp)) && IsLive(p.number(exp), now)
  {
    forall n
      ensures GetNumber(p, v, K_IAT) == Some(n)
         <==> exists iat :: HasMember(v, Ascii("iat"), Num(iat)) && p.number(iat) == Some(n)
      ensures GetNumber(p, v, K_EXP) == Some(n)
         <==> exists exp :: HasMember(v, Ascii("exp"), Num(exp)) && p.number(exp) == Some(n)
    {
      NumberExactly(p, v, Ascii("iat"), n);
      NumberExactly(p, v, Ascii("exp"), n);
    }
    if exp :| HasMember(v, Ascii("exp"), Num(exp)) && p.number(exp).Some? {
      assert GetNumber(p, v, K_EXP) == Some(p.number(exp).value);
    }
    if iat :| HasMember(v, Ascii("iat"), Num(iat)) && p.number(iat).Some? {
      assert GetNumber(p, v, K_IAT) == Some(p.number(iat).value);
    }
  }

  /** A payload names an actor exactly if it grants it. */
  lemma ActorExactly(p: Platform, v: Json, now: int, audience: Text, issuer: Text, actor: Actor)
    ensures ActorOf(p, v, now, audience, issuer) == Some(actor) <==> Grants(p, v, now, audience, issuer, actor)
  {
    WhoExactly(v, actor);
    PurposeExactly(v, audience, issuer);
    TimesExactly(p, v, now);
    RoleExactly(v, actor.role);
  }

  // ------------------------------------------------------------------- the token

  /** Three parts without dots, none of them empty; the first one decodes to a header
      with the right algorithm and type, the second one to a payload that grants, and
      the third one to the bytes of the signature over the other two. */
  ghost predicate IsToken(p: Platform, token: Text, a: Text, b: Text, c: Text, now: int, audience: Text, issuer: Text,
          actor: Actor) {
    && token == a + ([0x2E] + (b + ([0x2E] + c)))
    && 0x2E !in a && 0x2E !in b && 0x2E !in c && a != [] && b != [] && c != []
    && ParsePart(p, a).Some? && ParsePart(p, b).Some?
    && HasMember(ParsePart(p, a).value, Ascii("alg"), Str(Ascii("HS256")))
    && HasMember(ParsePart(p, a).value, Ascii("typ"), Str(Ascii("JWT")))
    && Base64Url.Decode(c) == Base64Url.Decode(Base64Url.Encode(p.mac(a + ([0x2E] + b))))
    && Grants(p, ParsePart(p, b).value, now, audience, issuer, actor)
  }

  lemma JoinsAgree(a: Text, b: Text, c: Text)
    ensures Joined(Joined(a, b), c) == a + ([0x2E] + (b + ([0x2E] + c)))
  {
  }

  lemma PartsAreFound(token: Text, a: Text, b: Text, c: Text)
    requires token == a + ([0x2E] + (b + ([0x2E] + c))) && 0x2E !in a && 0x2E !in b && 0x2E !in c
    ensures SplitDots(token) == [a, b, c]
  {
    JoinsAgree(a, b, c);
    SplitThree(a, b, c);
  }

  lemma HeaderExactly(v: Json)
    ensures GetText(v, K_ALG) == Some(HS256) <==> HasMember(v, Ascii("alg"), Str(Ascii("HS256")))
    ensures GetText(v, K_TYP) == Some(JWT) <==> HasMember(v, Ascii("typ"), Str(Ascii("JWT")))
  {
    TextExactly(v, Ascii("alg"), Ascii("HS256"));
    TextExactly(v, Ascii("typ"), Ascii("JWT"));
  }

  lemma TokenIsAccepted(p: Platform, token: Text, a: Text, b: Text, c: Text, now: int, audience: Text, issuer: Text,
          actor: Actor)
    requires IsToken(p, token, a, b, c, now, audience, issuer, actor)
    ensures VerifyToken(p, token, now, audience, issuer) == Some(actor)
  {
    PartsAreFound(token, a, b, c);
    HeaderExactly(ParsePart(p, a).value);
    ActorExactly(p, ParsePart(p, b).value, now, audience, issuer, actor);
    PartsAreAccepted(p, token, a, b, c, now, audience, issuer);
  }

  lemma PartsAreAccepted(p: Platform, token: Text, a: Text, b: Text, c: Text, now: int, audience: Text, issuer: Text)
    requires SplitDots(token) == [a, b, c] && a != [] && b != [] && c != []
    requires ParsePart(p, a).Some? && ParsePart(p, b).Some?
    requires GetText(ParsePart(p, a).value, K_ALG) == Some(HS256) && GetText(ParsePart(p, a).value, K_TYP) == Some(JWT)
    requires Base64Url.Decode(c) == Base64Url.Decode(Base64Url.Encode(p.mac(a + ([0x2E] + b))))
    ensures VerifyToken(p, token, now, audience, issuer) == ActorOf(p, ParsePart(p, b).value, now, audience, issuer)
  {
    assert Joined(a, b) == a + ([0x2E] + b);
  }

  lemma AcceptedIsToken(p: Platform, token: Text, now: int, audience: Text, issuer: Text, actor: Actor)
    requires VerifyToken(p, token, now, audience, issuer) == Some(actor)
    ensures exists a, b, c :: IsToken(p, token, a, b, c, now, audience, issuer, actor)
  {
    var parts := SplitDots(token);
    var a, b, c := parts[0], parts[1], parts[2];
    assert parts == [a, b, c];
    SplitParts(token, a, b, c);
    JoinOfSplit(token);
    JoinsAgree(a, b, c);
    HeaderExactly(ParsePart(p, a).value);
    ActorExactly(p, ParsePart(p, b).value, now, audience, issuer, actor);
    assert IsToken(p, token, a, b, c, now, audience, issuer, actor);
  }

  /** A header is accepted for an actor exactly if it is a bearer header with such a
      token. */
  lemma VerifiedExactly(p: Platform, header: Text, now: int, audience: Text, issuer: Text, actor: Actor)
    ensures Verify(p, Some(header), now, audience, issuer) == Some(actor)
       <==> exists word, gap, token, tail, a, b, c ::
              && IsBearer(header, word, gap, token, tail)
              && IsToken(p, token, a, b, c, now, audience, issuer, actor)
    ensures Verify(p, None, now, audience, issuer) == None
  {
    if Verify(p, Some(header), now, audience, issuer) == Some(actor) {
      var token := ReadBearer(Some(header)).value;
      BearerExactly(header, token);
      AcceptedIsToken(p, token, now, audience, issuer, actor);
    }
    forall word, gap, token, tail, a, b, c | IsBearer(header, word, gap, token, tail)
                                             && IsToken(p, token, a, b, c, now, audience, issuer, actor)
      ensures Verify(p, Some(header), now, audience, issuer) == Some(actor)
    {
      BearerHasToken(header, word, gap, token, tail);
      TokenIsAccepted(p, token, a, b, c, now, audience, issuer, actor);
    }
  }

  // ------------------------------------------------------------------ what is issued

  /** An issued token is the header, the claims and the signature over both; it says
      who, what for, and until when: half an hour later. */
  lemma IssuedInFull(p: Platform, g: Grant)
    ensures var header, claims := p.utf8(Print(HEADER)), p.utf8(Print(Claims(g)));
            var signed := Base64Url.Encode(header) + ([0x2E] + Base64Url.Encode(claims));
            Issue(p, g) == signed + ([0x2E] + Base64Url.Encode(p.mac(signed)))
    ensures HasMember(HEADER, Ascii("alg"), Str(Ascii("HS256"))) && HasMember(HEADER, Ascii("typ"), Str(Ascii("JWT")))
    ensures HasMember(Claims(g), Ascii("t"), Str(Ascii("cinatra.agent-run.mcp-obo")))
    ensures HasMember(Claims(g), Ascii("scope"), Str(Ascii("mcp:connect")))
    ensures HasMember(Claims(g), Ascii("sub"), Str(g.actor.userId))
    ensures HasMember(Claims(g), Ascii("org"), Str(g.actor.orgId))
    ensures HasMember(Claims(g), Ascii("run"), Str(g.actor.runId))
    ensures exists role :: HasMember(Claims(g), Ascii("prole"), Str(role)) && IsRole(role, g.actor.role)
    ensures HasMember(Claims(g), Ascii("aud"), Str(g.audience)) && HasMember(Claims(g), Ascii("iss"), Str(g.issuer))
    ensures HasMember(Claims(g), Ascii("iat"), Num(Decimal(g.iat)))
    ensures HasMember(Claims(g), Ascii("exp"), Num(Decimal(g.iat + 1800)))
  {
    HeaderIsFound();
    HeaderExactly(HEADER);
    TextsAreRead(g);
    ClaimsAreFound(g);
    WhoExactly(Claims(g), g.actor);
    PurposeExactly(Claims(g), g.audience, g.issuer);
    RoleExactly(Claims(g), g.actor.role);
    GetExactly(Claims(g), Ascii("iat"), Num(Decimal(g.iat)));
    GetExactly(Claims(g), Ascii("exp"), Num(Decimal(g.iat + 1800)));
  }
}
