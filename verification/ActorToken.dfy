/**
 The delegated actor token of an agent run: issuing and verifying, as in
 `src/lib/agent-run-mcp-actor-token.ts`. The UTF-8 conversions, the keyed hash
 and the reading of number literals belong to the platform and are parameters.
 */
module ActorToken {
  import opened Wrappers
  import opened JsonString
  import opened Json
  import opened PairedText
  import Base64Url

  type Bytes = seq<Base64Url.Byte>

  /** What the program runs on. `number` is None for a literal too large to be finite. */
  datatype Platform = Platform(
    utf8: Text -> Bytes,
    text: Bytes -> Text,
    mac: Text -> Bytes,
    number: Text -> Option<real>)

  /** The whole numbers a JavaScript number holds exactly. */
  const MAX_SAFE := 0x1F_FFFF_FFFF_FFFF

  /** UTF-8 keeps well-formed text, a hash is not empty, and the decimal text of
      a safe whole number stands for that number. */
  ghost predicate Faithful(p: Platform) {
    && (forall t :: Paired(t) ==> p.text(p.utf8(t)) == t)
    && (forall t :: t != [] ==> p.utf8(t) != [])
    && (forall t :: p.mac(t) != [])
    && (forall n: nat :: n <= MAX_SAFE ==> p.number(Decimal(n)) == Some(n as real))
  }

  datatype Role = PlatformAdmin | OrgMember

  datatype Actor = Actor(userId: Text, orgId: Text, runId: Text, role: Role)

  const TTL_SECONDS := 1800

  /** A time in seconds whose expiry is a safe whole number, as any `Date` gives. */
  type Second = n: nat | n + TTL_SECONDS <= MAX_SAFE

  /** Everything an issued token is made from. */
  datatype Grant = Grant(actor: Actor, iat: Second, audience: Text, issuer: Text)
  const DOT: Unit := 0x2E

  const HS256: Text := Ascii("HS256")
  const JWT: Text := Ascii("JWT")
  const TOKEN_TYPE: Text := Ascii("cinatra.agent-run.mcp-obo")
  const TOKEN_SCOPE: Text := Ascii("mcp:connect")

  const K_ALG: Text := Ascii("alg")
  const K_TYP: Text := Ascii("typ")
  const K_T: Text := Ascii("t")
  const K_SUB: Text := Ascii("sub")
  const K_ORG: Text := Ascii("org")
  const K_RUN: Text := Ascii("run")
  const K_PROLE: Text := Ascii("prole")
  const K_SCOPE: Text := Ascii("scope")
  const K_AUD: Text := Ascii("aud")
  const K_ISS: Text := Ascii("iss")
  const K_IAT: Text := Ascii("iat")
  const K_EXP: Text := Ascii("exp")

  function RoleText(role: Role): Text {
    match role
    case PlatformAdmin => Ascii("platform_admin")
    case OrgMember => Ascii("member")
  }

  function RoleOf(v: Option<Json>): Option<Role> {
    if v == Some(Str(RoleText(PlatformAdmin))) then Some(PlatformAdmin)
    else if v == Some(Str(RoleText(OrgMember))) then Some(OrgMember)
    else None
  }

  // ------------------------------------------------------------------- issuing

  const HEADER: Json := Obj([Member(K_ALG, Str(HS256)), Member(K_TYP, Str(JWT))])

  function Claims(g: Grant): Json {
    Obj([
      Member(K_T, Str(TOKEN_TYPE)),
      Member(K_SUB, Str(g.actor.userId)),
      Member(K_ORG, Str(g.actor.orgId)),
      Member(K_RUN, Str(g.actor.runId)),
      Member(K_PROLE, Str(RoleText(g.actor.role))),
      Member(K_SCOPE, Str(TOKEN_SCOPE)),
      Member(K_AUD, Str(g.audience)),
      Member(K_ISS, Str(g.issuer)),
      Member(K_IAT, Num(Decimal(g.iat))),
      Member(K_EXP, Num(Decimal(g.iat + TTL_SECONDS)))])
  }

  function Part(p: Platform, v: Json): Text {
    Base64Url.Encode(p.utf8(Print(v)))
  }

  function Joined(a: Text, b: Text): Text { a + ([DOT] + b) }

  function SigningInput(p: Platform, g: Grant): Text {
    Joined(Part(p, HEADER), Part(p, Claims(g)))
  }

  function Sign(p: Platform, input: Text): Text { Base64Url.Encode(p.mac(input)) }

  function Issue(p: Platform, g: Grant): Text {
    Joined(SigningInput(p, g), Sign(p, SigningInput(p, g)))
  }

  // ----------------------------------------------------------------- verifying

  /** JavaScript's `\s`, and what `trim` removes. */
  predicate IsWhite(u: Unit) {
    || 0x09 <= u <= 0x0D || u == 0x20 || u == 0xA0 || u == 0x1680 || 0x2000 <= u <= 0x200A
    || u == 0x2028 || u == 0x2029 || u == 0x202F || u == 0x205F || u == 0x3000 || u == 0xFEFF
  }

  predicate IsLineEnd(u: Unit) { u == 0x0A || u == 0x0D || u == 0x2028 || u == 0x2029 }

  function TrimStart(t: Text): Text {
    if t != [] && IsWhite(t[0]) then TrimStart(t[1..]) else t
  }

  function TrimEnd(t: Text): Text {
    if t != [] && IsWhite(t[|t| - 1]) then TrimEnd(t[..|t| - 1]) else t
  }

  const BEARER_LOWER: Text := Ascii("bearer")
  const BEARER_UPPER: Text := Ascii("BEARER")
  const BEARER: Text := Ascii("Bearer ")

  predicate BeginsBearer(t: Text) {
    |t| >= 6 && forall i :: 0 <= i < 6 ==> t[i] == BEARER_LOWER[i] || t[i] == BEARER_UPPER[i]
  }

  /** `/^Bearer\s+(.+)$/i` and `trim`. White space at the end of the header never
      makes a token, so what is left after the white space decides. */
  function ReadBearer(header: Option<Text>): Option<Text> {
    if header.None? || !BeginsBearer(header.value) then None
    else
      var after := header.value[6..];
      var rest := TrimStart(after);
      if rest == after || rest == [] || (exists u :: u in rest && IsLineEnd(u)) then None
      else Some(TrimEnd(rest))
  }

  /** `split(".")`. */
  function SplitDots(t: Text): (parts: seq<Text>)
    ensures parts != []
  {
    if t == [] then [[]]
    else
      var more := SplitDots(t[1..]);
      if t[0] == DOT then [[]] + more else [[t[0]] + more[0]] + more[1..]
  }

  function ParsePart(p: Platform, part: Text): Option<Json> {
    Parse(p.text(Base64Url.Decode(part)))
  }

  /** The last member of that name counts; a value that is no object has none. */
  function Find(members: seq<Member>, key: Text): Option<Json> {
    if members == [] then None
    else
      var later := Find(members[1..], key);
      if later.Some? then later
      else if members[0].key == key then Some(members[0].value)
      else None
  }

  function Get(v: Json, key: Text): Option<Json> {
    if v.Obj? then Find(v.members, key) else None
  }

  function GetText(v: Json, key: Text): Option<Text> {
    var field := Get(v, key);
    if field.Some? && field.value.Str? then Some(field.value.text) else None
  }

  function GetNumber(p: Platform, v: Json, key: Text): Option<real> {
    var field := Get(v, key);
    if field.Some? && field.value.Num? then p.number(field.value.literal) else None
  }

  predicate SignatureMatches(p: Platform, input: Text, signature: Text) {
    Base64Url.Decode(Sign(p, input)) == Base64Url.Decode(signature)
  }

  function ActorOf(p: Platform, payload: Json, now: int, audience: Text, issuer: Text): Option<Actor> {
    var sub, org, run := GetText(payload, K_SUB), GetText(payload, K_ORG), GetText(payload, K_RUN);
    var role := RoleOf(Get(payload, K_PROLE));
    var iat, exp := GetNumber(p, payload, K_IAT), GetNumber(p, payload, K_EXP);
    if GetText(payload, K_T) != Some(TOKEN_TYPE) || GetText(payload, K_SCOPE) != Some(TOKEN_SCOPE) then None
    else if sub.None? || sub.value == [] || org.None? || org.value == [] || run.None? || run.value == [] then None
    else if role.None? then None
    else if GetText(payload, K_AUD) != Some(audience) || GetText(payload, K_ISS) != Some(issuer) then None
    else if iat.None? || exp.None? || exp.value < now as real then None
    else Some(Actor(sub.value, org.value, run.value, role.value))
  }

  function VerifyToken(p: Platform, token: Text, now: int, audience: Text, issuer: Text): Option<Actor> {
    var parts := SplitDots(token);
    if |parts| != 3 || parts[0] == [] || parts[1] == [] || parts[2] == [] then None
    else
      var header := ParsePart(p, parts[0]);
      if header.None? then None
      else if GetText(header.value, K_ALG) != Some(HS256) || GetText(header.value, K_TYP) != Some(JWT) then None
      else if !SignatureMatches(p, Joined(parts[0], parts[1]), parts[2]) then None
      else
        var payload := ParsePart(p, parts[1]);
        if payload.None? then None else ActorOf(p, payload.value, now, audience, issuer)
  }

  function Verify(p: Platform, header: Option<Text>, now: int, audience: Text, issuer: Text): Option<Actor> {
    var token := ReadBearer(header);
    if token.None? || token.value == [] then None else VerifyToken(p, token.value, now, audience, issuer)
  }

  // --------------------------------------------------------- reading the header

  lemma {:induction false} SplitOnce(a: Text, b: Text)
    requires DOT !in a
    ensures SplitDots(a + ([DOT] + b)) == [a] + SplitDots(b)
  {
    var t := a + ([DOT] + b);
    if a == [] {
      assert t == [DOT] + b;
      assert t[1..] == b;
    } else {
      assert t[1..] == a[1..] + ([DOT] + b);
      SplitOnce(a[1..], b);
      assert [a[0]] + a[1..] == a;
    }
  }

  lemma {:induction false} SplitNone(a: Text)
    requires DOT !in a
    ensures SplitDots(a) == [a]
  {
    if a != [] {
      SplitNone(a[1..]);
      assert [a[0]] + a[1..] == a;
    }
  }

  lemma SplitThree(a: Text, b: Text, c: Text)
    requires DOT !in a && DOT !in b && DOT !in c
    ensures SplitDots(Joined(Joined(a, b), c)) == [a, b, c]
  {
    assert Joined(Joined(a, b), c) == a + ([DOT] + (b + ([DOT] + c)));
    SplitOnce(a, b + ([DOT] + c));
    SplitOnce(b, c);
    SplitNone(c);
  }

  predicate IsTokenUnit(u: Unit) { Base64Url.InAlphabet(u) || u == DOT }

  lemma BearerIsRead(token: Text)
    requires token != [] && forall i :: 0 <= i < |token| ==> IsTokenUnit(token[i])
    ensures ReadBearer(Some(BEARER + token)) == Some(token)
  {
    var header := BEARER + token;
    assert forall i :: 0 <= i < 6 ==> header[i] == BEARER[i];
    assert BeginsBearer(header);
    assert header[6..] == [0x20] + token;
    assert ([0x20] + token)[1..] == token;
    assert IsTokenUnit(token[0]) && IsTokenUnit(token[|token| - 1]);
    assert TrimStart(token) == token && TrimEnd(token) == token;
    assert TrimStart([0x20] + token) == token;
    assert forall u :: u in token ==> IsTokenUnit(u) && !IsLineEnd(u);
    assert |[0x20] + token| != |token|;
  }

  lemma PartIsSolid(bytes: Bytes)
    ensures DOT !in Base64Url.Encode(bytes)
    ensures forall i :: 0 <= i < |Base64Url.Encode(bytes)| ==> IsTokenUnit(Base64Url.Encode(bytes)[i])
  {
    Base64Url.DecodeEncode(bytes);
  }

  // ------------------------------------------------------------------- numbers

  lemma {:induction false} DecimalIsDigits(n: nat)
    ensures Decimal(n) != []
    ensures forall i :: 0 <= i < |Decimal(n)| ==> IsDigit(Decimal(n)[i])
    ensures n > 0 ==> Decimal(n)[0] != 0x30
    ensures n == 0 ==> |Decimal(n)| == 1
  {
    if n >= 10 {
      DecimalIsDigits(n / 10);
    }
  }

  lemma {:induction false} DigitsRun(t: Text)
    requires forall i :: 0 <= i < |t| ==> IsDigit(t[i])
    ensures DigitRun(t) == |t|
  {
    if t != [] {
      DigitsRun(t[1..]);
    }
  }

  lemma DecimalIsNumber(n: nat)
    ensures IsNumber(Decimal(n))
  {
    DecimalIsDigits(n);
    DigitsRun(Decimal(n));
  }

  // -------------------------------------------------------------------- claims

  lemma {:induction false} FindAt(members: seq<Member>, i: nat)
    requires i < |members|
    requires forall j :: i < j < |members| ==> members[j].key != members[i].key
    ensures Find(members, members[i].key) == Some(members[i].value)
  {
    if i > 0 {
      FindAt(members[1..], i - 1);
    } else {
      FindNone(members[1..], members[0].key);
    }
  }

  lemma {:induction false} FindNone(members: seq<Member>, key: Text)
    requires forall j :: 0 <= j < |members| ==> members[j].key != key
    ensures Find(members, key).None?
  {
    if members != [] {
      FindNone(members[1..], key);
    }
  }

  /** The first two characters tell the names of the claims apart. */
  function Initials(key: Text): int {
    if |key| < 2 then 0 else key[0] as int * 0x1_0000 + key[1]
  }

  lemma ClaimNames()
    ensures Initials(K_T) == 0
    ensures Initials(K_SUB) == 0x73_0075 && Initials(K_ORG) == 0x6F_0072 && Initials(K_RUN) == 0x72_0075
    ensures Initials(K_PROLE) == 0x70_0072 && Initials(K_SCOPE) == 0x73_0063 && Initials(K_AUD) == 0x61_0075
    ensures Initials(K_ISS) == 0x69_0073 && Initials(K_IAT) == 0x69_0061 && Initials(K_EXP) == 0x65_0078
  {
  }

  lemma ClaimNamesDiffer(g: Grant, i: nat)
    requires i < 10
    ensures forall j :: i < j < 10 ==> Claims(g).members[j].key != Claims(g).members[i].key
  {
    ClaimNames();
  }

  lemma ClaimIsFound(g: Grant, i: nat)
    requires i < 10
    ensures Get(Claims(g), Claims(g).members[i].key) == Some(Claims(g).members[i].value)
  {
    ClaimNamesDiffer(g, i);
    FindAt(Claims(g).members, i);
  }

  lemma ClaimsAreFound(g: Grant)
    ensures var c := Claims(g);
            && Get(c, K_T) == Some(Str(TOKEN_TYPE)) && Get(c, K_SCOPE) == Some(Str(TOKEN_SCOPE))
            && Get(c, K_SUB) == Some(Str(g.actor.userId)) && Get(c, K_ORG) == Some(Str(g.actor.orgId))
            && Get(c, K_RUN) == Some(Str(g.actor.runId)) && Get(c, K_PROLE) == Some(Str(RoleText(g.actor.role)))
            && Get(c, K_AUD) == Some(Str(g.audience)) && Get(c, K_ISS) == Some(Str(g.issuer))
            && Get(c, K_IAT) == Some(Num(Decimal(g.iat))) && Get(c, K_EXP) == Some(Num(Decimal(g.iat + TTL_SECONDS)))
  {
    ClaimIsFound(g, 0);
    ClaimIsFound(g, 1);
    ClaimIsFound(g, 2);
    ClaimIsFound(g, 3);
    ClaimIsFound(g, 4);
    ClaimIsFound(g, 5);
    ClaimIsFound(g, 6);
    ClaimIsFound(g, 7);
    ClaimIsFound(g, 8);
    ClaimIsFound(g, 9);
  }

  lemma HeaderIsFound()
    ensures Get(HEADER, K_ALG) == Some(Str(HS256)) && Get(HEADER, K_TYP) == Some(Str(JWT))
  {
    assert K_ALG[0] == 0x61 && K_TYP[0] == 0x74;
    FindAt(HEADER.members, 0);
    FindAt(HEADER.members, 1);
  }

  lemma RoleIsRead(role: Role)
    ensures RoleOf(Some(Str(RoleText(role)))) == Some(role)
  {
    assert RoleText(PlatformAdmin)[0] == 0x70 && RoleText(OrgMember)[0] == 0x6D;
  }

  /** A grant is good for its own audience and issuer, for an actor with no empty
      id, up to and including second `iat + 1800`. */
  predicate Admits(g: Grant, now: int, audience: Text, issuer: Text) {
    && g.actor.userId != [] && g.actor.orgId != [] && g.actor.runId != []
    && audience == g.audience && issuer == g.issuer
    && now <= g.iat + TTL_SECONDS
  }

  lemma TextsAreRead(g: Grant)
    ensures var c := Claims(g);
            && GetText(c, K_T) == Some(TOKEN_TYPE) && GetText(c, K_SCOPE) == Some(TOKEN_SCOPE)
            && GetText(c, K_SUB) == Some(g.actor.userId) && GetText(c, K_ORG) == Some(g.actor.orgId)
            && GetText(c, K_RUN) == Some(g.actor.runId) && RoleOf(Get(c, K_PROLE)) == Some(g.actor.role)
            && GetText(c, K_AUD) == Some(g.audience) && GetText(c, K_ISS) == Some(g.issuer)
  {
    ClaimsAreFound(g);
    RoleIsRead(g.actor.role);
  }

  lemma TimesAreRead(p: Platform, g: Grant)
    requires Faithful(p)
    ensures GetNumber(p, Claims(g), K_IAT) == Some(g.iat as real)
    ensures GetNumber(p, Claims(g), K_EXP) == Some((g.iat + TTL_SECONDS) as real)
  {
    ClaimsAreFound(g);
    assert p.number(Decimal(g.iat)) == Some(g.iat as real);
    assert p.number(Decimal(g.iat + TTL_SECONDS)) == Some((g.iat + TTL_SECONDS) as real);
  }

  lemma ActorOfClaims(p: Platform, g: Grant, now: int, audience: Text, issuer: Text)
    requires Faithful(p)
    ensures ActorOf(p, Claims(g), now, audience, issuer)
         == if Admits(g, now, audience, issuer) then Some(g.actor) else None
  {
    TextsAreRead(g);
    TimesAreRead(p, g);
  }

  // -------------------------------------------------------------- main results

  lemma PartIsRead(p: Platform, v: Json)
    requires Faithful(p) && Printable(v)
    ensures ParsePart(p, Part(p, v)) == Some(v)
    ensures Part(p, v) != []
  {
    PrintIsPaired(v);
    Base64Url.DecodeEncode(p.utf8(Print(v)));
    ParsePrint(v);
    PrintBegins(v);
  }

  lemma ClaimsArePrintable(g: Grant)
    ensures Printable(Claims(g)) && Printable(HEADER)
  {
    DecimalIsNumber(g.iat);
    DecimalIsNumber(g.iat + TTL_SECONDS);
  }

  /** A token over an issued header and payload, with any signature part. */
  lemma VerifyIssuedInput(p: Platform, g: Grant, signature: Text, now: int, audience: Text, issuer: Text)
    requires Faithful(p) && signature != [] && DOT !in signature
    ensures VerifyToken(p, Joined(SigningInput(p, g), signature), now, audience, issuer)
         == if SignatureMatches(p, SigningInput(p, g), signature) && Admits(g, now, audience, issuer)
            then Some(g.actor) else None
  {
    ClaimsArePrintable(g);
    PartIsRead(p, HEADER);
    PartIsRead(p, Claims(g));
    PartIsSolid(p.utf8(Print(HEADER)));
    PartIsSolid(p.utf8(Print(Claims(g))));
    SplitThree(Part(p, HEADER), Part(p, Claims(g)), signature);
    HeaderIsFound();
    ActorOfClaims(p, g, now, audience, issuer);
  }

  lemma JoinedUnits(a: Text, b: Text)
    requires forall i :: 0 <= i < |a| ==> IsTokenUnit(a[i])
    requires forall i :: 0 <= i < |b| ==> IsTokenUnit(b[i])
    ensures forall i :: 0 <= i < |Joined(a, b)| ==> IsTokenUnit(Joined(a, b)[i])
  {
  }

  lemma IssuedIsRead(p: Platform, g: Grant)
    requires Faithful(p)
    ensures Issue(p, g) != [] && ReadBearer(Some(BEARER + Issue(p, g))) == Some(Issue(p, g))
  {
    PartIsSolid(p.utf8(Print(HEADER)));
    PartIsSolid(p.utf8(Print(Claims(g))));
    PartIsSolid(p.mac(SigningInput(p, g)));
    JoinedUnits(Part(p, HEADER), Part(p, Claims(g)));
    JoinedUnits(SigningInput(p, g), Sign(p, SigningInput(p, g)));
    BearerIsRead(Issue(p, g));
  }

  /** An issued token, sent as a bearer, verifies to exactly the actor it was
      issued for, with the same audience and issuer, at every time up to and
      including `iat + 1800`; otherwise it is refused. */
  lemma TokenRoundTrip(p: Platform, g: Grant, now: int, audience: Text, issuer: Text)
    requires Faithful(p)
    ensures Verify(p, Some(BEARER + Issue(p, g)), now, audience, issuer)
         == if Admits(g, now, audience, issuer) then Some(g.actor) else None
  {
    IssuedIsRead(p, g);
    Base64Url.DecodeEncode(p.mac(SigningInput(p, g)));
    PartIsSolid(p.mac(SigningInput(p, g)));
    VerifyIssuedInput(p, g, Sign(p, SigningInput(p, g)), now, audience, issuer);
  }

  /** The token is still accepted in the very second named by `exp`, where
      section 4.1.4 of RFC 7519 asks that it is not. */
  lemma AcceptedAtExpiry(p: Platform, g: Grant)
    requires Faithful(p) && g.actor.userId != [] && g.actor.orgId != [] && g.actor.runId != []
    ensures Verify(p, Some(BEARER + Issue(p, g)), g.iat + TTL_SECONDS, g.audience, g.issuer) == Some(g.actor)
    ensures Verify(p, Some(BEARER + Issue(p, g)), g.iat + TTL_SECONDS + 1, g.audience, g.issuer) == None
  {
    TokenRoundTrip(p, g, g.iat + TTL_SECONDS, g.audience, g.issuer);
    TokenRoundTrip(p, g, g.iat + TTL_SECONDS + 1, g.audience, g.issuer);
  }

  lemma {:induction false} SplitParts(token: Text, a: Text, b: Text, c: Text)
    requires SplitDots(token) == [a, b, c]
    ensures token == Joined(Joined(a, b), c) && DOT !in c
  {
    JoinOfSplit(token);
    assert Joins([a, b, c]) == a + ([DOT] + Joins([b, c]));
    assert [a, b, c][1..] == [b, c] && [b, c][1..] == [c];
    assert Joins([b, c]) == b + ([DOT] + c);
    assert Joined(Joined(a, b), c) == a + ([DOT] + (b + ([DOT] + c)));
    assert [a, b, c][2] == c;
  }

  function Joins(parts: seq<Text>): Text
    requires parts != []
  {
    if |parts| == 1 then parts[0] else parts[0] + ([DOT] + Joins(parts[1..]))
  }

  lemma {:induction false} JoinOfSplit(t: Text)
    ensures Joins(SplitDots(t)) == t
    ensures forall i :: 0 <= i < |SplitDots(t)| ==> DOT !in SplitDots(t)[i]
  {
    if t != [] {
      var more := SplitDots(t[1..]);
      JoinOfSplit(t[1..]);
      if t[0] == DOT {
        assert ([[]] + more)[1..] == more;
        assert [DOT] + t[1..] == t;
      } else {
        assert ([[t[0]] + more[0]] + more[1..])[1..] == more[1..];
        if |more| > 1 {
          assert ([t[0]] + more[0]) + ([DOT] + Joins(more[1..])) == [t[0]] + (more[0] + ([DOT] + Joins(more[1..])));
        }
        assert [t[0]] + t[1..] == t;
      }
    }
  }

  /** What the signature part of a three-part token says it covers. */
  ghost predicate ForgesNothing(p: Platform, grants: set<Grant>, token: Text) {
    var parts := SplitDots(token);
    |parts| == 3 && SignatureMatches(p, Joined(parts[0], parts[1]), parts[2]) ==>
      exists g :: g in grants && Joined(parts[0], parts[1]) == SigningInput(p, g)
  }

  lemma AcceptedShape(p: Platform, token: Text, now: int, audience: Text, issuer: Text)
    returns (a: Text, b: Text, c: Text)
    requires VerifyToken(p, token, now, audience, issuer).Some?
    ensures SplitDots(token) == [a, b, c] && c != [] && SignatureMatches(p, Joined(a, b), c)
  {
    var parts := SplitDots(token);
    a, b, c := parts[0], parts[1], parts[2];
    assert parts == [a, b, c];
  }

  /** Any header at all that is accepted belongs to an actor a token was issued
      to, for this audience and issuer and not yet expired, provided only that
      no signature matches but over an issued header and payload. */
  lemma AcceptedWasIssued(p: Platform, grants: set<Grant>, header: Option<Text>, now: int, audience: Text, issuer: Text)
    requires Faithful(p)
    requires ReadBearer(header).Some? ==> ForgesNothing(p, grants, ReadBearer(header).value)
    ensures Verify(p, header, now, audience, issuer).Some? ==>
              exists g :: g in grants && Admits(g, now, audience, issuer)
                       && Verify(p, header, now, audience, issuer) == Some(g.actor)
  {
    if Verify(p, header, now, audience, issuer).Some? {
      var token := ReadBearer(header).value;
      var a, b, c := AcceptedShape(p, token, now, audience, issuer);
      var g :| g in grants && Joined(a, b) == SigningInput(p, g);
      SplitParts(token, a, b, c);
      VerifyIssuedInput(p, g, c, now, audience, issuer);
    }
  }
}
