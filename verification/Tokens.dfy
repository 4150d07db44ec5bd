/** Minting and verifying access tokens, with ideal signatures: a signature verifies under a key exactly
  * when that key made it. Time is in whole microseconds. */
module Tokens {
  import opened Outcomes
  import opened Json

  const SECOND := 1_000_000

  const ALGORITHM := "ES256"
  const ACCESS_TOKEN_TYPE := "at+jwt"

  /** Claims only the minter may set. */
  const MINTER_OWNED: set<Name> := {ISS, IAT, EXP, JTI}
  const REQUIRED: set<Name> := {ISS, SUB, AUD, IAT, EXP, JTI}

  /** A private key, known by its identity alone. */
  datatype Key = Key(id: nat)

  datatype SigningKey = SigningKey(key: Key, kid: string)

  /** What a caller can present: text that is no JWT at all, or a JWT signed with some key. */
  datatype Token = Garbage | Jwt(header: Claims, payload: Claims, signer: Key)

  datatype Minted = Minted(token: Token, jti: string, issuedAt: int, expiresAt: int, expiresIn: int)

  /** NumericDate (section 2 of RFC 7519) as signed: the fraction of a second is dropped. */
  function WholeSeconds(t: int): int {
    t / SECOND
  }

  lemma WholeSecondsRoundDown(t: int)
    ensures WholeSeconds(t) * SECOND <= t < (WholeSeconds(t) + 1) * SECOND
  {
  }

  /** `int(delta.total_seconds())`, which truncates toward zero. */
  function TruncatedSeconds(delta: int): int {
    if delta >= 0 then delta / SECOND else -(-delta / SECOND)
  }

  function Earlier(t: int, limit: Option<int>): int {
    if limit.Some? && limit.value < t then limit.value else t
  }

  function SignedHeader(key: SigningKey): Claims {
    map[ALG := Str(ALGORITHM), KID := Str(key.kid), TYP := Str(ACCESS_TOKEN_TYPE)]
  }

  function OwnedClaims(issuer: string, jti: string, issuedAt: int, expiresAt: int): Claims {
    map[ISS := Str(issuer), IAT := Int(WholeSeconds(issuedAt)), EXP := Int(WholeSeconds(expiresAt)), JTI := Str(jti)]
  }

  /** `TokenMinter.mint` at the clock reading `now`, drawing the identifier `jti`. */
  function Mint(claims: Claims, issuer: string, key: SigningKey, ttl: int, notAfter: Option<int>, now: int,
                jti: string): Result<Minted> {
    var _ :- Need(claims.Keys !! MINTER_OWNED, TokenError("the caller may not set claims the minter owns"));
    var expiresAt := Earlier(now + ttl * SECOND, notAfter);
    var remaining := TruncatedSeconds(expiresAt - now);
    var _ :- Need(remaining > 0, TokenError("the requested lifetime has already elapsed"));
    var payload := OwnedClaims(issuer, jti, now, expiresAt) + claims;
    Ok(Minted(Jwt(SignedHeader(key), payload, key.key), jti, now, expiresAt, remaining))
  }

  // ------------------------------------------------------------------------------- verification

  /** A time claim, when present, is a number that satisfies the check. */
  predicate HoldsAsTime(claims: Claims, name: Name, now: int, future: bool) {
    name in claims ==>
      && claims[name].Int?
      && (if future then now < claims[name].n * SECOND else claims[name].n * SECOND <= now)
  }

  predicate NamesAudience(aud: Value, audience: string) {
    match aud
    case Str(s) => s == audience
    case List(items) => (forall i :: 0 <= i < |items| ==> items[i].Str?) && Str(audience) in items
    case _ => false
  }

  /** The shared JWT decoding both verifiers and the assertion check call: ES256 only, a valid
    * signature, the required claims, the time claims, and issuer and audience when given. */
  predicate Decodes(t: Token, key: Key, required: set<Name>, issuer: Option<string>, audience: Option<string>,
                    now: int) {
    && t.Jwt?
    && Get(t.header, ALG) == Str(ALGORITHM)
    && t.signer == key
    && (forall name | name in required :: Get(t.payload, name) != Null)
    && HoldsAsTime(t.payload, EXP, now, true)
    && HoldsAsTime(t.payload, IAT, now, false)
    && HoldsAsTime(t.payload, NBF, now, false)
    && (SUB in t.payload ==> t.payload[SUB].Str?)
    && (JTI in t.payload ==> t.payload[JTI].Str?)
    && (issuer.Some? ==> Get(t.payload, ISS) == Str(issuer.value))
    && (audience.Some? ==> NamesAudience(Get(t.payload, AUD), audience.value))
  }

  /** `TokenVerifier._verify`; no audience means `verify_any_audience`. */
  function Verify(t: Token, issuer: string, key: SigningKey, audience: Option<string>, now: int): Result<Claims> {
    var _ :- Need(t.Jwt?, TokenError("token header is malformed"));
    var _ :- Need(Get(t.header, ALG) == Str(ALGORITHM), TokenError("unsupported token algorithm"));
    var _ :- Need(Get(t.header, TYP) == Str(ACCESS_TOKEN_TYPE), TokenError("token is not an access token"));
    var _ :- Need(Get(t.header, KID) == Str(key.kid), TokenError("token was not signed by the active key"));
    var _ :- Need(Decodes(t, key.key, REQUIRED, Some(issuer), audience, now), TokenError("token validation failed"));
    Ok(t.payload)
  }

  // --------------------------------------------------------------------------------- properties

  /** A mint is refused exactly when it would set a claim of the minter's, or has less than one whole
    * second to live. */
  lemma MintSucceedsExactlyWhen(claims: Claims, issuer: string, key: SigningKey, ttl: int, notAfter: Option<int>,
                                now: int, jti: string)
    ensures Mint(claims, issuer, key, ttl, notAfter, now, jti).Ok? <==>
              && claims.Keys !! MINTER_OWNED
              && ttl >= 1
              && (notAfter.Some? ==> now + SECOND <= notAfter.value)
  {
    LeastWholeSecond(Earlier(now + ttl * SECOND, notAfter) - now);
  }

  lemma LeastWholeSecond(delta: int)
    ensures TruncatedSeconds(delta) > 0 <==> delta >= SECOND
  {
  }

  /** Lifetime arithmetic, for every clock reading and every ceiling: the full lifetime unless the ceiling
    * comes first, and then the ceiling; `expires_in` is that lifetime in whole seconds. */
  lemma MintArithmetic(claims: Claims, issuer: string, key: SigningKey, ttl: int, notAfter: Option<int>, now: int,
                       jti: string)
    requires Mint(claims, issuer, key, ttl, notAfter, now, jti).Ok?
    ensures var m := Mint(claims, issuer, key, ttl, notAfter, now, jti).value;
            var signed := WholeSeconds(m.expiresAt) - WholeSeconds(m.issuedAt);
            && 1 <= m.expiresIn <= signed <= m.expiresIn + 1
            && signed <= ttl
            && m.issuedAt == now && m.jti == jti
            && (notAfter.None? || notAfter.value >= now + ttl * SECOND ==> m.expiresAt == now + ttl * SECOND)
            && (notAfter.Some? && notAfter.value < now + ttl * SECOND ==> m.expiresAt == notAfter.value)
            && m.expiresIn * SECOND <= m.expiresAt - now < (m.expiresIn + 1) * SECOND
  {
    var m := Mint(claims, issuer, key, ttl, notAfter, now, jti).value;
    WholeSecondsApart(m.issuedAt, m.expiresAt, ttl);
  }

  /** A mint is never refused as a protocol error: an elapsed lifetime is not the caller's mistake. */
  lemma MintFailureIsNoProtocolError(claims: Claims, issuer: string, key: SigningKey, ttl: int, notAfter: Option<int>,
                                     now: int, jti: string)
    ensures var m := Mint(claims, issuer, key, ttl, notAfter, now, jti); m.Err? ==> m.failure.TokenError?
  {
  }

  lemma WholeSecondsApart(a: int, b: int, ttl: int)
    requires a + SECOND <= b <= a + ttl * SECOND
    ensures (b - a) / SECOND <= WholeSeconds(b) - WholeSeconds(a) <= (b - a) / SECOND + 1
    ensures WholeSeconds(b) - WholeSeconds(a) <= ttl
    ensures (b - a) / SECOND >= 1
  {
  }

  /** The audience is this one, or a list of texts with this one among them. */
  ghost predicate IsMadeFor(aud: Value, audience: string) {
    || aud == Str(audience)
    || (aud.List? && (forall v ::
      v in aud.items ==> v.Str?) && exists i :: 0 <= i < |aud.items| && aud.items[i] == Str(audience))
  }

  /** An access token of this issuer, signed with its key, with every required claim, at a moment in its
    * lifetime, and made for the audience when one is asked for. */
  ghost predicate IsGenuine(t: Token, issuer: string, key: SigningKey, audience: Option<string>, now: int) {
    && t.Jwt? && t.signer == key.key
    && Get(t.header, ALG) == Str("ES256") && Get(t.header, TYP) == Str("at+jwt") && Get(t.header, KID) == Str(key.kid)
    && Get(t.payload, ISS) == Str(issuer) && Get(t.payload, SUB).Str? && Get(t.payload, JTI).Str?
    && Get(t.payload, IAT).Int? && Get(t.payload, IAT).n * SECOND <= now
    && Get(t.payload, EXP).Int? && now < Get(t.payload, EXP).n * SECOND
    && (NBF in t.payload ==> t.payload[NBF].Int? && t.payload[NBF].n * SECOND <= now)
    && Get(t.payload, AUD) != Null && (audience.Some? ==> IsMadeFor(Get(t.payload, AUD), audience.value))
  }

  lemma AudienceIsChecked(aud: Value, audience: string)
    ensures NamesAudience(aud, audience) <==> IsMadeFor(aud, audience)
  {
  }

  lemma DecodingIsComplete(t: Token, issuer: string, key: SigningKey, audience: Option<string>, now: int)
    ensures Decodes(t, key.key, REQUIRED, Some(issuer), audience, now)
            && Get(t.header, TYP) == Str("at+jwt") && Get(t.header, KID) == Str(key.kid)
       <==> IsGenuine(t, issuer, key, audience, now)
  {
    if t.Jwt? {
      AudienceIsChecked(Get(t.payload, AUD), if audience.Some? then audience.value else "");
      assert forall name :: name in REQUIRED <==> name in [ISS, SUB, AUD, IAT, EXP, JTI];
    }
  }

  /** The verifier returns the claims exactly of genuine tokens, unchanged; its refusals are token errors,
    * never protocol errors. */
  lemma VerifyAcceptsExactlyWhen(t: Token, issuer: string, key: SigningKey, audience: Option<string>, now: int)
    ensures var r := Verify(t, issuer, key, audience, now);
            && (r.Ok? <==> IsGenuine(t, issuer, key, audience, now))
            && (r.Ok? ==> r.value == t.payload)
            && (r.Err? ==> r.failure.TokenError?)
  {
    DecodingIsComplete(t, issuer, key, audience, now);
  }

  /** A token with the server's header, signature and claims verifies exactly until it expires. */
  lemma VerifiesUntilExpiry(t: Token, issuer: string, key: SigningKey, iat: int, exp: int, now: int)
    requires t.Jwt? && t.header == SignedHeader(key) && t.signer == key.key
    requires Get(t.payload, ISS) == Str(issuer) && Get(t.payload, SUB).Str? && Get(t.payload, JTI).Str?
    requires Get(t.payload, AUD) != Null && NBF !in t.payload
    requires Get(t.payload, IAT) == Int(iat) && iat * SECOND <= now
    requires Get(t.payload, EXP) == Int(exp)
    ensures Verify(t, issuer, key, None, now)
         == if now < exp * SECOND then Ok(t.payload) else Err(TokenError("token validation failed"))
  {
    assert forall name :: name in REQUIRED ==> Get(t.payload, name) != Null;
    assert Decodes(t, key.key, REQUIRED, Some(issuer), None, now) <==> now < exp * SECOND;
  }

  /** What was minted verifies, unchanged, from that moment until its signed expiry and not after. */
  lemma MintedTokenVerifies(claims: Claims, issuer: string, key: SigningKey, ttl: int, notAfter: Option<int>, now: int,
                            jti: string, later: int)
    requires Mint(claims, issuer, key, ttl, notAfter, now, jti).Ok? && now <= later
    requires Get(claims, SUB).Str? && Get(claims, AUD) != Null && NBF !in claims
    ensures var m := Mint(claims, issuer, key, ttl, notAfter, now, jti).value;
            Verify(m.token, issuer, key, None, later)
            == if later < WholeSeconds(m.expiresAt) * SECOND then Ok(m.token.payload)
              else Err(TokenError("token validation failed"))
  {
    var m := Mint(claims, issuer, key, ttl, notAfter, now, jti).value;
    VerifiesUntilExpiry(m.token, issuer, key, WholeSeconds(now), WholeSeconds(m.expiresAt), later);
  }
}
