/** Steps 2 to 5 of issuance: the one path from a resolved grant to a signed, recorded token. */
module Pipeline {
  import opened Outcomes
  import opened Json
  import opened Scopes
  import opened Tokens
  import opened Repositories
  import opened Grants

  datatype Settings = Settings(issuer: string, resourceAudience: string, ttl: int, maxDepth: int) {
    /** The bounds checked when the configuration is loaded. */
    predicate Valid() {
      issuer != "" && resourceAudience != "" && 1 <= ttl <= 3600 && 1 <= maxDepth <= 10
    }
  }

  datatype IssuedToken = IssuedToken(accessToken: Token, expiresIn: int, scope: string, issuedTokenType: Option<string>)

  /** Steps 2 to 5: the scope string the token will carry. */
  function GrantedScope(result: GrantResult): Result<string> {
    var _ :- Need(result.principalStatus == Active, INVALID_CLIENT);
    var granted :- Attenuate(result.requestedScopes, result.ceilings);
    Ok(Joined(granted))
  }

  function With(claims: Claims, name: Name, v: Option<Value>): Claims {
    if v.Some? then claims[name := v.value] else claims
  }

  function TextOption(v: Option<string>): Option<Value> {
    if v.Some? then Some(Str(v.value)) else None
  }

  function AudienceOf(result: GrantResult, settings: Settings): string {
    if result.audience.Some? && result.audience.value != "" then result.audience.value else settings.resourceAudience
  }

  /** The claims a token with this ledger row carries, apart from those the minter owns. */
  function BodyClaims(row: IssuanceRecord, act: Option<Value>, tenant: Option<string>): Claims {
    var claims := map[SUB := Str(row.subject), AUD := Str(row.audience), CLIENT_ID := Str(row.clientId),
                      DELEGATION_DEPTH := Int(row.delegationDepth)];
    var claims := With(claims, SCOPE, if row.scope != "" then Some(Str(row.scope)) else None);
    var claims := With(claims, ACT, act);
    var claims := With(claims, TASK_ID, TextOption(row.taskId));
    With(claims, TENANT, TextOption(tenant))
  }

  /** Every claim of the token with this ledger row, as signed. */
  function SignedClaims(issuer: string, row: IssuanceRecord, act: Option<Value>, tenant: Option<string>): Claims {
    OwnedClaims(issuer, row.jti, row.issuedAt, row.expiresAt) + BodyClaims(row, act, tenant)
  }

  function RowFor(result: GrantResult, settings: Settings, scope: string, m: Minted): IssuanceRecord {
    IssuanceRecord(
      m.jti, result.clientId, result.subject, AudienceOf(result, settings), scope, m.issuedAt, m.expiresAt,
      if result.actRoot.Some? && result.actRoot.value != "" then result.actRoot.value else result.subject,
      result.taskId, result.delegationDepth)
  }

  /** The row before the minter has filled in its own part. */
  function Draft(result: GrantResult, settings: Settings, scope: string): IssuanceRecord {
    RowFor(result, settings, scope, Minted(Garbage, "", 0, 0, 0))
  }

  /** A signed token and the row that must be written before anybody sees it. */
  datatype Prepared = Prepared(minted: Minted, row: IssuanceRecord, issuedTokenType: Option<string>)

  /** `issue` up to the signature. */
  function Prepare(result: GrantResult, settings: Settings, key: SigningKey, now: int, jti: string): Result<Prepared> {
    var scope :- GrantedScope(result);
    var claims := BodyClaims(Draft(result, settings, scope), result.act, result.tenant);
    var m :- Mint(claims, settings.issuer, key, settings.ttl, result.maxExpiresAt, now, jti);
    Ok(Prepared(m, RowFor(result, settings, scope, m), result.issuedTokenType))
  }

  lemma BodyClaimsAreNotOwned(row: IssuanceRecord, act: Option<Value>, tenant: Option<string>)
    ensures BodyClaims(row, act, tenant).Keys !! MINTER_OWNED
  {
  }

  /** Reading a signed token back, member by member: what each claim says about the row. */
  function SignedMember(issuer: string, row: IssuanceRecord, act: Option<Value>, tenant: Option<string>,
                        name: Name): Option<Value> {
    match name
    case ISS => Some(Str(issuer))
    case IAT => Some(Int(WholeSeconds(row.issuedAt)))
    case EXP => Some(Int(WholeSeconds(row.expiresAt)))
    case JTI => Some(Str(row.jti))
    case SUB => Some(Str(row.subject))
    case AUD => Some(Str(row.audience))
    case CLIENT_ID => Some(Str(row.clientId))
    case DELEGATION_DEPTH => Some(Int(row.delegationDepth))
    case SCOPE => if row.scope != "" then Some(Str(row.scope)) else None
    case ACT => act
    case TASK_ID => TextOption(row.taskId)
    case TENANT => TextOption(tenant)
    case _ => None
  }

  lemma MemberOfWith(claims: Claims, added: Name, v: Option<Value>, name: Name)
    ensures Member(With(claims, added, v), name) == if name == added && v.Some? then v else Member(claims, name)
  {
  }

  /** The claims that the minter does not own, member by member. */
  lemma BodyClaimsRead(row: IssuanceRecord, act: Option<Value>, tenant: Option<string>, name: Name)
    ensures Member(BodyClaims(row, act, tenant), name)
         == if name in MINTER_OWNED then None else SignedMember("", row, act, tenant, name)
  {
    var base := map[SUB := Str(row.subject), AUD := Str(row.audience), CLIENT_ID := Str(row.clientId),
                    DELEGATION_DEPTH := Int(row.delegationDepth)];
    var scope := if row.scope != "" then Some(Str(row.scope)) else None;
    var c1 := With(base, SCOPE, scope);
    var c2 := With(c1, ACT, act);
    var c3 := With(c2, TASK_ID, TextOption(row.taskId));
    MemberOfWith(base, SCOPE, scope, name);
    MemberOfWith(c1, ACT, act, name);
    MemberOfWith(c2, TASK_ID, TextOption(row.taskId), name);
    MemberOfWith(c3, TENANT, TextOption(tenant), name);
  }

  lemma SignedClaimsRead(issuer: string, row: IssuanceRecord, act: Option<Value>, tenant: Option<string>, name: Name)
    ensures Member(SignedClaims(issuer, row, act, tenant), name) == SignedMember(issuer, row, act, tenant, name)
  {
    BodyClaimsRead(row, act, tenant, name);
    var body := BodyClaims(row, act, tenant);
    var owned := OwnedClaims(issuer, row.jti, row.issuedAt, row.expiresAt);
    assert Member(owned + body, name) == if name in body then Member(body, name) else Member(owned, name);
  }

  /** The token is the row, signed: every claim, and no other. */
  ghost predicate Carries(t: Token, key: SigningKey, issuer: string, row: IssuanceRecord, act: Option<Value>,
                          tenant: Option<string>) {
    && t.Jwt? && t.header == SignedHeader(key) && t.signer == key.key
    && forall name :: Member(t.payload, name) == SignedMember(issuer, row, act, tenant, name)
  }

  /** `t` and `row` are what issuing the grant at `now` signs and records. */
  ghost predicate Issues(result: GrantResult, settings: Settings, key: SigningKey, now: int, jti: string, t: Token,
                         row: IssuanceRecord) {
    && result.principalStatus == Active
    && row.scope == Joined(Kept(result.requestedScopes, result.ceilings))
    && Carries(t, key, settings.issuer, row, result.act, result.tenant)
    && row.jti == jti && row.clientId == result.clientId && row.subject == result.subject
    && row.audience
       == (if result.audience.Some?
           && result.audience.value != "" then result.audience.value else settings.resourceAudience)
    && row.rootSubject
       == (if result.actRoot.Some? && result.actRoot.value != "" then result.actRoot.value else result.subject)
    && row.taskId == result.taskId && row.delegationDepth == result.delegationDepth
    && row.issuedAt == now
    && row.issuedAt + SECOND <= row.expiresAt
    && IsLifetime(row, settings.ttl, result.maxExpiresAt)
  }

  /** The row lives for the configured time, or until the ceiling when that comes first. */
  ghost predicate IsLifetime(row: IssuanceRecord, ttl: int, ceiling: Option<int>) {
    var full := row.issuedAt + ttl * SECOND;
    row.expiresAt == if ceiling.Some? && ceiling.value < full then ceiling.value else full
  }

  lemma GrantedIsKept(result: GrantResult)
    ensures GrantedScope(result).Ok?
            ==> GrantedScope(result).value == Joined(Kept(result.requestedScopes, result.ceilings))
  {
    AttenuateGrantsTheIntersection(result.requestedScopes, result.ceilings);
  }

  /** What is signed says exactly what is recorded, member by member, within the lifetime allowed. */
  lemma PreparedTokenMatchesRow(result: GrantResult, settings: Settings, key: SigningKey, now: int, jti: string)
    requires Prepare(result, settings, key, now, jti).Ok?
    ensures var p := Prepare(result, settings, key, now, jti).value;
            && Issues(result, settings, key, now, jti, p.minted.token, p.row)
            && p.issuedTokenType == result.issuedTokenType
            && p.minted.expiresIn * SECOND <= p.row.expiresAt - now < (p.minted.expiresIn + 1) * SECOND
  {
    GrantedIsKept(result);
    var p := Prepare(result, settings, key, now, jti).value;
    var draft := Draft(result, settings, p.row.scope);
    MintArithmetic(BodyClaims(draft, result.act, result.tenant), settings.issuer, key, settings.ttl,
                   result.maxExpiresAt, now, jti);
    MintSucceedsExactlyWhen(BodyClaims(draft, result.act, result.tenant), settings.issuer, key, settings.ttl,
                            result.maxExpiresAt, now, jti);
    assert p.minted.token.payload == SignedClaims(settings.issuer, p.row, result.act, result.tenant);
    forall name ensures Member(p.minted.token.payload, name)
      == SignedMember(settings.issuer, p.row, result.act, result.tenant, name) {
      SignedClaimsRead(settings.issuer, p.row, result.act, result.tenant, name);
    }
  }

  /** The principal is active, it asks for nothing or for a scope that every ceiling allows, and at least
    * one whole second is left to live. */
  predicate IsSignable(result: GrantResult, ttl: int, now: int) {
    && result.principalStatus == Active
    && (result.requestedScopes == [] || exists w :: w in result.requestedScopes && WithinAll(w, result.ceilings))
    && ttl >= 1 && (result.maxExpiresAt.Some? ==> now + SECOND <= result.maxExpiresAt.value)
  }

  /** A grant is signed exactly when it is signable. */
  lemma SignedExactlyWhenSignable(result: GrantResult, settings: Settings, key: SigningKey, now: int, jti: string)
    ensures Prepare(result, settings, key, now, jti).Ok? <==> IsSignable(result, settings.ttl, now)
  {
    AttenuateGrantsTheIntersection(result.requestedScopes, result.ceilings);
    if GrantedScope(result).Ok? {
      var claims := BodyClaims(Draft(result, settings, GrantedScope(result).value), result.act, result.tenant);
      BodyClaimsAreNotOwned(Draft(result, settings, GrantedScope(result).value), result.act, result.tenant);
      MintSucceedsExactlyWhen(claims, settings.issuer, key, settings.ttl, result.maxExpiresAt, now, jti);
    }
  }

  /** Why a grant was not signed, in the order of the steps: a principal that may not act, no scope allowed,
    * and last an elapsed lifetime, which is no protocol error. */
  lemma UnsignedBecause(result: GrantResult, settings: Settings, key: SigningKey, now: int, jti: string)
    requires Prepare(result, settings, key, now, jti).Err?
    ensures var f := Prepare(result, settings, key, now, jti).failure;
            if result.principalStatus != Active
              then f == OAuthError("invalid_client", "client authentication failed", 401)
            else if result.requestedScopes != [] && forall w ::
              w in result.requestedScopes ==> !WithinAll(w, result.ceilings)
            then f == OAuthError("invalid_scope", "none of the requested scopes are allowed", 400)
            else f.TokenError?
  {
    AttenuateGrantsTheIntersection(result.requestedScopes, result.ceilings);
  }

  /** In terms of the attenuation step. */
  lemma PrepareSucceedsExactlyWhen(result: GrantResult, settings: Settings, key: SigningKey, now: int, jti: string)
    requires settings.ttl >= 1
    ensures Prepare(result, settings, key, now, jti).Ok? <==>
              && result.principalStatus == Active
              && Attenuate(result.requestedScopes, result.ceilings).Ok?
              && (result.maxExpiresAt.Some? ==> now + SECOND <= result.maxExpiresAt.value)
  {
    SignedExactlyWhenSignable(result, settings, key, now, jti);
    AttenuateGrantsTheIntersection(result.requestedScopes, result.ceilings);
  }

  /** The claims dictionary, filled in step by step. */
  method FillClaims(row: IssuanceRecord, act: Option<Value>, tenant: Option<string>) returns (claims: Claims)
    ensures claims == BodyClaims(row, act, tenant)
  {
    claims := map[SUB := Str(row.subject), AUD := Str(row.audience), CLIENT_ID := Str(row.clientId),
                  DELEGATION_DEPTH := Int(row.delegationDepth)];
    if row.scope != "" {
      claims := claims[SCOPE := Str(row.scope)];
    }
    if act.Some? {
      claims := claims[ACT := act.value];
    }
    if row.taskId.Some? {
      claims := claims[TASK_ID := Str(row.taskId.value)];
    }
    if tenant.Some? {
      claims := claims[TENANT := Str(tenant.value)];
    }
  }

  class IssuancePipeline {
    const settings: Settings
    const key: SigningKey
    const credentials: IssuedCredentialRepository

    constructor (settings: Settings, key: SigningKey, credentials: IssuedCredentialRepository)
      ensures this.settings == settings && this.key == key && this.credentials == credentials
    {
      this.settings := settings;
      this.key := key;
      this.credentials := credentials;
    }

    /** Steps 2 to 5 and the signature, with nothing recorded yet. */
    method Sign(result: GrantResult, now: int, jti: string) returns (r: Result<Prepared>)
      ensures r == Prepare(result, settings, key, now, jti)
    {
      if result.principalStatus != Active {
        return Err(INVALID_CLIENT);
      }
      var granted := Attenuate(result.requestedScopes, result.ceilings);
      if granted.Err? {
        return Err(granted.failure);
      }
      var scope := Joined(granted.value);
      var claims := FillClaims(Draft(result, settings, scope), result.act, result.tenant);
      var minted := Mint(claims, settings.issuer, key, settings.ttl, result.maxExpiresAt, now, jti);
      if minted.Err? {
        return Err(minted.failure);
      }
      return Ok(Prepared(minted.value, RowFor(result, settings, scope, minted.value), result.issuedTokenType));
    }

    /** A token is returned exactly when the grant can be signed and its row can be written. Then that row is
      * in the ledger, the token says what the row says, and the response says their scope, their whole
      * seconds to live and the type the grant declared. Any failure leaves the ledger as it was. */
    method Issue(result: GrantResult, now: int, jti: string, reachable: bool) returns (r: Result<IssuedToken>)
      modifies credentials
      ensures r.Ok? <==> IsSignable(result, settings.ttl, now) && reachable && jti !in old(credentials.rows)
      ensures r.Ok? ==>
                && jti in credentials.rows
                && var row := credentials.rows[jti];
                && credentials.rows == old(credentials.rows)[jti := row]
                && Issues(result, settings, key, now, jti, r.value.accessToken, row)
                && r.value.scope == row.scope && r.value.issuedTokenType == result.issuedTokenType
                && r.value.expiresIn * SECOND <= row.expiresAt - now < (r.value.expiresIn + 1) * SECOND
      ensures r.Ok? ==>
                var p := Prepare(result, settings, key, now, jti);
                p.Ok? && r.value.accessToken == p.value.minted.token && credentials.rows[jti] == p.value.row
      ensures r.Err? ==> credentials.rows == old(credentials.rows)
    {
      SignedExactlyWhenSignable(result, settings, key, now, jti);
      var signed := Sign(result, now, jti);
      if signed.Err? {
        return Err(signed.failure);
      }
      var p := signed.value;
      PreparedTokenMatchesRow(result, settings, key, now, jti);
      // Recorded before the token can reach anybody.
      var recorded := credentials.Record(p.row, reachable);
      if recorded.Err? {
        return Err(recorded.failure);
      }
      return Ok(IssuedToken(p.minted.token, p.minted.expiresIn, p.row.scope, p.issuedTokenType));
    }
  }
}
