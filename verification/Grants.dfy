/** Step 1 of issuance: where the authority in the new token comes from. */
module Grants {
  import opened Outcomes
  import opened Json
  import opened StringOrder
  import opened Scopes
  import opened ScopeHops
  import opened Delegation
  import opened Tokens
  import opened Repositories

  const TOKEN_TYPE_URN := "urn:ietf:params:oauth:token-type:access_token"

  const REFUSED := OAuthError("invalid_grant", "token exchange was refused", 400)
  const TOO_DEEP := OAuthError("invalid_grant", "delegation is too deep", 400)

  datatype GrantResult = GrantResult(
    subject: string,
    clientId: string,
    requestedScopes: seq<string>,
    ceilings: seq<set<string>>,
    principalStatus: Status,
    audience: Option<string>,
    issuedTokenType: Option<string>,
    tenant: Option<string>,
    maxExpiresAt: Option<int>,
    act: Option<Value>,
    actRoot: Option<string>,
    taskId: Option<string>,
    delegationDepth: int)

  /** `ClientCredentialsGrant.resolve`: a root token, of a task drawn for it. */
  function ResolveClientCredentials(scope: Option<string>, client: Client, task: string): GrantResult {
    GrantResult(
      client.subject, client.clientId, Parsed(scope), [client.allowedScopes], client.status,
      None, None, Some(client.tenant), None, None, None, Some(task), 0)
  }

  /** The form fields of a token exchange; `None` for a field that is absent. */
  datatype ExchangeForm = ExchangeForm(
    audience: Option<string>,
    subjectToken: Option<Token>,
    actorToken: Option<Token>,
    subjectTokenType: Option<string>,
    actorTokenType: Option<string>,
    requestedTokenType: Option<string>,
    scope: Option<string>)

  /** What the form asks for, once it has been checked. */
  datatype Exchange = Exchange(audience: string, subjectToken: Token, actorToken: Token, scope: Option<string>)

  function Missing(name: string): Failure {
    OAuthError("invalid_request", "missing required parameter: " + name, 400)
  }

  function Require(value: Option<string>, name: string): Result<string> {
    if value.Some? && value.value != "" then Ok(value.value) else Err(Missing(name))
  }

  function RequireToken(value: Option<Token>, name: string): Result<Token> {
    if value.Some? then Ok(value.value) else Err(Missing(name))
  }

  function RequireType(value: Option<string>, name: string): Result<()> {
    var t :- Require(value, name);
    Need(t == TOKEN_TYPE_URN, OAuthError("invalid_request", "unsupported " + name, 400))
  }

  function CheckForm(form: ExchangeForm, client: Client): Result<Exchange> {
    var audience :- Require(form.audience, "audience");
    var _ :- Need(audience in client.allowedAudiences, OAuthError("invalid_target", "audience is not permitted", 400));
    var subjectToken :- RequireToken(form.subjectToken, "subject_token");
    var actorToken :- RequireToken(form.actorToken, "actor_token");
    var _ :- RequireType(form.subjectTokenType, "subject_token_type");
    var _ :- RequireType(form.actorTokenType, "actor_token_type");
    var _ :- Need(form.requestedTokenType.None? || form.requestedTokenType.value == TOKEN_TYPE_URN,
                  OAuthError("invalid_request", "unsupported requested_token_type", 400));
    Ok(Exchange(audience, subjectToken, actorToken, form.scope))
  }

  /** What an exchange form must say, for this caller. */
  predicate IsInOrder(form: ExchangeForm, client: Client) {
    && form.audience.Some? && form.audience.value != "" && form.audience.value in client.allowedAudiences
    && form.subjectToken.Some? && form.actorToken.Some?
    && form.subjectTokenType == Some(TOKEN_TYPE_URN) && form.actorTokenType == Some(TOKEN_TYPE_URN)
    && (form.requestedTokenType == None || form.requestedTokenType == Some(TOKEN_TYPE_URN))
  }

  /** A form passes exactly when it is in order, and then what is exchanged is what the form says. An
    * audience that is named but not permitted is an invalid target; all else that is wrong is an invalid
    * request. */
  lemma FormPassesExactlyWhen(form: ExchangeForm, client: Client)
    ensures var f := CheckForm(form, client);
            && (f.Ok? <==> IsInOrder(form, client))
            && (f.Ok? ==> f.value == Exchange(form.audience.value, form.subjectToken.value, form.actorToken.value,
                                              form.scope))
            && (f.Err? ==>
                  f.failure.OAuthError? && f.failure.status == 400
                  && f.failure.error == if NamesOther(form, client) then "invalid_target" else "invalid_request")
  {
  }

  predicate NamesOther(form: ExchangeForm, client: Client) {
    form.audience.Some? && form.audience.value != "" && form.audience.value !in client.allowedAudiences
  }

  /** Verification of a presented token, whatever its audience; every failure reads alike. */
  function VerifyPresented(t: Token, issuer: string, key: SigningKey, now: int): Result<Claims> {
    match Verify(t, issuer, key, None, now)
    case Ok(claims) => Ok(claims)
    case Err(_) => Err(REFUSED)
  }

  /** The registration named by the actor token's `client_id` claim. */
  function ActorClient(actor: Claims, clients: ClientTable): Result<Client> {
    match Get(actor, CLIENT_ID)
    case Str(id) => if id in clients then Ok(clients[id]) else Err(REFUSED)
    case _ => Err(REFUSED)
  }

  function AgreedTenant(subject: Claims, actorClient: Client): Result<string> {
    var tenant :- TenantOf(subject);
    var _ :- Need(tenant.None? || tenant.value == actorClient.tenant, REFUSED);
    Ok(actorClient.tenant)
  }

  function ScopeClaim(subject: Claims): Result<Option<string>> {
    match Get(subject, SCOPE)
    case Null => Ok(None)
    case Str(s) => Ok(Some(s))
    case _ => Err(Unhandled)
  }

  /** The grant of a permitted hop: what the subject token holds, bounded by the actor's registration. */
  function HopGrant(x: Exchange, client: Client, subject: Claims, holder: string, actorClient: Client, tenant: string,
                    depth: nat): Result<GrantResult> {
    var held :- ScopeClaim(subject);
    var scopes := Elements(Parsed(held));
    var act :- Nest(subject);
    var ids :- Chain(subject);
    var task :- TaskOf(subject);
    var _ :- Need(Get(subject, EXP).Int?, Unhandled);
    Ok(GrantResult(
        holder, client.clientId, Requested(x.scope, scopes), [scopes, actorClient.allowedScopes], Active,
        Some(x.audience), Some(TOKEN_TYPE_URN), Some(tenant), Some(subject[EXP].n * SECOND),
        Some(act), if |ids| > 0 then Some(ids[|ids| - 1]) else None, task, depth))
  }

  /** A hop, if the cap leaves room for one more. */
  function CappedHop(x: Exchange, client: Client, subject: Claims, holder: string, actorClient: Client, tenant: string,
                     maxDepth: int): Result<GrantResult> {
    var depth :- DeclaredDepth(subject);
    var _ :- Need(depth + 1 <= maxDepth, TOO_DEEP);
    HopGrant(x, client, subject, holder, actorClient, tenant, depth + 1)
  }

  /** Everything `TokenExchangeGrant.resolve` decides once both tokens are verified and the actor's
    * registration is read. */
  function Policy(x: Exchange, client: Client, subject: Claims, actor: Claims, actorClient: Client,
                  maxDepth: int): Result<GrantResult> {
    var _ :- Need(Get(actor, SUB).Str?, Unhandled);
    var permitted :- MayActPermits(subject, actor[SUB].s);
    var _ :- Need(permitted, REFUSED);
    var tenant :- AgreedTenant(subject, actorClient);
    CappedHop(x, client, subject, actor[SUB].s, actorClient, tenant, maxDepth)
  }

  /** What the claims and the registration must say for a hop: the actor is permitted, the tenants agree,
    * the chain spells `ids` and the depth counts them, within the cap. */
  ghost predicate IsHopPermitted(subject: Claims, actor: Claims, actorClient: Client, maxDepth: int, ids: seq<string>) {
    && Get(actor, SUB).Str? && MayActPermits(subject, Get(actor, SUB).s) == Ok(true)
    && (Get(subject, TENANT) == Null || (Get(subject, TENANT) == Str(actorClient.tenant) && actorClient.tenant != ""))
    && Spells(subject, ids) && |ids| <= MAXIMUM_CHAIN_DEPTH && |ids| <= maxDepth
    && Get(subject, DELEGATION_DEPTH) == Int(|ids| - 1)
    && (Get(subject, SCOPE) == Null || Get(subject, SCOPE).Str?)
    && (Get(subject, TASK_ID) == Null || IsNonEmptyText(Get(subject, TASK_ID)))
    && Get(subject, EXP).Int?
  }

  /** The grant of such a hop: the actor's name and the caller's identifier, what the subject token holds,
    * its expiry, chain, task and root, one level deeper. */
  ghost predicate IsGrantOfHop(r: GrantResult, x: Exchange, client: Client, subject: Claims, actor: Claims,
                               actorClient: Client, ids: seq<string>) {
    var held := if Get(subject, SCOPE).Str? then ScopeSet(Get(subject, SCOPE).s) else {};
    && Str(r.subject) == Get(actor, SUB) && r.clientId == client.clientId && r.principalStatus == Active
    && r.requestedScopes == (if Parsed(x.scope) != [] then Parsed(x.scope) else Sorted(held))
    && r.ceilings == [held, actorClient.allowedScopes]
    && r.audience == Some(x.audience) && r.tenant == Some(actorClient.tenant)
    && r.issuedTokenType == Some("urn:ietf:params:oauth:token-type:access_token")
    && Get(subject, EXP).Int? && r.maxExpiresAt == Some(Get(subject, EXP).n * SECOND)
    && r.act.Some? && r.act.value.Object? && Spells(r.act.value.members, ids)
    && r.delegationDepth == |ids| && r.actRoot == Some(ids[|ids| - 1])
    && r.taskId == (if Get(subject, TASK_ID).Str? then Some(Get(subject, TASK_ID).s) else None)
  }

  lemma ReadingsOfPermitted(subject: Claims, ids: seq<string>)
    requires Spells(subject, ids) && |ids| <= MAXIMUM_CHAIN_DEPTH && Get(subject, DELEGATION_DEPTH) == Int(|ids| - 1)
    ensures Chain(subject) == Ok(ids) && DeclaredDepth(subject) == Ok(|ids| - 1)
    ensures Nest(subject).Ok? && Nest(subject).value.Object? && Spells(Nest(subject).value.members, ids)
  {
    ChainReads(subject, ids);
    var act := Nest(subject).value.members;
    assert Get(act, SUB) == Get(subject, SUB) && Get(act, ACT) == Get(subject, ACT);
  }

  lemma GrantIsOfHop(x: Exchange, client: Client, subject: Claims, actor: Claims, actorClient: Client, ids: seq<string>)
    requires Spells(subject, ids) && |ids| <= MAXIMUM_CHAIN_DEPTH && Get(subject, DELEGATION_DEPTH) == Int(|ids| - 1)
    requires Get(actor, SUB).Str?
    ensures var r := HopGrant(x, client, subject, Get(actor, SUB).s, actorClient, actorClient.tenant, |ids|);
            r.Ok? ==> IsGrantOfHop(r.value, x, client, subject, actor, actorClient, ids)
  {
    ReadingsOfPermitted(subject, ids);
    HeldScopes(subject);
  }

  lemma HeldScopes(subject: Claims)
    ensures ScopeClaim(subject).Ok? ==>
              Elements(Parsed(ScopeClaim(subject).value))
              == if Get(subject, SCOPE).Str? then ScopeSet(Get(subject, SCOPE).s) else {}
  {
  }

  lemma CappedHopReads(x: Exchange, client: Client, subject: Claims, holder: string, actorClient: Client,
                       tenant: string, maxDepth: int)
    requires CappedHop(x, client, subject, holder, actorClient, tenant, maxDepth).Ok?
    ensures Chain(subject).Ok?
    ensures var ids := Chain(subject).value;
            && Spells(subject, ids) && |ids| <= MAXIMUM_CHAIN_DEPTH && |ids| <= maxDepth
            && Get(subject, DELEGATION_DEPTH) == Int(|ids| - 1)
            && (Get(subject, SCOPE) == Null || Get(subject, SCOPE).Str?)
            && (Get(subject, TASK_ID) == Null || IsNonEmptyText(Get(subject, TASK_ID)))
            && Get(subject, EXP).Int?
            && CappedHop(x, client, subject, holder, actorClient, tenant, maxDepth)
               == HopGrant(x, client, subject, holder, actorClient, tenant, |ids|)
  {
    ChainReads(subject, Chain(subject).value);
  }

  lemma PolicyAgrees(x: Exchange, client: Client, subject: Claims, actor: Claims, actorClient: Client, maxDepth: int)
    requires Policy(x, client, subject, actor, actorClient, maxDepth).Ok?
    ensures Get(actor, SUB).Str? && MayActPermits(subject, Get(actor, SUB).s) == Ok(true)
    ensures Get(subject, TENANT) == Null
            || (Get(subject, TENANT) == Str(actorClient.tenant) && actorClient.tenant != "")
    ensures Policy(x, client, subject, actor, actorClient, maxDepth)
         == CappedHop(x, client, subject, Get(actor, SUB).s, actorClient, actorClient.tenant, maxDepth)
  {
  }

  /** On any claims whatever, the policy grants a hop only when it is permitted, and the grant is that of
    * the hop. */
  lemma PolicyGrantsOnlyPermitted(x: Exchange, client: Client, subject: Claims, actor: Claims, actorClient: Client,
                                  maxDepth: int)
    requires Policy(x, client, subject, actor, actorClient, maxDepth).Ok?
    ensures var r := Policy(x, client, subject, actor, actorClient, maxDepth).value;
            && Chain(subject).Ok?
            && IsHopPermitted(subject, actor, actorClient, maxDepth, Chain(subject).value)
            && IsGrantOfHop(r, x, client, subject, actor, actorClient, Chain(subject).value)
  {
    PolicyAgrees(x, client, subject, actor, actorClient, maxDepth);
    CappedHopReads(x, client, subject, Get(actor, SUB).s, actorClient, actorClient.tenant, maxDepth);
    GrantIsOfHop(x, client, subject, actor, actorClient, Chain(subject).value);
  }

  /** And it grants every permitted one. */
  lemma PolicyGrantsEveryPermitted(x: Exchange, client: Client, subject: Claims, actor: Claims, actorClient: Client,
                                   maxDepth: int, ids: seq<string>)
    requires IsHopPermitted(subject, actor, actorClient, maxDepth, ids)
    ensures Policy(x, client, subject, actor, actorClient, maxDepth).Ok?
  {
    ReadingsOfPermitted(subject, ids);
  }

  /** `resolve` from the checked form on, when nothing happens in between. */
  function ResolveChecked(x: Exchange, client: Client, clients: ClientTable, issuer: string, key: SigningKey,
                          maxDepth: int, now: int): Result<GrantResult> {
    var subject :- VerifyPresented(x.subjectToken, issuer, key, now);
    var actor :- VerifyPresented(x.actorToken, issuer, key, now);
    var actorClient :- ActorClient(actor, clients);
    Policy(x, client, subject, actor, actorClient, maxDepth)
  }

  /** The whole of `resolve`, when nothing happens in between. */
  function ResolveExchange(form: ExchangeForm, client: Client, clients: ClientTable, issuer: string, key: SigningKey,
                           maxDepth: int, now: int): Result<GrantResult> {
    var x :- CheckForm(form, client);
    ResolveChecked(x, client, clients, issuer, key, maxDepth, now)
  }
}
