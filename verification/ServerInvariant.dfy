/** The invariant of the server, and its preservation by every step. */
module ServerInvariant {
  import opened Outcomes
  import opened Json
  import opened Scopes
  import opened ScopeHops
  import opened Delegation
  import opened Tokens
  import opened Repositories
  import opened Grants
  import opened Pipeline
  import opened Server

  // ------------------------------------------------------------------- what one issuance looks like

  /** The token behind a row is exactly the row, signed, with the chain and tenant of its origin. */
  ghost predicate TokenIs(cfg: Config, t: Token, row: IssuanceRecord, act: Option<Value>, tenant: string) {
    Carries(t, cfg.key, cfg.settings.issuer, row, act, Some(tenant))
  }

  function TenantIn(origin: Origin): string {
    match origin
    case RootOf(client, _) => client.tenant
    case HopFrom(_, _, _, actor, _, _) => actor.tenant
  }

  ghost predicate ChainIs(t: Token, row: IssuanceRecord) {
    && t.Jwt?
    && Chain(t.payload).Ok?
    && row.delegationDepth >= 0
    && |Chain(t.payload).value| == row.delegationDepth + 1
    && Chain(t.payload).value[row.delegationDepth] == row.rootSubject
  }

  ghost predicate RootOk(cfg: Config, t: Token, row: IssuanceRecord, client: Client, asked: Option<string>) {
    && TokenIs(cfg, t, row, None, client.tenant)
    && client.Valid() && client.status == Active
    && row.subject == client.subject && row.clientId == client.clientId
    && row.rootSubject == client.subject
    && row.audience == cfg.settings.resourceAudience
    && row.delegationDepth == 0
    && IsLifetime(row, cfg.settings.ttl, None)
    && IsRootScope(row.scope, asked, client.allowedScopes)
  }

  ghost predicate HopOk(cfg: Config, t: Token, row: IssuanceRecord, o: Origin, parent: Token, parentRow: IssuanceRecord,
                        parentTenant: string, holderRow: IssuanceRecord)
    requires o.HopFrom?
  {
    && parent.Jwt? && Nest(parent.payload).Ok?
    && TokenIs(cfg, t, row, Some(Nest(parent.payload).value), o.actor.tenant)
    && o.actor.Valid() && o.caller.Valid()
    && row.subject == holderRow.subject && o.actor.clientId == holderRow.clientId
    && row.clientId == o.caller.clientId && row.audience == o.audience
    && o.audience in o.caller.allowedAudiences
    && o.actor.tenant == parentTenant != ""
    && row.rootSubject == parentRow.rootSubject && row.taskId == parentRow.taskId
    && row.delegationDepth == parentRow.delegationDepth + 1 <= cfg.settings.maxDepth
    && IsLifetime(row, cfg.settings.ttl, Some(WholeSeconds(parentRow.expiresAt) * SECOND))
    && IsHopScope(row.scope, ScopeSet(parentRow.scope), o.asked, o.actor.allowedScopes)
  }

  ghost predicate EntryOk(cfg: Config, ledger: Ledger, history: History, t: Token, row: IssuanceRecord,
                          origin: Origin) {
    && ChainIs(t, row)
    && row.subject != "" && row.audience != ""
    && row.taskId.Some? && row.taskId.value != ""
    && row.issuedAt + SECOND <= row.expiresAt
    && match origin
       case RootOf(client, asked) => RootOk(cfg, t, row, client, asked)
       case HopFrom(p, holder, _, _, _, _) =>
         && p in history && p in ledger && holder in ledger
         && HopOk(cfg, t, row, origin, history[p].token, ledger[p], TenantIn(history[p].origin), ledger[holder])
  }

  ghost predicate EntryAt(cfg: Config, ledger: Ledger, history: History, j: string) {
    && j in history && j in ledger
    && ledger[j].jti == j
    && EntryOk(cfg, ledger, history, history[j].token, ledger[j], history[j].origin)
  }

  ghost predicate LedgerOk(cfg: Config, ledger: Ledger, history: History) {
    && ledger.Keys == history.Keys
    && forall j {:trigger EntryAt(cfg, ledger, history, j)} :: j in history ==> EntryAt(cfg, ledger, history, j)
  }

  // ----------------------------------------------------------------------- what a request has learnt

  /** What the policy makes of a subject token with this row: the grant of one hop. */
  function HopResult(x: Exchange, caller: Client, actor: Client, subject: string, parent: Token,
                     parentRow: IssuanceRecord): GrantResult
    requires parent.Jwt? && Nest(parent.payload).Ok?
  {
    var held := ScopeSet(parentRow.scope);
    GrantResult(
      subject, caller.clientId, Requested(x.scope, held), [held, actor.allowedScopes], Active,
      Some(x.audience), Some(TOKEN_TYPE_URN), Some(actor.tenant), Some(WholeSeconds(parentRow.expiresAt) * SECOND),
      Some(Nest(parent.payload).value), Some(parentRow.rootSubject), parentRow.taskId, parentRow.delegationDepth + 1)
  }

  ghost predicate HopResultOk(cfg: Config, ledger: Ledger, history: History, result: GrantResult, o: Origin)
    requires o.HopFrom?
  {
    && o.parent in history && o.parent in ledger && o.holder in ledger
    && history[o.parent].token.Jwt? && Nest(history[o.parent].token.payload).Ok?
    && o.actor.Valid() && o.caller.Valid() && o.actor.clientId == ledger[o.holder].clientId
    && o.actor.tenant == TenantIn(history[o.parent].origin) != ""
    && ledger[o.parent].delegationDepth + 1 <= cfg.settings.maxDepth
    && o.audience != "" && o.audience in o.caller.allowedAudiences && ledger[o.holder].subject != ""
    && result == HopResult(Exchange(o.audience, Garbage, Garbage, o.asked), o.caller, o.actor, ledger[o.holder].subject,
                           history[o.parent].token, ledger[o.parent])
  }

  ghost predicate RequestOk(cfg: Config, ledger: Ledger, history: History, released: set<Token>, r: Request) {
    match r
    case Authenticated(x, client) =>
      && client.Valid() && x.audience != "" && x.audience in client.allowedAudiences
      && Presentable(cfg, released, x.subjectToken) && Presentable(cfg, released, x.actorToken)
    case Verified(x, client) =>
      && client.Valid() && x.audience != "" && x.audience in client.allowedAudiences
      && x.subjectToken in released && x.actorToken in released
    case Resolved(result, RootOf(client, asked)) =>
      && client.Valid() && result.taskId.Some? && result.taskId.value != ""
      && result == ResolveClientCredentials(asked, client, result.taskId.value)
    case Resolved(result, HopFrom(_, _, _, _, _, _)) => HopResultOk(cfg, ledger, history, result, r.origin)
    case Signed(prepared, origin) => EntryOk(cfg, ledger, history, prepared.minted.token, prepared.row, origin)
    case Recorded(token) => JtiOf(token) in history && history[JtiOf(token)].token == token
  }

  function TokenHeld(r: Request): Option<Token> {
    match r
    case Signed(prepared, _) => Some(prepared.minted.token)
    case Recorded(token) => Some(token)
    case _ => None
  }

  ghost predicate RequestsOk(cfg: Config, ledger: Ledger, history: History, signed: set<Token>, released: set<Token>,
                             requests: map<nat, Request>) {
    && (forall id :: id in requests ==> RequestOk(cfg, ledger, history, released, requests[id]))
    && (forall id :: id in requests && TokenHeld(requests[id]).Some? ==> TokenHeld(requests[id]).value in signed)
  }

  /** The task a request started, while its row is not yet written. */
  function RootTask(r: Request): Option<string> {
    match r
    case Resolved(result, RootOf(_, _)) => result.taskId
    case Signed(prepared, RootOf(_, _)) => prepared.row.taskId
    case _ => None
  }

  ghost predicate IsRoot(ledger: Ledger, history: History, j: string) {
    j in history && j in ledger && history[j].origin.RootOf?
  }

  ghost predicate Starting(requests: map<nat, Request>, id: nat) {
    id in requests && RootTask(requests[id]).Some?
  }

  /** Every row belongs to a task that was drawn, and no two written roots share one. */
  ghost predicate RowTasksOk(ledger: Ledger, history: History, usedTasks: set<string>) {
    && (forall j :: j in ledger ==> ledger[j].taskId.Some? && ledger[j].taskId.value in usedTasks)
    && (forall i, j ::
        IsRoot(ledger, history, i) && IsRoot(ledger, history, j) && ledger[i].taskId == ledger[j].taskId ==> i == j)
  }

  /** A root not yet written has a task of its own. */
  ghost predicate StartingTasksOk(ledger: Ledger, history: History, requests: map<nat, Request>,
                                  usedTasks: set<string>) {
    && (forall id :: Starting(requests, id) ==> RootTask(requests[id]).value in usedTasks)
    && (forall id, j ::
        Starting(requests, id) && IsRoot(ledger, history, j) ==> RootTask(requests[id]) != ledger[j].taskId)
    && (forall i, j ::
        Starting(requests, i) && Starting(requests, j) && i != j ==> RootTask(requests[i]) != RootTask(requests[j]))
  }

  /** Nothing signed, recorded or not, is deeper than the cap or disagrees with its own chain. */
  ghost predicate WithinCap(cfg: Config, t: Token) {
    && t.Jwt?
    && DeclaredDepth(t.payload).Ok?
    && DeclaredDepth(t.payload).value <= cfg.settings.maxDepth
  }

  ghost predicate TokensOk(cfg: Config, history: History, signed: set<Token>, released: set<Token>) {
    && (forall t :: t in released ==> JtiOf(t) in history && history[JtiOf(t)].token == t)
    && (forall t :: t in signed ==> WithinCap(cfg, t))
    && released <= signed
  }

  ghost predicate ClientsOk(clients: ClientTable) {
    forall id :: id in clients ==> clients[id].Valid() && clients[id].clientId == id
  }

  /** Nothing is issued later than now. */
  ghost predicate ClockOk(ledger: Ledger, requests: map<nat, Request>, clock: int) {
    && (forall j :: j in ledger ==> ledger[j].issuedAt <= clock)
    && (forall id :: id in requests && requests[id].Signed? ==> requests[id].prepared.row.issuedAt <= clock)
  }

  ghost predicate Inv(cfg: Config, s: State) {
    && cfg.Valid()
    && ClientsOk(s.clients)
    && LedgerOk(cfg, s.ledger, s.history)
    && TokensOk(cfg, s.history, s.signed, s.released)
    && RequestsOk(cfg, s.ledger, s.history, s.signed, s.released, s.requests)
    && RowTasksOk(s.ledger, s.history, s.usedTasks)
    && StartingTasksOk(s.ledger, s.history, s.requests, s.usedTasks)
    && ClockOk(s.ledger, s.requests, s.clock)
  }

  // -------------------------------------------------------------------------- reading issued tokens

  /** The act claim of an issuance: absent for a root, the nested parent for a hop. */
  function ActIn(history: History, origin: Origin): Option<Value> {
    match origin
    case RootOf(_, _) => None
    case HopFrom(p, _, _, _, _, _) =>
      if p in history && history[p].token.Jwt? && Nest(history[p].token.payload).Ok?
      then Some(Nest(history[p].token.payload).value) else None
  }

  lemma IssuanceCarries(cfg: Config, ledger: Ledger, history: History, t: Token, row: IssuanceRecord, origin: Origin)
    requires EntryOk(cfg, ledger, history, t, row, origin)
    ensures TokenIs(cfg, t, row, ActIn(history, origin), TenantIn(origin))
  {
  }

  /** What a reader finds in the claims of a server token. */
  ghost predicate SaysRow(c: Claims, row: IssuanceRecord, tenant: string) {
    && Get(c, SUB) == Str(row.subject) && Get(c, CLIENT_ID) == Str(row.clientId)
    && Get(c, DELEGATION_DEPTH) == Int(row.delegationDepth) && Get(c, JTI) == Str(row.jti)
    && Get(c, EXP) == Int(WholeSeconds(row.expiresAt)) && Get(c, MAY_ACT) == Null
    && Get(c, SCOPE) == (if row.scope != "" then Str(row.scope) else Null)
    && Get(c, TENANT) == Str(tenant)
    && (row.taskId.Some? && row.taskId.value != "" && Get(c, TASK_ID) == Str(row.taskId.value))
  }

  lemma CarriedClaimsSayRow(cfg: Config, t: Token, row: IssuanceRecord, act: Option<Value>, tenant: string)
    requires TokenIs(cfg, t, row, act, tenant) && row.taskId.Some? && row.taskId.value != ""
    ensures SaysRow(t.payload, row, tenant) && JtiOf(t) == row.jti
  {
  }

  lemma IssuedTokenSaysRow(cfg: Config, ledger: Ledger, history: History, t: Token, row: IssuanceRecord, origin: Origin)
    requires EntryOk(cfg, ledger, history, t, row, origin)
    ensures t.Jwt? && SaysRow(t.payload, row, TenantIn(origin)) && JtiOf(t) == row.jti
  {
    IssuanceCarries(cfg, ledger, history, t, row, origin);
    CarriedClaimsSayRow(cfg, t, row, ActIn(history, origin), TenantIn(origin));
  }

  lemma ClaimReadersAccept(c: Claims, row: IssuanceRecord, tenant: string)
    requires SaysRow(c, row, tenant)
    ensures TaskOf(c) == Ok(row.taskId)
    ensures TenantOf(c) == if tenant == "" then Err(Malformed("tenant must be a non-empty string"))
            else Ok(Some(tenant))
    ensures ScopeClaim(c).Ok? && Elements(Parsed(ScopeClaim(c).value)) == ScopeSet(row.scope)
    ensures forall actor :: MayActPermits(c, actor) == Ok(true)
  {
    NoScopeReadsEmpty();
  }

  lemma DepthReaderAccepts(t: Token, row: IssuanceRecord)
    requires ChainIs(t, row) && Get(t.payload, DELEGATION_DEPTH) == Int(row.delegationDepth)
    ensures DeclaredDepth(t.payload) == Ok(row.delegationDepth)
    ensures Nest(t.payload).Ok?
  {
    ReadableCanBeNested(t.payload);
  }

  /** The next hop's readers accept every issued token: its depth, chain and task always, its tenant
    * exactly when the root client's tenant was not empty. */
  lemma ReadersAccept(cfg: Config, ledger: Ledger, history: History, t: Token, row: IssuanceRecord, origin: Origin)
    requires EntryOk(cfg, ledger, history, t, row, origin)
    ensures DeclaredDepth(t.payload) == Ok(row.delegationDepth)
    ensures Nest(t.payload).Ok?
    ensures TaskOf(t.payload) == Ok(row.taskId)
    ensures TenantOf(t.payload) == if TenantIn(origin) == "" then Err(Malformed("tenant must be a non-empty string"))
            else Ok(Some(TenantIn(origin)))
    ensures ScopeClaim(t.payload).Ok? && Elements(Parsed(ScopeClaim(t.payload).value)) == ScopeSet(row.scope)
    ensures forall actor :: MayActPermits(t.payload, actor) == Ok(true)
  {
    IssuedTokenSaysRow(cfg, ledger, history, t, row, origin);
    ClaimReadersAccept(t.payload, row, TenantIn(origin));
    DepthReaderAccepts(t, row);
  }

  lemma NoScopeReadsEmpty()
    ensures Parsed(Some("")) == Parsed(None) == []
  {
  }

  // --------------------------------------------------------------------------------- policy and signing

  lemma AgreementOnReadings(subject: Claims, actor: Client, tenant: string)
    requires TenantOf(subject)
          == if tenant == "" then Err(Malformed("tenant must be a non-empty string")) else Ok(Some(tenant))
    ensures AgreedTenant(subject, actor)
         == if tenant == "" then Err(Malformed("tenant must be a non-empty string"))
            else if tenant != actor.tenant then Err(REFUSED) else Ok(actor.tenant)
  {
  }

  /** The policy and the grant it gives, once each reader's answer is known. */
  lemma PolicyOnReadings(x: Exchange, caller: Client, subject: Claims, actorClaims: Claims, actor: Client,
                         maxDepth: int, holder: string)
    requires Get(actorClaims, SUB) == Str(holder) && MayActPermits(subject, holder) == Ok(true)
    ensures var agreed := AgreedTenant(subject, actor);
            Policy(x, caller, subject, actorClaims, actor, maxDepth)
            == if agreed.Err? then Err(agreed.failure)
               else CappedHop(x, caller, subject, holder, actor, agreed.value, maxDepth)
  {
  }

  lemma HopOnReadings(x: Exchange, caller: Client, subject: Claims, holder: string, actor: Client, tenant: string,
                      maxDepth: int, depth: nat)
    requires DeclaredDepth(subject) == Ok(depth)
    ensures CappedHop(x, caller, subject, holder, actor, tenant, maxDepth)
         == if depth + 1 > maxDepth then Err(TOO_DEEP)
            else HopGrant(x, caller, subject, holder, actor, tenant, depth + 1)
  {
  }

  lemma GrantOnReadings(x: Exchange, caller: Client, subject: Claims, holder: string, actor: Client, tenant: string,
                        depth: nat, ids: seq<string>, task: Option<string>, exp: int)
    requires ScopeClaim(subject).Ok? && Nest(subject).Ok? && Chain(subject) == Ok(ids) && |ids| > 0
    requires TaskOf(subject) == Ok(task) && Get(subject, EXP) == Int(exp)
    ensures var scopes := Elements(Parsed(ScopeClaim(subject).value));
            HopGrant(x, caller, subject, holder, actor, tenant, depth)
            == Ok(GrantResult(
                    holder, caller.clientId, Requested(x.scope, scopes), [scopes, actor.allowedScopes], Active,
                    Some(x.audience), Some(TOKEN_TYPE_URN), Some(tenant), Some(exp * SECOND),
                    Some(Nest(subject).value), Some(ids[|ids| - 1]), task, depth))
  {
  }

  lemma PolicyOnReadableClaims(x: Exchange, caller: Client, t: Token, row: IssuanceRecord, tenant: string,
                               subject: string, actorClaims: Claims, actor: Client, maxDepth: int)
    requires ChainIs(t, row) && SaysRow(t.payload, row, tenant) && Get(actorClaims, SUB) == Str(subject)
    ensures Nest(t.payload).Ok?
    ensures Policy(x, caller, t.payload, actorClaims, actor, maxDepth)
         == if tenant == "" then Err(Malformed("tenant must be a non-empty string"))
            else if tenant != actor.tenant then Err(REFUSED)
            else if row.delegationDepth + 1 > maxDepth then Err(TOO_DEEP)
            else Ok(HopResult(x, caller, actor, subject, t, row))
  {
    ClaimReadersAccept(t.payload, row, tenant);
    DepthReaderAccepts(t, row);
    AgreementOnReadings(t.payload, actor, tenant);
    PolicyOnReadings(x, caller, t.payload, actorClaims, actor, maxDepth, subject);
    HopOnReadings(x, caller, t.payload, subject, actor, tenant, maxDepth, row.delegationDepth);
    GrantOnReadings(x, caller, t.payload, subject, actor, tenant, row.delegationDepth + 1,
                    Chain(t.payload).value, row.taskId, WholeSeconds(row.expiresAt));
  }

  /** The policy on tokens this server issued, decided completely: refused for a tenant that cannot be
    * agreed or a depth beyond the cap, and otherwise the grant of one hop. */
  lemma PolicyOnIssuedTokens(cfg: Config, ledger: Ledger, history: History, x: Exchange, caller: Client, p: string,
                             a: string, actor: Client)
    requires LedgerOk(cfg, ledger, history) && p in history && a in history
    ensures var parent, subject := history[p].token, history[a].token;
            var tenant := TenantIn(history[p].origin);
            parent.Jwt? && subject.Jwt? && Nest(parent.payload).Ok? &&
            Policy(x, caller, parent.payload, subject.payload, actor, cfg.settings.maxDepth)
            == if tenant == "" then Err(Malformed("tenant must be a non-empty string"))
               else if tenant != actor.tenant then Err(REFUSED)
               else if ledger[p].delegationDepth + 1 > cfg.settings.maxDepth then Err(TOO_DEEP)
               else Ok(HopResult(x, caller, actor, ledger[a].subject, parent, ledger[p]))
  {
    assert EntryAt(cfg, ledger, history, p) && EntryAt(cfg, ledger, history, a);
    IssuedTokenSaysRow(cfg, ledger, history, history[p].token, ledger[p], history[p].origin);
    IssuedTokenSaysRow(cfg, ledger, history, history[a].token, ledger[a], history[a].origin);
    PolicyOnReadableClaims(x, caller, history[p].token, ledger[p], TenantIn(history[p].origin), ledger[a].subject,
                           history[a].token.payload, actor, cfg.settings.maxDepth);
  }

  /** Signing a root grant yields a well-formed root issuance. */
  lemma SignRoot(cfg: Config, ledger: Ledger, history: History, client: Client, asked: Option<string>, task: string,
                 now: int, jti: string, t: Token, row: IssuanceRecord)
    requires cfg.Valid() && client.Valid() && task != ""
    requires Issues(ResolveClientCredentials(asked, client, task), cfg.settings, cfg.key, now, jti, t, row)
    ensures EntryOk(cfg, ledger, history, t, row, RootOf(client, asked))
  {
    assert Get(t.payload, SUB) == Str(client.subject) && Get(t.payload, ACT) == Null;
    ChainReads(t.payload, [client.subject]);
    RootScopeIsExact(asked, client.allowedScopes);
  }

  lemma SignedHopChain(t: Token, row: IssuanceRecord, parent: Token, parentRow: IssuanceRecord)
    requires ChainIs(parent, parentRow) && parentRow.delegationDepth < 10 && Nest(parent.payload).Ok?
    requires t.Jwt? && Get(t.payload, SUB) == Str(row.subject) && row.subject != ""
    requires Get(t.payload, ACT) == Nest(parent.payload).value
    requires row.delegationDepth == parentRow.delegationDepth + 1 && row.rootSubject == parentRow.rootSubject
    ensures ChainIs(t, row)
  {
    NestPrependsHolder(parent.payload, t.payload, row.subject, Chain(parent.payload).value);
  }

  /** Signing the grant of a hop yields a well-formed hop below its parent. */
  lemma SignHop(cfg: Config, ledger: Ledger, history: History, result: GrantResult, o: Origin, now: int, jti: string,
                t: Token, row: IssuanceRecord)
    requires cfg.Valid() && LedgerOk(cfg, ledger, history)
    requires o.HopFrom? && HopResultOk(cfg, ledger, history, result, o)
    requires Issues(result, cfg.settings, cfg.key, now, jti, t, row)
    ensures EntryOk(cfg, ledger, history, t, row, o)
  {
    var parent, prow := history[o.parent].token, ledger[o.parent];
    assert EntryAt(cfg, ledger, history, o.parent);
    RootIsNotEmpty(cfg, ledger, history, o.parent);
    SignedHopIsHop(cfg, result, o, parent, prow, TenantIn(history[o.parent].origin), ledger[o.holder], now, jti, t,
                   row);
    SignedHopChain(t, row, parent, prow);
  }

  lemma SignedHopIsHop(cfg: Config, result: GrantResult, o: Origin, parent: Token, prow: IssuanceRecord, tenant: string,
                       hrow: IssuanceRecord, now: int, jti: string, t: Token, row: IssuanceRecord)
    requires cfg.Valid() && parent.Jwt? && Nest(parent.payload).Ok? && prow.rootSubject != "" && o.HopFrom?
    requires o.actor.Valid() && o.caller.Valid() && o.actor.tenant == tenant != "" && o.actor.clientId == hrow.clientId
    requires prow.delegationDepth + 1 <= cfg.settings.maxDepth
    requires o.audience != "" && o.audience in o.caller.allowedAudiences
    requires result == HopResult(Exchange(o.audience, Garbage, Garbage, o.asked), o.caller, o.actor, hrow.subject,
                                 parent, prow)
    requires Issues(result, cfg.settings, cfg.key, now, jti, t, row)
    ensures HopOk(cfg, t, row, o, parent, prow, tenant, hrow)
    ensures Get(t.payload, SUB) == Str(row.subject) && row.subject == hrow.subject && row.audience == o.audience
    ensures Get(t.payload, ACT) == Nest(parent.payload).value
  {
    HopScopeIsExact(prow.scope, o.asked, o.actor.allowedScopes);
    assert Member(t.payload, SUB) == Some(Str(row.subject)) && Member(t.payload, ACT) == result.act;
  }

  lemma RootIsNotEmpty(cfg: Config, ledger: Ledger, history: History, p: string)
    requires LedgerOk(cfg, ledger, history) && p in history
    ensures ledger[p].rootSubject != ""
  {
    var t := history[p].token;
    assert EntryAt(cfg, ledger, history, p);
    ChainReads(t.payload, Chain(t.payload).value);
    SpelledSubjectsAreNotEmpty(t.payload, Chain(t.payload).value, ledger[p].delegationDepth);
  }

  lemma {:induction false} SpelledSubjectsAreNotEmpty(claims: Claims, ids: seq<string>, i: nat)
    requires Spells(claims, ids) && i < |ids|
    ensures ids[i] != ""
    decreases i
  {
    if i > 0 {
      SpelledSubjectsAreNotEmpty(Get(claims, ACT).members, ids[1..], i - 1);
    }
  }

  // ------------------------------------------------------------------------- every step keeps the invariant

  /** Issuances stay well formed as others are recorded. */
  lemma EntrySurvivesRecord(cfg: Config, ledger: Ledger, history: History, t: Token, row: IssuanceRecord,
                            origin: Origin, newRow: IssuanceRecord, newEntry: Provenance)
    requires EntryOk(cfg, ledger, history, t, row, origin)
    requires newRow.jti !in ledger && newRow.jti !in history
    ensures EntryOk(cfg, ledger[newRow.jti := newRow], history[newRow.jti := newEntry], t, row, origin)
  {
  }

  lemma RequestSurvives(cfg: Config, ledger: Ledger, history: History, released: set<Token>, r: Request,
                        newRow: IssuanceRecord, newEntry: Provenance)
    requires RequestOk(cfg, ledger, history, released, r)
    requires newRow.jti !in ledger && newRow.jti !in history
    ensures RequestOk(cfg, ledger[newRow.jti := newRow], history[newRow.jti := newEntry], released, r)
  {
    if r.Signed? {
      EntrySurvivesRecord(cfg, ledger, history, r.prepared.minted.token, r.prepared.row, r.origin, newRow, newEntry);
    }
  }

  lemma InitHasInv(cfg: Config, s: State)
    requires cfg.Valid() && Initial(s)
    ensures Inv(cfg, s)
  {
  }

  /** Replacing or adding a request that is itself in order keeps all of them in order. */
  lemma AdvanceKeepsRequests(cfg: Config, ledger: Ledger, history: History, signed: set<Token>, released: set<Token>,
                             requests: map<nat, Request>, id: nat, r: Request)
    requires RequestsOk(cfg, ledger, history, signed, released, requests)
    requires RequestOk(cfg, ledger, history, released, r) && (TokenHeld(r).Some? ==> TokenHeld(r).value in signed)
    ensures RequestsOk(cfg, ledger, history, signed, released, requests[id := r])
  {
  }

  /** A request that holds no new task, or the one it held before, disturbs nobody's task. */
  lemma AdvanceKeepsTasks(ledger: Ledger, history: History, requests: map<nat, Request>, usedTasks: set<string>,
                          id: nat, r: Request)
    requires StartingTasksOk(ledger, history, requests, usedTasks)
    requires RootTask(r).Some? ==> id in requests && RootTask(requests[id]) == RootTask(r)
    ensures StartingTasksOk(ledger, history, requests[id := r], usedTasks)
  {
    var after := requests[id := r];
    assert forall i :: Starting(after, i) ==> Starting(requests, i) && RootTask(after[i]) == RootTask(requests[i]);
  }

  lemma DropKeepsInv(cfg: Config, s: State, id: nat)
    requires Inv(cfg, s)
    ensures Inv(cfg, Drop(s, id))
  {
    var after := s.requests - {id};
    assert forall i :: Starting(after, i) ==> Starting(s.requests, i) && RootTask(after[i]) == RootTask(s.requests[i]);
  }

  lemma AdvanceKeepsInv(cfg: Config, s: State, id: nat, r: Request)
    requires Inv(cfg, s) && RequestOk(cfg, s.ledger, s.history, s.released, r) && TokenHeld(r).None?
    requires RootTask(r).Some? ==> id in s.requests && RootTask(s.requests[id]) == RootTask(r)
    ensures Inv(cfg, Advance(s, id, r))
  {
    AdvanceKeepsRequests(cfg, s.ledger, s.history, s.signed, s.released, s.requests, id, r);
    AdvanceKeepsTasks(s.ledger, s.history, s.requests, s.usedTasks, id, r);
  }

  /** A new root starts a task that nobody has. */
  lemma BeginRootKeepsTasks(ledger: Ledger, history: History, requests: map<nat, Request>, usedTasks: set<string>,
                            id: nat, r: Request, task: string)
    requires RowTasksOk(ledger, history, usedTasks) && StartingTasksOk(ledger, history, requests, usedTasks)
    requires id !in requests && RootTask(r) == Some(task) && task !in usedTasks
    ensures RowTasksOk(ledger, history, usedTasks + {task})
    ensures StartingTasksOk(ledger, history, requests[id := r], usedTasks + {task})
  {
    var after := requests[id := r];
    assert forall i: nat ::
        Starting(after, i) && i != id ==> Starting(requests, i) && RootTask(after[i]) == RootTask(requests[i]);
    assert RootTask(after[id]) == Some(task);
  }

  lemma BeginRootKeepsInv(cfg: Config, s: State, id: nat, clientId: string, scope: Option<string>, task: string)
    requires Inv(cfg, s) && Enabled(cfg, s, BeginRoot(id, clientId, scope, task))
    ensures Inv(cfg, Apply(cfg, s, BeginRoot(id, clientId, scope, task)))
  {
    var r := Resolved(ResolveClientCredentials(scope, s.clients[clientId], task), RootOf(s.clients[clientId], scope));
    assert RequestOk(cfg, s.ledger, s.history, s.released, r);
    AdvanceKeepsRequests(cfg, s.ledger, s.history, s.signed, s.released, s.requests, id, r);
    BeginRootKeepsTasks(s.ledger, s.history, s.requests, s.usedTasks, id, r, task);
  }

  lemma BeginExchangeKeepsInv(cfg: Config, s: State, id: nat, clientId: string, form: ExchangeForm)
    requires Inv(cfg, s) && Enabled(cfg, s, BeginExchange(id, clientId, form))
    ensures Inv(cfg, Apply(cfg, s, BeginExchange(id, clientId, form)))
  {
    var client := s.clients[clientId];
    FormPassesExactlyWhen(form, client);
    if CheckForm(form, client).Ok? {
      AdvanceKeepsInv(cfg, s, id, Authenticated(CheckForm(form, client).value, client));
    }
  }

  lemma VerifiedTokensAreOurs(t: Token, issuer: string, key: SigningKey, now: int)
    ensures VerifyPresented(t, issuer, key, now).Ok?
            ==> t.Jwt? && t.signer == key.key && VerifyPresented(t, issuer, key, now).value == t.payload
  {
  }

  lemma VerifyKeepsInv(cfg: Config, s: State, id: nat)
    requires Inv(cfg, s) && Enabled(cfg, s, VerifyTokens(id))
    ensures Inv(cfg, Apply(cfg, s, VerifyTokens(id)))
  {
    var x, client := s.requests[id].exchange, s.requests[id].client;
    var issuer := cfg.settings.issuer;
    VerifiedTokensAreOurs(x.subjectToken, issuer, cfg.key, s.clock);
    VerifiedTokensAreOurs(x.actorToken, issuer, cfg.key, s.clock);
    assert RequestOk(cfg, s.ledger, s.history, s.released, s.requests[id]);
    if VerifyPresented(x.subjectToken, issuer, cfg.key, s.clock).Ok?
      && VerifyPresented(x.actorToken, issuer, cfg.key, s.clock).Ok? {
      AdvanceKeepsInv(cfg, s, id, Verified(x, client));
    } else {
      DropKeepsInv(cfg, s, id);
    }
  }

  /** The actor's registration is the one under the client identifier of the actor token's row. */
  lemma ActorIsHolder(cfg: Config, ledger: Ledger, history: History, clients: ClientTable, a: string)
    requires LedgerOk(cfg, ledger, history) && ClientsOk(clients) && a in history
    ensures a in ledger && history[a].token.Jwt? && ledger[a].subject != ""
    ensures var actor := ActorClient(history[a].token.payload, clients);
            && (actor.Ok? <==> ledger[a].clientId in clients)
            && (actor.Ok? ==> actor.value == clients[ledger[a].clientId])
            && (actor.Ok? ==> actor.value.clientId == ledger[a].clientId && actor.value.Valid())
  {
    HolderIsLookedUp(cfg, ledger, history, clients, a);
  }

  lemma HolderIsLookedUp(cfg: Config, ledger: Ledger, history: History, clients: ClientTable, a: string)
    requires LedgerOk(cfg, ledger, history) && a in history
    ensures a in ledger && history[a].token.Jwt? && ledger[a].subject != ""
    ensures ActorClient(history[a].token.payload, clients)
         == if ledger[a].clientId in clients then Ok(clients[ledger[a].clientId]) else Err(REFUSED)
  {
    assert EntryAt(cfg, ledger, history, a);
    IssuedTokenSaysRow(cfg, ledger, history, history[a].token, ledger[a], history[a].origin);
  }

  /** Deciding on verified tokens gives the grant of a hop below the subject token's row. */
  lemma DecisionIsOk(cfg: Config, s: State, x: Exchange, client: Client)
    requires cfg.Valid() && LedgerOk(cfg, s.ledger, s.history) && ClientsOk(s.clients)
    requires JtiOf(x.subjectToken) in s.history && s.history[JtiOf(x.subjectToken)].token == x.subjectToken
    requires JtiOf(x.actorToken) in s.history && s.history[JtiOf(x.actorToken)].token == x.actorToken
    requires client.Valid() && x.audience != "" && x.audience in client.allowedAudiences
    ensures x.subjectToken.Jwt? && x.actorToken.Jwt?
    ensures var d := Decide(cfg, s, x, client);
            d.Ok? ==>
              && d.value.Resolved? && d.value.origin.HopFrom?
              && var o := d.value.origin;
              HopResultOk(cfg, s.ledger, s.history, d.value.result, o)
  {
    var p, a := JtiOf(x.subjectToken), JtiOf(x.actorToken);
    ActorIsHolder(cfg, s.ledger, s.history, s.clients, a);
    var actor := ActorClient(x.actorToken.payload, s.clients);
    if actor.Ok? {
      PolicyOnIssuedTokens(cfg, s.ledger, s.history, x, client, p, a, actor.value);
    } else {
      assert EntryAt(cfg, s.ledger, s.history, p);
    }
  }

  lemma ReadActorKeepsInv(cfg: Config, s: State, id: nat)
    requires Inv(cfg, s) && Enabled(cfg, s, ReadActor(id))
    ensures Inv(cfg, Apply(cfg, s, ReadActor(id)))
  {
    var x, client := s.requests[id].exchange, s.requests[id].client;
    assert RequestOk(cfg, s.ledger, s.history, s.released, s.requests[id]);
    DecisionIsOk(cfg, s, x, client);
    if Decide(cfg, s, x, client).Ok? {
      AdvanceKeepsInv(cfg, s, id, Decide(cfg, s, x, client).value);
    } else {
      DropKeepsInv(cfg, s, id);
    }
  }

  /** Whatever a resolved request signs is a well-formed issuance within the cap. */
  lemma SignedIsOk(cfg: Config, ledger: Ledger, history: History, released: set<Token>, result: GrantResult,
                   origin: Origin, now: int, jti: string, t: Token, row: IssuanceRecord)
    requires cfg.Valid() && LedgerOk(cfg, ledger, history)
    requires RequestOk(cfg, ledger, history, released, Resolved(result, origin))
    requires Issues(result, cfg.settings, cfg.key, now, jti, t, row)
    ensures EntryOk(cfg, ledger, history, t, row, origin)
    ensures row.taskId == result.taskId
  {
    match origin
    case RootOf(client, asked) =>
      SignRoot(cfg, ledger, history, client, asked, result.taskId.value, now, jti, t, row);
    case HopFrom(_, _, _, _, _, _) =>
      SignHop(cfg, ledger, history, result, origin, now, jti, t, row);
  }

  lemma IssuanceIsWithinCap(cfg: Config, ledger: Ledger, history: History, t: Token, row: IssuanceRecord,
                            origin: Origin)
    requires cfg.Valid() && EntryOk(cfg, ledger, history, t, row, origin)
    ensures WithinCap(cfg, t)
  {
    IssuedTokenSaysRow(cfg, ledger, history, t, row, origin);
    DepthReaderAccepts(t, row);
  }

  lemma SignKeepsInv(cfg: Config, s: State, id: nat, jti: string)
    requires Inv(cfg, s) && Enabled(cfg, s, Sign(id, jti))
    ensures Inv(cfg, Apply(cfg, s, Sign(id, jti)))
  {
    var result, origin := s.requests[id].result, s.requests[id].origin;
    var p := Prepare(result, cfg.settings, cfg.key, s.clock, jti);
    if p.Ok? {
      PreparedTokenMatchesRow(result, cfg.settings, cfg.key, s.clock, jti);
      assert RequestOk(cfg, s.ledger, s.history, s.released, Resolved(result, origin));
      SignedIsOk(cfg, s.ledger, s.history, s.released, result, origin, s.clock, jti, p.value.minted.token, p.value.row);
      IssuanceIsWithinCap(cfg, s.ledger, s.history, p.value.minted.token, p.value.row, origin);
      SignedKeepsInv(cfg, s, id, p.value, origin);
    } else {
      DropKeepsInv(cfg, s, id);
    }
  }

  lemma SignedRequestsAreOk(cfg: Config, ledger: Ledger, history: History, signed: set<Token>, released: set<Token>,
                            requests: map<nat, Request>, id: nat, p: Prepared, origin: Origin)
    requires RequestsOk(cfg, ledger, history, signed, released, requests)
    requires EntryOk(cfg, ledger, history, p.minted.token, p.row, origin)
    ensures RequestsOk(cfg, ledger, history, signed + {p.minted.token}, released, requests[id := Signed(p, origin)])
  {
    assert RequestsOk(cfg, ledger, history, signed + {p.minted.token}, released, requests);
    AdvanceKeepsRequests(cfg, ledger, history, signed + {p.minted.token}, released, requests, id, Signed(p, origin));
  }

  lemma SignedKeepsInv(cfg: Config, s: State, id: nat, p: Prepared, origin: Origin)
    requires Inv(cfg, s) && id in s.requests && s.requests[id].Resolved? && s.requests[id].origin == origin
    requires EntryOk(cfg, s.ledger, s.history, p.minted.token, p.row, origin) && WithinCap(cfg, p.minted.token)
    requires p.row.taskId == s.requests[id].result.taskId && p.row.issuedAt <= s.clock
    ensures Inv(cfg, Advance(s, id, Signed(p, origin)).(signed := s.signed + {p.minted.token}))
  {
    SignedRequestsAreOk(cfg, s.ledger, s.history, s.signed, s.released, s.requests, id, p, origin);
    SignedTokensAreOk(cfg, s.history, s.signed, s.released, p.minted.token);
    AdvanceKeepsTasks(s.ledger, s.history, s.requests, s.usedTasks, id, Signed(p, origin));
    SignedKeepsClock(s.ledger, s.requests, s.clock, id, p, origin);
  }

  lemma SignedKeepsClock(ledger: Ledger, requests: map<nat, Request>, clock: int, id: nat, p: Prepared, origin: Origin)
    requires ClockOk(ledger, requests, clock) && p.row.issuedAt <= clock
    ensures ClockOk(ledger, requests[id := Signed(p, origin)], clock)
  {
  }

  lemma SignedTokensAreOk(cfg: Config, history: History, signed: set<Token>, released: set<Token>, t: Token)
    requires TokensOk(cfg, history, signed, released) && WithinCap(cfg, t)
    ensures TokensOk(cfg, history, signed + {t}, released)
  {
  }

  lemma RecordKeepsInv(cfg: Config, s: State, id: nat, reachable: bool)
    requires Inv(cfg, s) && Enabled(cfg, s, Record(id, reachable))
    ensures Inv(cfg, Apply(cfg, s, Record(id, reachable)))
  {
    var p, origin := s.requests[id].prepared, s.requests[id].origin;
    if reachable && p.row.jti !in s.ledger {
      RecordedKeepsInv(cfg, s, id, p, origin);
    } else {
      DropKeepsInv(cfg, s, id);
    }
  }

  lemma RecordedKeepsInv(cfg: Config, s: State, id: nat, p: Prepared, origin: Origin)
    requires Inv(cfg, s) && id in s.requests && s.requests[id] == Signed(p, origin) && p.row.jti !in s.ledger
    ensures Inv(cfg, AfterRecord(s, id, p, origin, true))
  {
    var t, row := p.minted.token, p.row;
    var entry := Provenance(t, origin);
    assert EntryOk(cfg, s.ledger, s.history, t, row, origin) by {
      assert RequestOk(cfg, s.ledger, s.history, s.released, s.requests[id]);
    }
    RecordKeepsLedger(cfg, s.ledger, s.history, row, entry);
    RecordedRequestsAreOk(cfg, s.ledger, s.history, s.signed, s.released, s.requests, id, p, origin);
    EntryHasTask(cfg, s.ledger, s.history, t, row, origin);
    RecordKeepsTasks(s.ledger, s.history, s.requests, s.usedTasks, id, row, entry);
    RecordKeepsTokens(cfg, s.history, s.signed, s.released, row.jti, entry);
    RecordKeepsClock(s.ledger, s.requests, s.clock, id, row, t);
  }

  lemma EntryHasTask(cfg: Config, ledger: Ledger, history: History, t: Token, row: IssuanceRecord, origin: Origin)
    requires EntryOk(cfg, ledger, history, t, row, origin)
    ensures row.taskId.Some?
    ensures origin.HopFrom? ==> origin.parent in ledger && ledger[origin.parent].taskId == row.taskId
  {
  }

  /** The request whose row is written moves on; the others are not disturbed. */
  lemma RecordedRequestsAreOk(cfg: Config, ledger: Ledger, history: History, signed: set<Token>, released: set<Token>,
                              requests: map<nat, Request>, id: nat, p: Prepared, origin: Origin)
    requires RequestsOk(cfg, ledger, history, signed, released, requests)
    requires id in requests && requests[id] == Signed(p, origin) && p.row.jti !in ledger && p.row.jti !in history
    ensures RequestsOk(cfg, ledger[p.row.jti := p.row], history[p.row.jti := Provenance(p.minted.token, origin)],
                       signed, released,
                       requests[id := Recorded(p.minted.token)])
  {
    var t, row := p.minted.token, p.row;
    var entry := Provenance(t, origin);
    assert RequestOk(cfg, ledger, history, released, requests[id]) && TokenHeld(requests[id]) == Some(t);
    IssuedTokenSaysRow(cfg, ledger, history, t, row, origin);
    RecordKeepsRequests(cfg, ledger, history, signed, released, requests, id, row, entry);
    AdvanceKeepsRequests(cfg, ledger[row.jti := row], history[row.jti := entry], signed, released, requests, id,
                         Recorded(t));
  }

  lemma RecordKeepsClock(ledger: Ledger, requests: map<nat, Request>, clock: int, id: nat, row: IssuanceRecord,
                         t: Token)
    requires ClockOk(ledger, requests, clock) && id in requests && requests[id].Signed?
    requires requests[id].prepared.row == row
    ensures ClockOk(ledger[row.jti := row], requests[id := Recorded(t)], clock)
  {
  }

  lemma RecordKeepsTokens(cfg: Config, history: History, signed: set<Token>, released: set<Token>, jti: string,
                          entry: Provenance)
    requires TokensOk(cfg, history, signed, released) && jti !in history
    ensures TokensOk(cfg, history[jti := entry], signed, released)
  {
  }

  lemma RecordKeepsLedger(cfg: Config, ledger: Ledger, history: History, row: IssuanceRecord, entry: Provenance)
    requires LedgerOk(cfg, ledger, history) && row.jti !in ledger
    requires EntryOk(cfg, ledger, history, entry.token, row, entry.origin)
    ensures LedgerOk(cfg, ledger[row.jti := row], history[row.jti := entry])
  {
    var ledger', history' := ledger[row.jti := row], history[row.jti := entry];
    EntrySurvivesRecord(cfg, ledger, history, entry.token, row, entry.origin, row, entry);
    forall j | j in history'
      ensures EntryAt(cfg, ledger', history', j)
    {
      if j != row.jti {
        assert EntryAt(cfg, ledger, history, j);
        EntrySurvivesRecord(cfg, ledger, history, history[j].token, ledger[j], history[j].origin, row, entry);
      }
    }
  }

  lemma RecordKeepsRequests(cfg: Config, ledger: Ledger, history: History, signed: set<Token>, released: set<Token>,
                            requests: map<nat, Request>, id: nat, row: IssuanceRecord, entry: Provenance)
    requires RequestsOk(cfg, ledger, history, signed, released, requests) && row.jti !in ledger && row.jti !in history
    ensures RequestsOk(cfg, ledger[row.jti := row], history[row.jti := entry], signed, released, requests)
  {
    forall i | i in requests
      ensures RequestOk(cfg, ledger[row.jti := row], history[row.jti := entry], released, requests[i])
    {
      RequestSurvives(cfg, ledger, history, released, requests[i], row, entry);
    }
  }

  lemma RecordKeepsTasks(ledger: Ledger, history: History, requests: map<nat, Request>, usedTasks: set<string>, id: nat,
                         row: IssuanceRecord, entry: Provenance)
    requires RowTasksOk(ledger, history, usedTasks) && StartingTasksOk(ledger, history, requests, usedTasks)
    requires row.jti !in ledger && row.jti !in history && id in requests && row.taskId.Some?
    requires requests[id].Signed? && requests[id].prepared.row == row && requests[id].origin == entry.origin
    requires entry.origin.HopFrom? ==> entry.origin.parent in ledger && ledger[entry.origin.parent].taskId == row.taskId
    ensures RowTasksOk(ledger[row.jti := row], history[row.jti := entry], usedTasks)
    ensures StartingTasksOk(ledger[row.jti := row], history[row.jti := entry], requests[id := Recorded(entry.token)],
                            usedTasks)
  {
    var ledger', history', after := ledger[row.jti := row], history[row.jti := entry],
        requests[id := Recorded(entry.token)];
    assert forall i ::
        Starting(after, i) ==> i != id && Starting(requests, i) && RootTask(after[i]) == RootTask(requests[i]);
    assert forall j ::
        IsRoot(ledger', history', j) && j != row.jti ==> IsRoot(ledger, history, j) && ledger'[j] == ledger[j];
    if entry.origin.RootOf? {
      assert Starting(requests, id);
    }
  }

  lemma ReleaseKeepsTokens(cfg: Config, history: History, signed: set<Token>, released: set<Token>, t: Token)
    requires TokensOk(cfg, history, signed, released)
    requires t in signed && JtiOf(t) in history && history[JtiOf(t)].token == t
    ensures TokensOk(cfg, history, signed, released + {t})
  {
  }

  lemma ReleaseKeepsRequests(cfg: Config, ledger: Ledger, history: History, signed: set<Token>, released: set<Token>,
                             requests: map<nat, Request>, t: Token)
    requires RequestsOk(cfg, ledger, history, signed, released, requests)
    ensures RequestsOk(cfg, ledger, history, signed, released + {t}, requests)
  {
    forall id | id in requests
      ensures RequestOk(cfg, ledger, history, released + {t}, requests[id])
    {
      assert RequestOk(cfg, ledger, history, released, requests[id]);
    }
  }

  lemma RespondKeepsInv(cfg: Config, s: State, id: nat)
    requires Inv(cfg, s) && Enabled(cfg, s, Respond(id))
    ensures Inv(cfg, Apply(cfg, s, Respond(id)))
  {
    var t := s.requests[id].token;
    assert RequestOk(cfg, s.ledger, s.history, s.released, s.requests[id]);
    assert TokenHeld(s.requests[id]) == Some(t);
    DropKeepsInv(cfg, s, id);
    ReleaseKeepsTokens(cfg, s.history, s.signed, s.released, t);
    ReleaseKeepsRequests(cfg, s.ledger, s.history, s.signed, s.released, Drop(s, id).requests, t);
  }

  lemma StepKeepsInv(cfg: Config, s: State, step: Step)
    requires Inv(cfg, s) && Enabled(cfg, s, step)
    ensures Inv(cfg, Apply(cfg, s, step))
  {
    match step
    case Tick(_) =>
    case Register(_) =>
    case BeginRoot(id, clientId, scope, task) => BeginRootKeepsInv(cfg, s, id, clientId, scope, task);
    case BeginExchange(id, clientId, form) => BeginExchangeKeepsInv(cfg, s, id, clientId, form);
    case VerifyTokens(id) => VerifyKeepsInv(cfg, s, id);
    case ReadActor(id) => ReadActorKeepsInv(cfg, s, id);
    case Sign(id, jti) => SignKeepsInv(cfg, s, id, jti);
    case Record(id, reachable) => RecordKeepsInv(cfg, s, id, reachable);
    case Respond(id) => RespondKeepsInv(cfg, s, id);
    case Crash(id) => DropKeepsInv(cfg, s, id);
  }

  lemma {:induction false} RunKeepsInv(cfg: Config, s: State, steps: seq<Step>)
    requires Inv(cfg, s) && Execute(cfg, s, steps).Some?
    ensures Inv(cfg, Execute(cfg, s, steps).value)
    decreases |steps|
  {
    if steps != [] {
      StepKeepsInv(cfg, s, steps[0]);
      RunKeepsInv(cfg, Apply(cfg, s, steps[0]), steps[1..]);
    }
  }

  /** Every state any run can reach satisfies the invariant. */
  lemma ReachableStatesHaveInv(cfg: Config, s: State)
    requires cfg.Valid() && Reachable(cfg, s)
    ensures Inv(cfg, s)
  {
    var start, steps :| Initial(start) && Execute(cfg, start, steps) == Some(s);
    InitHasInv(cfg, start);
    RunKeepsInv(cfg, start, steps);
  }
}
