/** The authorization server as a long-lived state machine. Every request is split where the program
  * waits or reads shared state, and the steps of different requests interleave freely. */
module Server {
  import opened Outcomes
  import opened Json
  import opened Tokens
  import opened Repositories
  import opened Grants
  import opened Pipeline

  datatype Config = Config(settings: Settings, key: SigningKey) {
    predicate Valid() {
      settings.Valid() && key.kid != ""
    }
  }

  /** Where an issuance came from: what was asked for, with the registrations as they were read for it. Of a
    * hop, `parent` and `holder` identify the subject token and the actor token. */
  datatype Origin =
    | RootOf(client: Client, asked: Option<string>)
    | HopFrom(parent: string, holder: string, caller: Client, actor: Client, audience: string, asked: Option<string>)

  /** History kept beside the ledger, for stating properties: the token behind a row, and its origin. */
  datatype Provenance = Provenance(token: Token, origin: Origin)
  type History = map<string, Provenance>

  datatype Request =
    | Authenticated(exchange: Exchange, client: Client)
    | Verified(exchange: Exchange, client: Client)
    | Resolved(result: GrantResult, origin: Origin)
    | Signed(prepared: Prepared, origin: Origin)
    | Recorded(token: Token)

  datatype State = State(
    clients: ClientTable,
    ledger: Ledger,
    history: History,
    signed: set<Token>,
    released: set<Token>,
    clock: int,
    requests: map<nat, Request>,
    usedTasks: set<string>)

  datatype Step =
    | Tick(elapsed: nat)
    | Register(client: Client)
    | BeginRoot(id: nat, clientId: string, scope: Option<string>, task: string)
    | BeginExchange(id: nat, clientId: string, form: ExchangeForm)
    | VerifyTokens(id: nat)
    | ReadActor(id: nat)
    | Sign(id: nat, jti: string)
    | Record(id: nat, reachable: bool)
    | Respond(id: nat)
    | Crash(id: nat)

  /** Callers cannot make the server's signature: a token of its key is one it released. */
  predicate Presentable(cfg: Config, released: set<Token>, t: Token) {
    t.Jwt? && t.signer == cfg.key.key ==> t in released
  }

  /** When a step can happen. Task identifiers are drawn fresh. */
  predicate Enabled(cfg: Config, s: State, step: Step) {
    match step
    case Tick(_) => true
    case Register(client) => client.Valid()
    case BeginRoot(id, clientId, _, task) => id !in s.requests && clientId in s.clients && task != ""
      && task !in s.usedTasks
    case BeginExchange(id, clientId, form) =>
      && id !in s.requests && clientId in s.clients
      && (form.subjectToken.Some? ==> Presentable(cfg, s.released, form.subjectToken.value))
      && (form.actorToken.Some? ==> Presentable(cfg, s.released, form.actorToken.value))
    case VerifyTokens(id) => id in s.requests && s.requests[id].Authenticated?
    case ReadActor(id) => id in s.requests && s.requests[id].Verified?
    case Sign(id, _) => id in s.requests && s.requests[id].Resolved?
    case Record(id, _) => id in s.requests && s.requests[id].Signed?
    case Respond(id) => id in s.requests && s.requests[id].Recorded?
    case Crash(id) => id in s.requests
  }

  function JtiOf(t: Token): string {
    if t.Jwt? && Get(t.payload, JTI).Str? then t.payload[JTI].s else ""
  }

  function Advance(s: State, id: nat, r: Request): State {
    s.(requests := s.requests[id := r])
  }

  /** The request ends, with an error or because its process died. */
  function Drop(s: State, id: nat): State {
    s.(requests := s.requests - {id})
  }

  function AfterVerify(cfg: Config, s: State, id: nat, x: Exchange, client: Client): State {
    var issuer := cfg.settings.issuer;
    if VerifyPresented(x.subjectToken, issuer, cfg.key, s.clock).Ok?
      && VerifyPresented(x.actorToken, issuer, cfg.key, s.clock).Ok?
    then Advance(s, id, Verified(x, client))
    else Drop(s, id)
  }

  /** The policy decision, on the actor's registration as read now. */
  function Decide(cfg: Config, s: State, x: Exchange, client: Client): Result<Request>
    requires x.subjectToken.Jwt? && x.actorToken.Jwt?
  {
    var actor :- ActorClient(x.actorToken.payload, s.clients);
    var result :- Policy(x, client, x.subjectToken.payload, x.actorToken.payload, actor, cfg.settings.maxDepth);
    Ok(Resolved(result, HopFrom(JtiOf(x.subjectToken), JtiOf(x.actorToken), client, actor, x.audience, x.scope)))
  }

  function AfterDecide(cfg: Config, s: State, id: nat, x: Exchange, client: Client): State {
    if x.subjectToken.Jwt? && x.actorToken.Jwt? && Decide(cfg, s, x, client).Ok?
    then Advance(s, id, Decide(cfg, s, x, client).value)
    else Drop(s, id)
  }

  function AfterSign(cfg: Config, s: State, id: nat, result: GrantResult, origin: Origin, jti: string): State {
    match Prepare(result, cfg.settings, cfg.key, s.clock, jti)
    case Ok(p) => Advance(s, id, Signed(p, origin)).(signed := s.signed + {p.minted.token})
    case Err(_) => Drop(s, id)
  }

  function AfterRecord(s: State, id: nat, p: Prepared, origin: Origin, reachable: bool): State {
    if reachable && Inserted(s.ledger, p.row).Ok? then
      Advance(s, id, Recorded(p.minted.token)).(
      ledger := Inserted(s.ledger, p.row).value,
      history := s.history[p.row.jti := Provenance(p.minted.token, origin)])
    else Drop(s, id)
  }

  function Apply(cfg: Config, s: State, step: Step): State
    requires Enabled(cfg, s, step)
  {
    match step
    case Tick(elapsed) => s.(clock := s.clock + elapsed)
    case Register(client) => s.(clients := s.clients[client.clientId := client])
    case BeginRoot(id, clientId, scope, task) =>
      var client := s.clients[clientId];
      Advance(s, id, Resolved(ResolveClientCredentials(scope, client, task),
                              RootOf(client, scope))).(usedTasks := s.usedTasks + {task})
    case BeginExchange(id, clientId, form) =>
      (match CheckForm(form, s.clients[clientId])
       case Ok(x) => Advance(s, id, Authenticated(x, s.clients[clientId]))
       case Err(_) => s)
    case VerifyTokens(id) => AfterVerify(cfg, s, id, s.requests[id].exchange, s.requests[id].client)
    case ReadActor(id) => AfterDecide(cfg, s, id, s.requests[id].exchange, s.requests[id].client)
    case Sign(id, jti) => AfterSign(cfg, s, id, s.requests[id].result, s.requests[id].origin, jti)
    case Record(id, reachable) => AfterRecord(s, id, s.requests[id].prepared, s.requests[id].origin, reachable)
    case Respond(id) => Drop(s, id).(released := s.released + {s.requests[id].token})
    case Crash(id) => Drop(s, id)
  }

  /** A server that has issued nothing yet. */
  predicate Initial(s: State) {
    && (forall id :: id in s.clients ==> s.clients[id].Valid() && s.clients[id].clientId == id)
    && s.ledger == map[] && s.history == map[] && s.requests == map[]
    && s.signed == {} && s.released == {} && s.usedTasks == {}
  }

  /** The state after a run, when each of its steps can happen in turn. */
  function Execute(cfg: Config, s: State, steps: seq<Step>): Option<State>
    decreases |steps|
  {
    if steps == [] then Some(s)
    else if Enabled(cfg, s, steps[0]) then Execute(cfg, Apply(cfg, s, steps[0]), steps[1..])
    else None
  }

  ghost predicate Reachable(cfg: Config, s: State) {
    exists start, steps :: Initial(start) && Execute(cfg, start, steps) == Some(s)
  }
}
