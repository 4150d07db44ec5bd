/** Whole requests that nothing interrupts: exactly when each ends with a released token, and runs of the
  * server that show what the other theorems speak of does happen. */
module ServerRuns {
  import opened Outcomes
  import opened Scopes
  import opened ScopeHops
  import opened Delegation
  import opened Tokens
  import opened Repositories
  import opened Grants
  import opened Pipeline
  import opened Server
  import opened ServerInvariant
  import opened ServerSafety
  import Undisturbed

  lemma {:induction false} ExecuteConcat(cfg: Config, s: State, first: seq<Step>, rest: seq<Step>)
    ensures Execute(cfg, s, first + rest)
         == match Execute(cfg, s, first) { case Some(s1) => Execute(cfg, s1, rest) case None => None }
    decreases |first|
  {
    if first == [] {
      assert first + rest == rest;
    } else {
      assert (first + rest)[0] == first[0] && (first + rest)[1..] == first[1..] + rest;
      if Enabled(cfg, s, first[0]) {
        ExecuteConcat(cfg, Apply(cfg, s, first[0]), first[1..], rest);
      }
    }
  }

  lemma StillReachable(cfg: Config, s: State, steps: seq<Step>)
    requires Reachable(cfg, s) && Execute(cfg, s, steps).Some?
    ensures Reachable(cfg, Execute(cfg, s, steps).value)
  {
    var start, before :| Initial(start) && Execute(cfg, start, before) == Some(s);
    ExecuteConcat(cfg, start, before, steps);
  }

  function IssueSteps(id: nat, jti: string, reachable: bool): seq<Step> {
    [Sign(id, jti), Record(id, reachable), Respond(id)]
  }

  // -------------------------------------------------------------------------------- client credentials

  function RootSteps(id: nat, clientId: string, scope: Option<string>, task: string, jti: string,
                     reachable: bool): seq<Step> {
    [BeginRoot(id, clientId, scope, task)] + IssueSteps(id, jti, reachable)
  }

  /** Some scope asked for is allowed, or none was asked for. */
  predicate SomeAllowed(scope: Option<string>, allowed: set<string>) {
    Parsed(scope) == [] || Elements(Parsed(scope)) * allowed != {}
  }

  lemma OneCeiling(requested: seq<string>, allowed: set<string>)
    ensures Attenuate(requested, [allowed]).Ok? <==> requested == [] || Elements(requested) * allowed != {}
  {
    AttenuateGrantsTheIntersection(requested, [allowed]);
    assert forall w :: WithinAll(w, [allowed]) <==> w in allowed by {
      assert [allowed][0] == allowed;
    }
    if Elements(requested) * allowed != {} {
      var w :| w in Elements(requested) * allowed;
      assert w in requested && WithinAll(w, [allowed]);
    }
    if w :| w in requested && WithinAll(w, [allowed]) {
      assert w in Elements(requested) * allowed;
    }
  }

  /** A `client_credentials` request that nothing interrupts ends with a released token exactly when the
    * client is active, something it asks for is allowed, the token identifier is new and the database can
    * be reached. Then the new row and token are those of a root, of the task drawn, for exactly the scopes
    * that were asked for and are allowed. */
  lemma RootReleasesExactlyWhen(cfg: Config, s: State, id: nat, clientId: string, scope: Option<string>, task: string,
                                jti: string, reachable: bool)
    requires cfg.Valid() && Enabled(cfg, s, BeginRoot(id, clientId, scope, task))
    ensures var client := s.clients[clientId];
            var run := Execute(cfg, s, RootSteps(id, clientId, scope, task, jti, reachable));
            && (run.Some? <==>
                  && client.status == Active && SomeAllowed(scope, client.allowedScopes)
                  && jti !in s.ledger && reachable)
            && (run.Some? ==>
                  && ReleasesRow(s, run.value, jti, RootOf(client, scope))
                  && run.value.ledger[jti].taskId == Some(task)
                  && IsRootRow(cfg, run.value.history[jti].token, run.value.ledger[jti], client, scope))
  {
    var client := s.clients[clientId];
    var result := ResolveClientCredentials(scope, client, task);
    var s1 := Apply(cfg, s, BeginRoot(id, clientId, scope, task));
    ExecuteFirst(cfg, s, BeginRoot(id, clientId, scope, task), IssueSteps(id, jti, reachable));
    PrepareSucceedsExactlyWhen(result, cfg.settings, cfg.key, s.clock, jti);
    OneCeiling(Parsed(scope), client.allowedScopes);
    IssueReleases(cfg, s, s1, id, result, RootOf(client, scope), jti, reachable);
    var run := Execute(cfg, s1, IssueSteps(id, jti, reachable));
    if run.Some? {
      IssuedRootIsExact(cfg, client, scope, task, s.clock, jti, run.value.history[jti].token, run.value.ledger[jti]);
    }
  }

  lemma IssuedRootIsExact(cfg: Config, client: Client, scope: Option<string>, task: string, now: int, jti: string,
                          t: Token, row: IssuanceRecord)
    requires Issues(ResolveClientCredentials(scope, client, task), cfg.settings, cfg.key, now, jti, t, row)
    ensures row.taskId == Some(task) && IsRootRow(cfg, t, row, client, scope)
  {
    CarriedClaimsAgree(t, cfg.key, cfg.settings.issuer, row, None, Some(client.tenant));
    CarriedActAndTenant(t, cfg.key, cfg.settings.issuer, row, None, client.tenant);
    RootScopeIsExact(scope, client.allowedScopes);
  }

  /** From one state to the other a single token was released, under that identifier and of that origin;
    * all else about the requests is as before. */
  ghost predicate ReleasesRow(s: State, s': State, jti: string, origin: Origin) {
    && jti in s'.ledger && jti in s'.history && jti !in s.ledger
    && s'.ledger == s.ledger[jti := s'.ledger[jti]]
    && s'.history == s.history[jti := s'.history[jti]]
    && s'.history[jti].origin == origin && s'.ledger[jti].jti == jti && s'.ledger[jti].issuedAt == s.clock
    && s'.released == s.released + {s'.history[jti].token}
    && s'.clients == s.clients && s'.requests == s.requests && s'.clock == s.clock
  }

  /** What issuing a resolved request comes to. */
  lemma IssueReleases(cfg: Config, s: State, s1: State, id: nat, result: GrantResult, origin: Origin, jti: string,
                      reachable: bool)
    requires id !in s.requests && s1 == Advance(s, id, Resolved(result, origin)).(usedTasks := s1.usedTasks)
    ensures var run := Execute(cfg, s1, IssueSteps(id, jti, reachable));
            && (run.Some? <==>
                  && Prepare(result, cfg.settings, cfg.key, s.clock, jti).Ok?
                  && jti !in s.ledger && reachable)
            && (run.Some? ==>
                  && ReleasesRow(s, run.value, jti, origin)
                  && Issues(result, cfg.settings, cfg.key, s.clock, jti, run.value.history[jti].token,
                            run.value.ledger[jti]))
  {
    UninterruptedIssue(cfg, s1, id, jti, reachable);
    assert s1.requests - {id} == s.requests;
    IssuedNow(cfg, result, s.clock, jti);
  }

  lemma IssuedNow(cfg: Config, result: GrantResult, now: int, jti: string)
    ensures var p := Prepare(result, cfg.settings, cfg.key, now, jti);
            p.Ok? ==>
              && p.value.row.issuedAt == now
              && Issues(result, cfg.settings, cfg.key, now, jti, p.value.minted.token, p.value.row)
  {
    if Prepare(result, cfg.settings, cfg.key, now, jti).Ok? {
      PreparedTokenMatchesRow(result, cfg.settings, cfg.key, now, jti);
    }
  }

  /** An edited registration counts from the next request on: right after it, a root request is decided by
    * the new scopes and status, whatever was registered before. */
  lemma EditedClientCounts(cfg: Config, s: State, client: Client, id: nat, scope: Option<string>, task: string,
                           jti: string,
                           reachable: bool)
    requires cfg.Valid() && client.Valid() && id !in s.requests && task != "" && task !in s.usedTasks
    ensures var run := Execute(cfg, s,
                               [Register(client)] + RootSteps(id, client.clientId, scope, task, jti, reachable));
            && (run.Some? <==>
                  && client.status == Active && SomeAllowed(scope, client.allowedScopes)
                  && jti !in s.ledger && reachable)
            && (run.Some? ==>
                  && run.value.clients == s.clients[client.clientId := client]
                  && jti in run.value.history && jti in run.value.ledger
                  && IsRootRow(cfg, run.value.history[jti].token, run.value.ledger[jti], client, scope))
  {
    ExecuteFirst(cfg, s, Register(client), RootSteps(id, client.clientId, scope, task, jti, reachable));
    RootReleasesExactlyWhen(cfg, Apply(cfg, s, Register(client)), id, client.clientId, scope, task, jti, reachable);
  }

  // ------------------------------------------------------------------------------------ token exchange

  function ExchangeSteps(id: nat, clientId: string, form: ExchangeForm, jti: string, reachable: bool): seq<Step> {
    [BeginExchange(id, clientId, form), VerifyTokens(id), ReadActor(id)] + IssueSteps(id, jti, reachable)
  }

  /** Of the scopes asked for, or else of all that are held, some are both held and allowed. */
  predicate SomeSurvive(asked: Option<string>, held: set<string>, allowed: set<string>) {
    var wanted := if Parsed(asked) != [] then Elements(Parsed(asked)) else held;
    wanted == {} || wanted * held * allowed != {}
  }

  lemma TwoCeilings(asked: Option<string>, held: set<string>, allowed: set<string>)
    ensures Attenuate(Requested(asked, held), [held, allowed]).Ok? <==> SomeSurvive(asked, held, allowed)
  {
    var requested := Requested(asked, held);
    SortedHasElements(held);
    AttenuateGrantsTheIntersection(requested, [held, allowed]);
    assert forall w :: WithinAll(w, [held, allowed]) <==> w in held && w in allowed by {
      assert [held, allowed][0] == held && [held, allowed][1] == allowed;
    }
    var survivors := Elements(requested) * held * allowed;
    if survivors != {} {
      var w :| w in survivors;
      assert w in requested && WithinAll(w, [held, allowed]);
    }
    if w :| w in requested && WithinAll(w, [held, allowed]) {
      assert w in survivors;
    }
    if requested != [] {
      assert requested[0] in Elements(requested);
    }
  }

  /** The grant of a hop below the row of the subject token, for the holder of the actor token's row. */
  ghost predicate IsHopOf(s: State, x: Exchange, caller: Client, result: GrantResult) {
    var p, a := JtiOf(x.subjectToken), JtiOf(x.actorToken);
    && p in s.ledger && a in s.ledger && s.ledger[a].clientId in s.clients
    && x.subjectToken.Jwt? && Nest(x.subjectToken.payload).Ok?
    && x.actorToken.Jwt? && ActorClient(x.actorToken.payload, s.clients) == Ok(s.clients[s.ledger[a].clientId])
    && result == HopResult(x, caller, s.clients[s.ledger[a].clientId], s.ledger[a].subject, x.subjectToken, s.ledger[p])
  }

  lemma PolicyGivesHop(cfg: Config, s: State, x: Exchange, caller: Client, result: GrantResult)
    requires LedgerOk(cfg, s.ledger, s.history)
    requires JtiOf(x.subjectToken) in s.history && s.history[JtiOf(x.subjectToken)].token == x.subjectToken
    requires JtiOf(x.actorToken) in s.history && s.history[JtiOf(x.actorToken)].token == x.actorToken
    requires x.subjectToken.Jwt? && x.actorToken.Jwt? && ActorClient(x.actorToken.payload, s.clients).Ok?
    requires Policy(x, caller, x.subjectToken.payload, x.actorToken.payload,
                    ActorClient(x.actorToken.payload, s.clients).value, cfg.settings.maxDepth) == Ok(result)
    ensures IsHopOf(s, x, caller, result)
  {
    var p, a := JtiOf(x.subjectToken), JtiOf(x.actorToken);
    assert EntryAt(cfg, s.ledger, s.history, a);
    IssuedTokenSaysRow(cfg, s.ledger, s.history, x.actorToken, s.ledger[a], s.history[a].origin);
    PolicyOnIssuedTokens(cfg, s.ledger, s.history, x, caller, p, a, ActorClient(x.actorToken.payload, s.clients).value);
  }

  /** What an exchange resolves to, in terms of the rows of the tokens presented. */
  lemma ResolvedIsHop(cfg: Config, s: State, x: Exchange, caller: Client)
    requires cfg.Valid() && Reachable(cfg, s)
    requires Presentable(cfg, s.released, x.subjectToken) && Presentable(cfg, s.released, x.actorToken)
    ensures var r := ResolveChecked(x, caller, s.clients, cfg.settings.issuer, cfg.key, cfg.settings.maxDepth, s.clock);
            r.Ok? ==> IsHopOf(s, x, caller, r.value)
  {
    ReachableStatesHaveInv(cfg, s);
    VerifiesExactlyWhenLive(cfg, s, x.subjectToken);
    VerifiesExactlyWhenLive(cfg, s, x.actorToken);
    VerifiedTokensAreOurs(x.subjectToken, cfg.settings.issuer, cfg.key, s.clock);
    VerifiedTokensAreOurs(x.actorToken, cfg.settings.issuer, cfg.key, s.clock);
    Undisturbed.ResolvesWhen(x, caller, s.clients, cfg.settings.issuer, cfg.key, cfg.settings.maxDepth, s.clock);
    var r := ResolveChecked(x, caller, s.clients, cfg.settings.issuer, cfg.key, cfg.settings.maxDepth, s.clock);
    if r.Ok? {
      PolicyGivesHop(cfg, s, x, caller, r.value);
    }
  }

  /** The grant of a hop is signed exactly when some scope survives and a whole second is left before the
    * subject token's signed expiry. */
  lemma HopIsSignedExactlyWhen(cfg: Config, s: State, x: Exchange, caller: Client, result: GrantResult, jti: string)
    requires cfg.Valid() && IsHopOf(s, x, caller, result)
    ensures var parent := s.ledger[JtiOf(x.subjectToken)];
            var actor := s.clients[s.ledger[JtiOf(x.actorToken)].clientId];
            Prepare(result, cfg.settings, cfg.key, s.clock, jti).Ok? <==>
              && SomeSurvive(x.scope, ScopeSet(parent.scope), actor.allowedScopes)
              && s.clock + SECOND <= WholeSeconds(parent.expiresAt) * SECOND
  {
    PrepareSucceedsExactlyWhen(result, cfg.settings, cfg.key, s.clock, jti);
    TwoCeilings(x.scope, ScopeSet(s.ledger[JtiOf(x.subjectToken)].scope),
                s.clients[s.ledger[JtiOf(x.actorToken)].clientId].allowedScopes);
  }

  /** Everything an exchange needs, as a caller could look it up beforehand: the form is in order, both
    * tokens are live, the registrations and the cap allow the hop, some scope survives, and a whole second
    * is left before the subject token's signed expiry. */
  predicate ExchangeAllowed(cfg: Config, s: State, form: ExchangeForm, caller: Client) {
    && IsInOrder(form, caller)
    && var p, a := JtiOf(form.subjectToken.value), JtiOf(form.actorToken.value);
    && Live(s, form.subjectToken.value) && Live(s, form.actorToken.value)
    && HopAllowed(cfg, s.ledger, s.history, s.clients, p, a)
    && SomeSurvive(form.scope, ScopeSet(s.ledger[p].scope), s.clients[s.ledger[a].clientId].allowedScopes)
    && s.clock + SECOND <= WholeSeconds(s.ledger[p].expiresAt) * SECOND
  }

  /** The origin of the hop that an allowed exchange makes. */
  function HopOrigin(s: State, x: Exchange, caller: Client): Origin
    requires JtiOf(x.actorToken) in s.ledger && s.ledger[JtiOf(x.actorToken)].clientId in s.clients
  {
    HopFrom(JtiOf(x.subjectToken), JtiOf(x.actorToken), caller, s.clients[s.ledger[JtiOf(x.actorToken)].clientId],
            x.audience, x.scope)
  }

  /** An exchange that nothing interrupts, from any reachable state, ends with a released token exactly
    * when it is allowed, the token identifier is new and the database can be reached. Then the new row and
    * token are those of a hop below the subject token's, for the audience and the scopes of the form. */
  lemma ExchangeReleasesExactlyWhen(cfg: Config, s: State, id: nat, clientId: string, form: ExchangeForm, jti: string,
                                    reachable: bool)
    requires cfg.Valid() && Reachable(cfg, s) && Enabled(cfg, s, BeginExchange(id, clientId, form))
    ensures var caller := s.clients[clientId];
            var run := Execute(cfg, s, ExchangeSteps(id, clientId, form, jti, reachable));
            && (run.Some? <==> ExchangeAllowed(cfg, s, form, caller) && jti !in s.ledger && reachable)
            && (run.Some? ==>
                  var p, a := JtiOf(form.subjectToken.value), JtiOf(form.actorToken.value);
                  var actor := s.clients[s.ledger[a].clientId];
                  && ReleasesRow(s, run.value, jti, HopFrom(p, a, caller, actor, form.audience.value, form.scope))
                  && IsHopRow(cfg, run.value.history[jti].token, run.value.ledger[jti], s.ledger[p], s.ledger[a],
                              caller, actor,
                              form.audience.value, form.scope))
  {
    var caller := s.clients[clientId];
    var r := ResolveExchange(form, caller, s.clients, cfg.settings.issuer, cfg.key, cfg.settings.maxDepth, s.clock);
    var resolving := [BeginExchange(id, clientId, form), VerifyTokens(id), ReadActor(id)];
    ExecuteConcat(cfg, s, resolving, IssueSteps(id, jti, reachable));
    Undisturbed.ExchangeAlone(cfg, s, id, clientId, form);
    ExchangeResolvesExactlyWhen(cfg, s, form, caller);
    FormPassesExactlyWhen(form, caller);
    if r.Ok? {
      var x := CheckForm(form, caller).value;
      ResolvedIsHop(cfg, s, x, caller);
      HopIsSignedExactlyWhen(cfg, s, x, caller, r.value, jti);
      var s1 := Execute(cfg, s, resolving).value;
      IssueReleases(cfg, s, s1, id, r.value, HopOrigin(s, x, caller), jti, reachable);
      var run := Execute(cfg, s1, IssueSteps(id, jti, reachable));
      if run.Some? {
        StillReachable(cfg, s, ExchangeSteps(id, clientId, form, jti, reachable));
        ReleasedHopIsExact(cfg, s, run.value, jti, HopOrigin(s, x, caller));
      }
    } else {
      UnresolvedEnds(cfg, Execute(cfg, s, resolving), id, jti, reachable);
    }
  }

  lemma ReleasedHopIsExact(cfg: Config, s: State, s': State, jti: string, o: Origin)
    requires cfg.Valid() && Reachable(cfg, s') && o.HopFrom? && ReleasesRow(s, s', jti, o)
    requires o.parent in s.ledger && o.holder in s.ledger
    ensures IsHopRow(cfg, s'.history[jti].token, s'.ledger[jti], s.ledger[o.parent], s.ledger[o.holder], o.caller,
                     o.actor,
                     o.audience, o.asked)
  {
    RecordedRowsAreExact(cfg, s', jti);
  }

  lemma UnresolvedEnds(cfg: Config, resolved: Option<State>, id: nat, jti: string, reachable: bool)
    requires resolved.None? || id !in resolved.value.requests
    ensures resolved.Some? ==> Execute(cfg, resolved.value, IssueSteps(id, jti, reachable)).None?
  {
  }

  // ------------------------------------------------------------------------------------------ witnesses

  /** A server that has just started, with a single client registered. */
  lemma WithOneClient(cfg: Config, client: Client) returns (s: State)
    requires cfg.Valid() && client.Valid()
    ensures Reachable(cfg, s)
    ensures s == State(map[client.clientId := client], map[], map[], {}, {}, 0, map[], {})
  {
    var start := State(map[], map[], map[], {}, {}, 0, map[], {});
    s := Apply(cfg, start, Register(client));
    assert Execute(cfg, start, []) == Some(start);
    StillReachable(cfg, start, [Register(client)]);
    assert [Register(client)][1..] == [];
    assert Execute(cfg, start, [Register(client)]) == Some(s);
  }

  /** Any active client can be issued a root token, which then is released and recorded. */
  lemma WithOneRoot(cfg: Config, client: Client) returns (s: State, t: Token)
    requires cfg.Valid() && client.Valid() && client.status == Active
    ensures Reachable(cfg, s) && s.clients == map[client.clientId := client] && s.clock == 0 && s.requests == map[]
    ensures s.released == {t} && JtiOf(t) == "root"
    ensures s.ledger.Keys == s.history.Keys == {"root"} && s.history["root"] == Provenance(t, RootOf(client, None))
    ensures s.ledger["root"].issuedAt == 0
  {
    var s0 := WithOneClient(cfg, client);
    RootReleasesExactlyWhen(cfg, s0, 0, client.clientId, None, "task", "root", true);
    s := Execute(cfg, s0, RootSteps(0, client.clientId, None, "task", "root", true)).value;
    t := s.history["root"].token;
    StillReachable(cfg, s0, RootSteps(0, client.clientId, None, "task", "root", true));
  }

  /** Not every issued token can be read at the next hop: a client registered with an empty tenant is
    * issued a token whose tenant no reader accepts. */
  lemma EmptyTenantIsIssued(cfg: Config)
    requires cfg.Valid()
    ensures exists s, t :: Reachable(cfg, s) && t in s.released && t.Jwt? && TenantOf(t.payload).Err?
  {
    var client := Client("c", "agent", {}, {}, Active, "");
    var s, t := WithOneRoot(cfg, client);
    ReachableStatesHaveInv(cfg, s);
    assert EntryAt(cfg, s.ledger, s.history, "root");
    ReadersAccept(cfg, s.ledger, s.history, t, s.ledger["root"], s.history["root"].origin);
  }

  /** With a tenant, the token can be exchanged: a released, recorded token of depth 1 is reachable. */
  lemma HopIsIssued(cfg: Config)
    requires cfg.Valid()
    ensures exists s, t :: Reachable(cfg, s) && t in s.released && IsHopBelowRoot(s, t)
  {
    var client := Client("c", "agent", {}, {"api"}, Active, "acme");
    var s, t := WithOneRoot(cfg, client);
    var form := ExchangeForm(Some("api"), Some(t), Some(t), Some(TOKEN_TYPE_URN), Some(TOKEN_TYPE_URN), None, None);
    RootCanBeExchanged(cfg, s, t, client, form);
    ExchangeReleasesExactlyWhen(cfg, s, 1, "c", form, "hop", true);
    var steps := ExchangeSteps(1, "c", form, "hop", true);
    StillReachable(cfg, s, steps);
    HopRow(cfg, Execute(cfg, s, steps).value, "hop");
  }

  /** The token has a row of depth 1, exchanged from a row of depth 0. */
  ghost predicate IsHopBelowRoot(s: State, t: Token) {
    var j := JtiOf(t);
    && j in s.ledger && j in s.history && s.history[j].token == t && s.history[j].origin.HopFrom?
    && s.history[j].origin.parent in s.ledger && s.ledger[s.history[j].origin.parent].delegationDepth == 0
    && s.ledger[j].delegationDepth == 1
  }

  /** What the row of a root token says, issued at time 0 to a client that is allowed no scope. */
  lemma ScopelessRootRow(cfg: Config, s: State, client: Client)
    requires cfg.Valid() && LedgerOk(cfg, s.ledger, s.history) && "root" in s.history && "root" in s.ledger
    requires s.history["root"].origin == RootOf(client, None) && s.ledger["root"].issuedAt == 0
    requires client.allowedScopes == {}
    ensures var row := s.ledger["root"];
            row.clientId == client.clientId && row.delegationDepth == 0 && ScopeSet(row.scope) == {}
              && WholeSeconds(row.expiresAt) >= 1
  {
    assert EntryAt(cfg, s.ledger, s.history, "root");
  }

  lemma RootCanBeExchanged(cfg: Config, s: State, t: Token, client: Client, form: ExchangeForm)
    requires cfg.Valid() && Reachable(cfg, s) && client == Client("c", "agent", {}, {"api"}, Active, "acme")
    requires s.clients == map["c" := client] && s.clock == 0 && s.requests == map[] && s.released == {t}
    requires JtiOf(t) == "root"
    requires s.ledger.Keys == s.history.Keys == {"root"} && s.history["root"] == Provenance(t, RootOf(client, None))
    requires s.ledger["root"].issuedAt == 0
    requires form == ExchangeForm(Some("api"), Some(t), Some(t), Some(TOKEN_TYPE_URN), Some(TOKEN_TYPE_URN), None, None)
    ensures ExchangeAllowed(cfg, s, form, client) && Enabled(cfg, s, BeginExchange(1, "c", form))
  {
    HasLedgerOk(cfg, s);
    ScopelessRootRow(cfg, s, client);
    assert CheckForm(form, client) == Ok(Exchange("api", t, t, None));
  }

  lemma HopRow(cfg: Config, s: State, j: string)
    requires cfg.Valid() && Reachable(cfg, s) && j in s.history && s.history[j].origin.HopFrom?
    requires s.history[j].origin.parent == "root" && "root" in s.history && s.history["root"].origin.RootOf?
    ensures IsHopBelowRoot(s, s.history[j].token)
  {
    ReachableStatesHaveInv(cfg, s);
    EntryDepth(cfg, s.ledger, s.history, j);
    EntryDepth(cfg, s.ledger, s.history, "root");
    assert EntryAt(cfg, s.ledger, s.history, j);
    IssuedTokenSaysRow(cfg, s.ledger, s.history, s.history[j].token, s.ledger[j], s.history[j].origin);
  }
}
