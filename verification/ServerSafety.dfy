/** What holds of every state the server can reach, whatever the interleaving and the crashes. */
module ServerSafety {
  import opened Outcomes
  import opened Json
  import opened StringOrder
  import opened Scopes
  import opened ScopeHops
  import opened Delegation
  import opened Tokens
  import opened Repositories
  import opened Grants
  import opened Pipeline
  import opened Server
  import opened ServerInvariant

  // ---------------------------------------------------------------------------- issuance ancestry

  /** The row that the token of row `j` was exchanged from, if any. */
  function ParentOf(ledger: Ledger, history: History, j: string): Option<string> {
    if j in history && history[j].origin.HopFrom? then Some(history[j].origin.parent) else None
  }

  /** The issuance ancestors of a row, from itself to its root. The guard on depths, which makes the
    * walk end, holds of every hop in a reachable state. */
  function Lineage(ledger: Ledger, history: History, j: string): (l: seq<string>)
    ensures l != [] && l[0] == j
    decreases if j in ledger && ledger[j].delegationDepth > 0 then ledger[j].delegationDepth else 0
  {
    match ParentOf(ledger, history, j)
    case Some(p) =>
      if j in ledger && p in ledger && 0 <= ledger[p].delegationDepth < ledger[j].delegationDepth
      then [j] + Lineage(ledger, history, p) else [j]
    case None => [j]
  }

  function RootOfTree(ledger: Ledger, history: History, j: string): string {
    var l := Lineage(ledger, history, j);
    l[|l| - 1]
  }

  function Subjects(ledger: Ledger, rows: seq<string>): seq<string> {
    if rows == [] then []
    else [if rows[0] in ledger then ledger[rows[0]].subject else ""] + Subjects(ledger, rows[1..])
  }

  /** A root has depth 0; a hop is one level below a row that is there. */
  lemma EntryDepth(cfg: Config, ledger: Ledger, history: History, j: string)
    requires LedgerOk(cfg, ledger, history) && j in history
    ensures j in ledger && EntryAt(cfg, ledger, history, j) && ledger[j].delegationDepth >= 0
    ensures history[j].origin.RootOf? ==> ledger[j].delegationDepth == 0
    ensures history[j].origin.HopFrom? ==>
              var p := history[j].origin.parent;
              && p in history && p in ledger && EntryAt(cfg, ledger, history, p)
              && 0 <= ledger[p].delegationDepth == ledger[j].delegationDepth - 1
  {
    assert EntryAt(cfg, ledger, history, j);
    if history[j].origin.HopFrom? {
      assert EntryAt(cfg, ledger, history, history[j].origin.parent);
    }
  }

  /** One step up: either `j` is a root of depth 0, or its parent is one level above it. */
  lemma LineageStep(cfg: Config, s: State, j: string)
    requires LedgerOk(cfg, s.ledger, s.history) && j in s.history
    ensures j in s.ledger && s.ledger[j].delegationDepth >= 0
    ensures s.history[j].origin.RootOf? ==> s.ledger[j].delegationDepth == 0 && Lineage(s.ledger, s.history, j) == [j]
    ensures s.history[j].origin.HopFrom? ==>
              var p := s.history[j].origin.parent;
              && p in s.history && p in s.ledger
              && 0 <= s.ledger[p].delegationDepth == s.ledger[j].delegationDepth - 1
              && Lineage(s.ledger, s.history, j) == [j] + Lineage(s.ledger, s.history, p)
              && RootOfTree(s.ledger, s.history, j) == RootOfTree(s.ledger, s.history, p)
  {
    EntryDepth(cfg, s.ledger, s.history, j);
    LineageUnfolds(s.ledger, s.history, j);
  }

  lemma {:induction false} LineageUnfolds(ledger: Ledger, history: History, j: string)
    requires j in history && j in ledger && ledger[j].delegationDepth >= 0
    requires history[j].origin.HopFrom? ==>
               && history[j].origin.parent in ledger
               && 0 <= ledger[history[j].origin.parent].delegationDepth == ledger[j].delegationDepth - 1
    ensures history[j].origin.RootOf? ==> Lineage(ledger, history, j) == [j]
    ensures history[j].origin.HopFrom? ==>
              var p := history[j].origin.parent;
              Lineage(ledger, history, j) == [j] + Lineage(ledger, history, p)
                && RootOfTree(ledger, history, j) == RootOfTree(ledger, history, p)
  {
  }

  /** The lineage is the real one: parent by parent, down to a root issued with client credentials. */
  lemma {:induction false} LineageIsIssuanceHistory(cfg: Config, s: State, j: string)
    requires Inv(cfg, s) && j in s.history
    ensures var l := Lineage(s.ledger, s.history, j);
            && (forall i :: 0 <= i < |l| ==> l[i] in s.history && l[i] in s.ledger)
            && (forall i :: 0 <= i < |l| - 1 ==> ParentOf(s.ledger, s.history, l[i]) == Some(l[i + 1]))
            && IsRoot(s.ledger, s.history, l[|l| - 1])
    decreases s.ledger[j].delegationDepth
  {
    LineageStep(cfg, s, j);
    if s.history[j].origin.HopFrom? {
      var p := s.history[j].origin.parent;
      LineageIsIssuanceHistory(cfg, s, p);
      var l, m := Lineage(s.ledger, s.history, j), Lineage(s.ledger, s.history, p);
      assert forall i :: 0 < i < |l| ==> l[i] == m[i - 1];
    }
  }

  /** A hop's token holds its own subject and, as `act`, its whole parent nested. */
  lemma HopNestsParent(cfg: Config, t: Token, row: IssuanceRecord, o: Origin, parent: Token, parentRow: IssuanceRecord,
                       tenant: string, holderRow: IssuanceRecord)
    requires o.HopFrom? && HopOk(cfg, t, row, o, parent, parentRow, tenant, holderRow)
    ensures t.Jwt? && parent.Jwt? && Nest(parent.payload).Ok?
    ensures Get(t.payload, SUB) == Str(row.subject) && Get(t.payload, ACT) == Nest(parent.payload).value
    ensures parentRow.delegationDepth < cfg.settings.maxDepth
  {
    assert Member(t.payload, SUB) == Some(Str(row.subject))
           && Member(t.payload, ACT) == Some(Nest(parent.payload).value);
  }

  lemma HopChainGrows(cfg: Config, ledger: Ledger, history: History, j: string)
    requires cfg.Valid() && LedgerOk(cfg, ledger, history) && j in history && history[j].origin.HopFrom?
    ensures var p := history[j].origin.parent;
            && j in ledger && p in history && history[j].token.Jwt? && history[p].token.Jwt?
            && Chain(history[p].token.payload).Ok?
            && Chain(history[j].token.payload) == Ok([ledger[j].subject] + Chain(history[p].token.payload).value)
  {
    var o := history[j].origin;
    EntryDepth(cfg, ledger, history, j);
    var t, parent := history[j].token, history[o.parent].token;
    HopNestsParent(cfg, t, ledger[j], o, parent, ledger[o.parent], TenantIn(history[o.parent].origin),
                   ledger[o.holder]);
    NestPrependsHolder(parent.payload, t.payload, ledger[j].subject, Chain(parent.payload).value);
  }

  lemma RootChain(cfg: Config, ledger: Ledger, history: History, j: string)
    requires LedgerOk(cfg, ledger, history) && j in history && history[j].origin.RootOf?
    ensures j in ledger && history[j].token.Jwt? && Chain(history[j].token.payload) == Ok([ledger[j].subject])
    ensures ledger[j].rootSubject == ledger[j].subject
  {
    assert EntryAt(cfg, ledger, history, j);
    var t := history[j].token;
    assert Get(t.payload, SUB) == Str(ledger[j].subject) && Get(t.payload, ACT) == Null;
    ChainReads(t.payload, [ledger[j].subject]);
  }

  lemma {:induction false} ChainFollowsLineage(cfg: Config, s: State, j: string)
    requires cfg.Valid() && LedgerOk(cfg, s.ledger, s.history) && j in s.history
    ensures j in s.ledger && s.history[j].token.Jwt?
    ensures Chain(s.history[j].token.payload) == Ok(Subjects(s.ledger, Lineage(s.ledger, s.history, j)))
    ensures |Lineage(s.ledger, s.history, j)| == s.ledger[j].delegationDepth + 1
    decreases if j in s.ledger && s.ledger[j].delegationDepth > 0 then s.ledger[j].delegationDepth else 0
  {
    LineageStep(cfg, s, j);
    if s.history[j].origin.RootOf? {
      RootChain(cfg, s.ledger, s.history, j);
      assert Subjects(s.ledger, [j]) == [s.ledger[j].subject];
    } else {
      var p := s.history[j].origin.parent;
      ChainFollowsLineage(cfg, s, p);
      HopChainGrows(cfg, s.ledger, s.history, j);
      var l, m := Lineage(s.ledger, s.history, j), Lineage(s.ledger, s.history, p);
      assert l == [j] + m && l[1..] == m;
    }
  }

  lemma HopInherits(cfg: Config, ledger: Ledger, history: History, j: string)
    requires LedgerOk(cfg, ledger, history) && j in history && history[j].origin.HopFrom?
    ensures var p := history[j].origin.parent;
            && j in ledger && p in ledger && p in history
            && ledger[j].rootSubject == ledger[p].rootSubject && ledger[j].taskId == ledger[p].taskId
            && TenantIn(history[j].origin) == TenantIn(history[p].origin)
  {
    assert EntryAt(cfg, ledger, history, j);
  }

  lemma {:induction false} RootSubjectIsInherited(cfg: Config, s: State, j: string)
    requires LedgerOk(cfg, s.ledger, s.history) && j in s.history
    ensures var r := RootOfTree(s.ledger, s.history, j);
            && j in s.ledger && IsRoot(s.ledger, s.history, r) && s.ledger[r].delegationDepth == 0
            && s.ledger[j].rootSubject == s.ledger[r].subject
            && s.ledger[j].taskId == s.ledger[r].taskId
            && TenantIn(s.history[j].origin) == TenantIn(s.history[r].origin)
    decreases if j in s.ledger && s.ledger[j].delegationDepth > 0 then s.ledger[j].delegationDepth else 0
  {
    LineageStep(cfg, s, j);
    if s.history[j].origin.RootOf? {
      RootChain(cfg, s.ledger, s.history, j);
    } else {
      HopInherits(cfg, s.ledger, s.history, j);
      RootSubjectIsInherited(cfg, s, s.history[j].origin.parent);
    }
  }

  /** The signed chain of every recorded token is exactly the subjects of its issuance ancestors, from
    * itself to a root; its declared depth, its ledger depth and its number of ancestors agree, within
    * the cap, and the recorded root subject is the root's. */
  lemma SignedChainIsIssuanceHistory(cfg: Config, s: State, j: string)
    requires cfg.Valid() && Reachable(cfg, s) && j in s.history
    ensures j in s.ledger && s.history[j].token.Jwt?
    ensures var l := Lineage(s.ledger, s.history, j);
            var claims := s.history[j].token.payload;
            && Chain(claims) == Ok(Subjects(s.ledger, l))
            && DeclaredDepth(claims) == Ok(|l| - 1)
            && s.ledger[j].delegationDepth == |l| - 1 <= cfg.settings.maxDepth
            && IsRoot(s.ledger, s.history, l[|l| - 1])
            && s.ledger[l[|l| - 1]].delegationDepth == 0
            && s.ledger[j].rootSubject == s.ledger[l[|l| - 1]].subject
  {
    ReachableStatesHaveInv(cfg, s);
    ChainFollowsLineage(cfg, s, j);
    RootSubjectIsInherited(cfg, s, j);
    DepthIsCapped(cfg, s.ledger, s.history, j);
    assert EntryAt(cfg, s.ledger, s.history, j);
    IssuedTokenSaysRow(cfg, s.ledger, s.history, s.history[j].token, s.ledger[j], s.history[j].origin);
    DepthReaderAccepts(s.history[j].token, s.ledger[j]);
  }

  lemma DepthIsCapped(cfg: Config, ledger: Ledger, history: History, j: string)
    requires cfg.Valid() && LedgerOk(cfg, ledger, history) && j in history
    ensures j in ledger && 0 <= ledger[j].delegationDepth <= cfg.settings.maxDepth
  {
    EntryDepth(cfg, ledger, history, j);
  }

  /** Nothing deeper than the cap is ever signed, even if it is never recorded or released. */
  lemma NothingDeeperThanTheCapIsSigned(cfg: Config, s: State, t: Token)
    requires cfg.Valid() && Reachable(cfg, s) && t in s.signed
    ensures t.Jwt? && DeclaredDepth(t.payload).Ok? && DeclaredDepth(t.payload).value <= cfg.settings.maxDepth
  {
    ReachableStatesHaveInv(cfg, s);
    assert WithinCap(cfg, t);
  }

  // ------------------------------------------------------------------------ every released token is recorded

  /** The claims of a token say what its row says. */
  ghost predicate AgreesWithRow(c: Claims, issuer: string, row: IssuanceRecord) {
    && Get(c, JTI) == Str(row.jti) && Get(c, ISS) == Str(issuer)
    && Get(c, CLIENT_ID) == Str(row.clientId) && Get(c, SUB) == Str(row.subject) && Get(c, AUD) == Str(row.audience)
    && Get(c, SCOPE) == (if row.scope == "" then Null else Str(row.scope))
    && row.taskId.Some? && Get(c, TASK_ID) == Str(row.taskId.value)
    && Get(c, DELEGATION_DEPTH) == Int(row.delegationDepth)
    && Get(c, IAT) == Int(WholeSeconds(row.issuedAt)) && Get(c, EXP) == Int(WholeSeconds(row.expiresAt))
  }

  lemma CarriedClaimsAgree(t: Token, key: SigningKey, issuer: string, row: IssuanceRecord, act: Option<Value>,
                           tenant: Option<string>)
    requires Carries(t, key, issuer, row, act, tenant) && row.taskId.Some?
    ensures AgreesWithRow(t.payload, issuer, row)
  {
  }

  /** A released token has a ledger row of its own that says what the token says. */
  lemma ReleasedTokensAreRecorded(cfg: Config, s: State, t: Token)
    requires cfg.Valid() && Reachable(cfg, s) && t in s.released
    ensures t.Jwt? && JtiOf(t) in s.ledger
    ensures forall u :: u in s.released && JtiOf(u) == JtiOf(t) ==> u == t
    ensures s.ledger[JtiOf(t)].jti == JtiOf(t)
    ensures AgreesWithRow(t.payload, cfg.settings.issuer, s.ledger[JtiOf(t)])
  {
    ReachableStatesHaveInv(cfg, s);
    var j := JtiOf(t);
    assert EntryAt(cfg, s.ledger, s.history, j);
    IssuanceCarries(cfg, s.ledger, s.history, t, s.ledger[j], s.history[j].origin);
    CarriedClaimsAgree(t, cfg.key, cfg.settings.issuer, s.ledger[j], ActIn(s.history, s.history[j].origin),
                       Some(TenantIn(s.history[j].origin)));
  }

  lemma OnlyRespondReleases(cfg: Config, s: State, step: Step)
    requires Enabled(cfg, s, step)
    ensures Apply(cfg, s, step).released == if step.Respond? then s.released + {s.requests[step.id].token}
            else s.released
  {
  }

  lemma RecordedIsInLedger(cfg: Config, s: State, id: nat)
    requires cfg.Valid() && Reachable(cfg, s) && id in s.requests && s.requests[id].Recorded?
    ensures var j := JtiOf(s.requests[id].token);
            && j in s.ledger && s.ledger[j].jti == j
            && j in s.history && s.history[j].token == s.requests[id].token
  {
    ReachableStatesHaveInv(cfg, s);
    assert RequestOk(cfg, s.ledger, s.history, s.released, s.requests[id]);
    assert EntryAt(cfg, s.ledger, s.history, JtiOf(s.requests[id].token));
  }

  /** The row and the token of a root, in full: the client's own, for the scopes it asked for and may have,
    * for the configured time. */
  ghost predicate IsRootRow(cfg: Config, t: Token, row: IssuanceRecord, client: Client, asked: Option<string>) {
    && t.Jwt? && AgreesWithRow(t.payload, cfg.settings.issuer, row)
    && Get(t.payload, ACT) == Null && Get(t.payload, TENANT) == Str(client.tenant)
    && row.clientId == client.clientId && row.subject == row.rootSubject == client.subject
    && row.audience == cfg.settings.resourceAudience && row.delegationDepth == 0
    && row.expiresAt == row.issuedAt + cfg.settings.ttl * SECOND
    && row.scope == Joined(Kept(Parsed(asked), [client.allowedScopes]))
    && ScopeSet(row.scope) == Elements(Parsed(asked)) * client.allowedScopes
  }

  /** The row and the token of a hop, in full: naming the holder of the actor token and the caller, for the
    * audience asked for, below the subject token's row, with what was asked for of what that holds and the
    * actor may have, until the configured time is over or the subject token's signed expiry comes. */
  ghost predicate IsHopRow(cfg: Config, t: Token, row: IssuanceRecord, parent: IssuanceRecord, holder: IssuanceRecord,
                           caller: Client, actor: Client, audience: string, asked: Option<string>) {
    var held := ScopeSet(parent.scope);
    var wanted := if Parsed(asked) != [] then Parsed(asked) else Sorted(held);
    var full := row.issuedAt + cfg.settings.ttl * SECOND;
    var ceiling := WholeSeconds(parent.expiresAt) * SECOND;
    && t.Jwt? && AgreesWithRow(t.payload, cfg.settings.issuer, row) && Get(t.payload, TENANT) == Str(actor.tenant)
    && row.subject == holder.subject && actor.clientId == holder.clientId && row.clientId == caller.clientId
    && row.audience == audience && audience in caller.allowedAudiences
    && row.rootSubject == parent.rootSubject && row.taskId == parent.taskId
    && row.delegationDepth == parent.delegationDepth + 1
    && row.expiresAt == (if ceiling < full then ceiling else full)
    && row.scope == Joined(Kept(wanted, [held, actor.allowedScopes]))
    && ScopeSet(row.scope) == Elements(wanted) * held * actor.allowedScopes
  }

  lemma CarriedActAndTenant(t: Token, key: SigningKey, issuer: string, row: IssuanceRecord, act: Option<Value>,
                            tenant: string)
    requires Carries(t, key, issuer, row, act, Some(tenant))
    ensures t.Jwt? && Get(t.payload, TENANT) == Str(tenant)
    ensures Get(t.payload, ACT) == (if act.Some? then act.value else Null)
  {
    assert Member(t.payload, ACT) == act && Member(t.payload, TENANT) == Some(Str(tenant));
  }

  lemma RootEntryIsExact(cfg: Config, t: Token, row: IssuanceRecord, client: Client, asked: Option<string>)
    requires RootOk(cfg, t, row, client, asked) && row.taskId.Some?
    ensures IsRootRow(cfg, t, row, client, asked)
  {
    CarriedClaimsAgree(t, cfg.key, cfg.settings.issuer, row, None, Some(client.tenant));
    CarriedActAndTenant(t, cfg.key, cfg.settings.issuer, row, None, client.tenant);
  }

  lemma HopEntryIsExact(cfg: Config, t: Token, row: IssuanceRecord, o: Origin, parent: Token, parentRow: IssuanceRecord,
                        tenant: string, holder: IssuanceRecord)
    requires o.HopFrom? && HopOk(cfg, t, row, o, parent, parentRow, tenant, holder) && row.taskId.Some?
    ensures IsHopRow(cfg, t, row, parentRow, holder, o.caller, o.actor, o.audience, o.asked)
  {
    CarriedClaimsAgree(t, cfg.key, cfg.settings.issuer, row, Some(Nest(parent.payload).value), Some(o.actor.tenant));
    CarriedActAndTenant(t, cfg.key, cfg.settings.issuer, row, Some(Nest(parent.payload).value), o.actor.tenant);
  }

  /** In every reachable state every recorded row, and the token behind it, is exactly what its origin gives:
    * nothing more, nothing less, whatever happened in between. */
  lemma RecordedRowsAreExact(cfg: Config, s: State, j: string)
    requires cfg.Valid() && Reachable(cfg, s) && j in s.history
    ensures j in s.ledger
    ensures s.history[j].origin.RootOf? ==>
              IsRootRow(cfg, s.history[j].token, s.ledger[j], s.history[j].origin.client, s.history[j].origin.asked)
    ensures s.history[j].origin.HopFrom? ==>
              var o := s.history[j].origin;
              && o.parent in s.ledger && o.holder in s.ledger
              && IsHopRow(cfg, s.history[j].token, s.ledger[j], s.ledger[o.parent], s.ledger[o.holder], o.caller,
                          o.actor,
                          o.audience, o.asked)
  {
    HasLedgerOk(cfg, s);
    assert EntryAt(cfg, s.ledger, s.history, j);
    var t, row, o := s.history[j].token, s.ledger[j], s.history[j].origin;
    if o.RootOf? {
      RootEntryIsExact(cfg, t, row, o.client, o.asked);
    } else {
      HopEntryIsExact(cfg, t, row, o, s.history[o.parent].token, s.ledger[o.parent],
                      TenantIn(s.history[o.parent].origin),
                      s.ledger[o.holder]);
    }
  }

  /** Only responding releases a token, and by then its row is written: a failed write, and a crash at
    * any moment before the response, release nothing. */
  lemma ReleaseFollowsRecord(cfg: Config, s: State, step: Step, t: Token)
    requires cfg.Valid() && Reachable(cfg, s) && Enabled(cfg, s, step)
    requires t !in s.released && t in Apply(cfg, s, step).released
    ensures step.Respond? && s.requests[step.id] == Recorded(t)
    ensures JtiOf(t) in s.ledger && s.ledger[JtiOf(t)].jti == JtiOf(t)
    ensures JtiOf(t) in s.history && s.history[JtiOf(t)].token == t
  {
    OnlyRespondReleases(cfg, s, step);
    RecordedIsInLedger(cfg, s, step.id);
  }

  ghost predicate Extends(s: State, s': State) {
    && (forall j :: j in s.ledger ==> j in s'.ledger && s'.ledger[j] == s.ledger[j])
    && (forall j :: j in s.history ==> j in s'.history && s'.history[j] == s.history[j])
    && s.released <= s'.released && s.clock <= s'.clock
  }

  lemma RecordExtends(s: State, id: nat, p: Prepared, origin: Origin, reachable: bool)
    requires s.ledger.Keys == s.history.Keys
    ensures Extends(s, AfterRecord(s, id, p, origin, reachable))
  {
  }

  /** The steps of a request before its row is written, and its end, leave ledger and releases alone. */
  lemma RequestStepExtends(cfg: Config, s: State, step: Step)
    requires Enabled(cfg, s, step) && (step.BeginRoot? || step.BeginExchange? || step.Sign? || step.Crash?)
    ensures Extends(s, Apply(cfg, s, step))
  {
  }

  lemma ExchangeStepExtends(cfg: Config, s: State, step: Step)
    requires Enabled(cfg, s, step) && (step.VerifyTokens? || step.ReadActor?)
    ensures Extends(s, Apply(cfg, s, step))
  {
  }

  lemma StepExtends(cfg: Config, s: State, step: Step)
    requires s.ledger.Keys == s.history.Keys && Enabled(cfg, s, step)
    ensures Extends(s, Apply(cfg, s, step))
  {
    match step
    case Record(id, reachable) => RecordExtends(s, id, s.requests[id].prepared, s.requests[id].origin, reachable);
    case VerifyTokens(_) => ExchangeStepExtends(cfg, s, step);
    case ReadActor(_) => ExchangeStepExtends(cfg, s, step);
    case Tick(_) =>
    case Register(_) =>
    case Respond(_) =>
    case _ => RequestStepExtends(cfg, s, step);
  }

  /** The ledger is insert-only over any run: no row, once written, changes or disappears. */
  lemma {:induction false} LedgerOnlyGrows(cfg: Config, s: State, steps: seq<Step>)
    requires Inv(cfg, s) && Execute(cfg, s, steps).Some?
    ensures Extends(s, Execute(cfg, s, steps).value)
    decreases |steps|
  {
    if steps != [] {
      StepKeepsInv(cfg, s, steps[0]);
      StepExtends(cfg, s, steps[0]);
      LedgerOnlyGrows(cfg, Apply(cfg, s, steps[0]), steps[1..]);
    }
  }

  /** A token signed, recorded and released. */
  function AfterIssue(s: State, id: nat, p: Prepared, origin: Origin): State {
    Drop(s, id).(
    signed := s.signed + {p.minted.token},
    ledger := s.ledger[p.row.jti := p.row],
    history := s.history[p.row.jti := Provenance(p.minted.token, origin)],
    released := s.released + {p.minted.token})
  }

  /** The three steps of an issuance, when nothing comes between them, are `IssuancePipeline.Issue`: the
    * same ledger, and a released token exactly when that method returns one. When it fails, the request
    * is over after the last step that could happen, with nothing recorded or released. */
  lemma UninterruptedIssue(cfg: Config, s: State, id: nat, jti: string, reachable: bool)
    requires Enabled(cfg, s, Sign(id, jti))
    ensures var p := Prepare(s.requests[id].result, cfg.settings, cfg.key, s.clock, jti);
            var run := Execute(cfg, s, [Sign(id, jti), Record(id, reachable), Respond(id)]);
            && (run.Some? <==> p.Ok? && reachable && jti !in s.ledger)
            && (run.Some? ==> p.value.row.jti == jti && run.value == AfterIssue(s, id, p.value, s.requests[id].origin))
            && (p.Err? ==> Execute(cfg, s, [Sign(id, jti)]) == Some(Drop(s, id)))
            && (p.Ok? && run.None? ==>
                  Execute(cfg, s, [Sign(id, jti), Record(id, reachable)])
                    == Some(Drop(s, id).(signed := s.signed + {p.value.minted.token})))
  {
    var p := Prepare(s.requests[id].result, cfg.settings, cfg.key, s.clock, jti);
    if p.Ok? {
      SignThenRecord(cfg, s, id, jti, reachable, p.value);
    } else {
      UnsignedEnds(cfg, s, id, jti, reachable);
    }
  }

  lemma UnsignedEnds(cfg: Config, s: State, id: nat, jti: string, reachable: bool)
    requires Enabled(cfg, s, Sign(id, jti))
    requires Prepare(s.requests[id].result, cfg.settings, cfg.key, s.clock, jti).Err?
    ensures Execute(cfg, s, [Sign(id, jti), Record(id, reachable), Respond(id)]).None?
    ensures Execute(cfg, s, [Sign(id, jti)]) == Some(Drop(s, id))
  {
    ExecuteFirst(cfg, s, Sign(id, jti), [Record(id, reachable), Respond(id)]);
    ExecuteFirst(cfg, Drop(s, id), Record(id, reachable), [Respond(id)]);
    ExecuteFirst(cfg, s, Sign(id, jti), []);
    assert [Sign(id, jti)] + [] == [Sign(id, jti)];
  }

  lemma SignThenRecord(cfg: Config, s: State, id: nat, jti: string, reachable: bool, p: Prepared)
    requires Enabled(cfg, s, Sign(id, jti))
    requires Prepare(s.requests[id].result, cfg.settings, cfg.key, s.clock, jti) == Ok(p)
    ensures var run := Execute(cfg, s, [Sign(id, jti), Record(id, reachable), Respond(id)]);
            && p.row.jti == jti
            && (run.Some? <==> reachable && jti !in s.ledger)
            && (run.Some? ==> run.value == AfterIssue(s, id, p, s.requests[id].origin))
            && (run.None? ==>
                  Execute(cfg, s, [Sign(id, jti), Record(id, reachable)])
                    == Some(Drop(s, id).(signed := s.signed + {p.minted.token})))
  {
    var origin := s.requests[id].origin;
    var s1 := Advance(s, id, Signed(p, origin)).(signed := s.signed + {p.minted.token});
    ExecuteFirst(cfg, s, Sign(id, jti), [Record(id, reachable), Respond(id)]);
    ExecuteFirst(cfg, s, Sign(id, jti), [Record(id, reachable)]);
    SignAlone(cfg, s, id, jti, p);
    RecordThenRespond(cfg, s1, id, p, origin, reachable);
    DropAdvanced(s1, s, id, Signed(p, origin));
  }

  lemma SignAlone(cfg: Config, s: State, id: nat, jti: string, p: Prepared)
    requires Enabled(cfg, s, Sign(id, jti))
    requires Prepare(s.requests[id].result, cfg.settings, cfg.key, s.clock, jti) == Ok(p)
    ensures Apply(cfg, s, Sign(id, jti))
            == Advance(s, id, Signed(p, s.requests[id].origin)).(signed := s.signed + {p.minted.token})
    ensures p.row.jti == jti
  {
    PreparedTokenMatchesRow(s.requests[id].result, cfg.settings, cfg.key, s.clock, jti);
  }

  lemma DropAdvanced(s1: State, s: State, id: nat, r: Request)
    requires s1.requests == s.requests[id := r]
    ensures s1.requests - {id} == s.requests - {id}
  {
  }

  lemma ExecuteFirst(cfg: Config, s: State, first: Step, rest: seq<Step>)
    ensures Execute(cfg, s, [first] + rest) == if Enabled(cfg, s, first) then Execute(cfg, Apply(cfg, s, first), rest)
            else None
  {
    assert ([first] + rest)[1..] == rest;
  }

  lemma RecordThenRespond(cfg: Config, s: State, id: nat, p: Prepared, origin: Origin, reachable: bool)
    requires id in s.requests && s.requests[id] == Signed(p, origin)
    ensures var run := Execute(cfg, s, [Record(id, reachable), Respond(id)]);
            && (run.Some? <==> reachable && p.row.jti !in s.ledger)
            && (run.Some? ==> run.value == AfterIssue(s, id, p, origin).(signed := s.signed))
            && (run.None? ==> Execute(cfg, s, [Record(id, reachable)]) == Some(Drop(s, id)))
  {
    ExecuteFirst(cfg, s, Record(id, reachable), [Respond(id)]);
    ExecuteFirst(cfg, s, Record(id, reachable), []);
    assert [Record(id, reachable)] + [] == [Record(id, reachable)];
    var s2 := AfterRecord(s, id, p, origin, reachable);
    ExecuteFirst(cfg, s2, Respond(id), []);
    assert [Respond(id)] + [] == [Respond(id)];
    assert s2.requests - {id} == s.requests - {id};
  }

  // ---------------------------------------------------------------------------------- one task, one tree

  /** Selecting rows by task selects one delegation tree: the rows with the task of `j` are exactly
    * those with the same root, and that root is the only one of them at depth 0. */
  lemma TaskSelectsOneTree(cfg: Config, s: State, j: string)
    requires cfg.Valid() && Reachable(cfg, s) && j in s.ledger
    ensures s.ledger[j].taskId.Some?
    ensures IsRoot(s.ledger, s.history, RootOfTree(s.ledger, s.history, j))
    ensures forall k :: k in s.ledger ==>
              (s.ledger[k].taskId == s.ledger[j].taskId
               <==> RootOfTree(s.ledger, s.history, k) == RootOfTree(s.ledger, s.history, j))
    ensures forall k :: k in s.ledger ==>
              (s.ledger[k].taskId == s.ledger[j].taskId && s.ledger[k].delegationDepth == 0
               <==> k == RootOfTree(s.ledger, s.history, j))
  {
    ReachableStatesHaveInv(cfg, s);
    RootSubjectIsInherited(cfg, s, j);
    var r := RootOfTree(s.ledger, s.history, j);
    forall k | k in s.ledger
      ensures s.ledger[k].taskId == s.ledger[j].taskId <==> RootOfTree(s.ledger, s.history, k) == r
      ensures s.ledger[k].taskId == s.ledger[j].taskId && s.ledger[k].delegationDepth == 0 <==> k == r
    {
      RootSubjectIsInherited(cfg, s, k);
      LineageStep(cfg, s, k);
    }
  }

  // ------------------------------------------------------------------------------------------- lifetimes

  lemma HopExpiresFirst(cfg: Config, ledger: Ledger, history: History, j: string)
    requires LedgerOk(cfg, ledger, history) && j in history && history[j].origin.HopFrom?
    ensures var p := history[j].origin.parent;
            j in ledger && p in ledger && ledger[j].expiresAt <= WholeSeconds(ledger[p].expiresAt) * SECOND
  {
    assert EntryAt(cfg, ledger, history, j);
  }

  lemma RootLifetime(cfg: Config, ledger: Ledger, history: History, r: string)
    requires LedgerOk(cfg, ledger, history) && r in history && history[r].origin.RootOf?
    ensures r in ledger && WholeSeconds(ledger[r].expiresAt) <= WholeSeconds(ledger[r].issuedAt) + cfg.settings.ttl
  {
    assert EntryAt(cfg, ledger, history, r);
  }

  lemma {:induction false} OutlivesNoAncestor(cfg: Config, s: State, j: string, i: nat)
    requires cfg.Valid() && LedgerOk(cfg, s.ledger, s.history) && j in s.history
    requires i < |Lineage(s.ledger, s.history, j)|
    ensures var l := Lineage(s.ledger, s.history, j);
            && j in s.ledger && l[i] in s.ledger
            && WholeSeconds(s.ledger[j].expiresAt) <= WholeSeconds(s.ledger[l[i]].expiresAt)
            && (i > 0 ==> s.ledger[j].expiresAt <= WholeSeconds(s.ledger[l[i]].expiresAt) * SECOND)
    decreases i
  {
    LineageStep(cfg, s, j);
    if i > 0 {
      var p := s.history[j].origin.parent;
      assert Lineage(s.ledger, s.history, j)[i] == Lineage(s.ledger, s.history, p)[i - 1];
      OutlivesNoAncestor(cfg, s, p, i - 1);
      HopExpiresFirst(cfg, s.ledger, s.history, j);
    }
  }

  /** Every token of a tree stops verifying by the root's signed `iat` plus the configured lifetime. */
  lemma TreeExpiresWithItsRoot(cfg: Config, s: State, j: string, now: int)
    requires cfg.Valid() && Reachable(cfg, s) && j in s.history
    ensures var r := RootOfTree(s.ledger, s.history, j);
            && r in s.ledger
            && (now >= (WholeSeconds(s.ledger[r].issuedAt) + cfg.settings.ttl) * SECOND
                ==> VerifyPresented(s.history[j].token, cfg.settings.issuer, cfg.key, now).Err?)
  {
    ReachableStatesHaveInv(cfg, s);
    var l := Lineage(s.ledger, s.history, j);
    RootSubjectIsInherited(cfg, s, j);
    OutlivesNoAncestor(cfg, s, j, |l| - 1);
    RootLifetime(cfg, s.ledger, s.history, l[|l| - 1]);
    assert EntryAt(cfg, s.ledger, s.history, j);
    IssuedTokenSaysRow(cfg, s.ledger, s.history, s.history[j].token, s.ledger[j], s.history[j].origin);
    ExpiredIsRefused(s.history[j].token, cfg.settings.issuer, cfg.key, WholeSeconds(s.ledger[j].expiresAt), now);
  }

  lemma ExpiredIsRefused(t: Token, issuer: string, key: SigningKey, exp: int, now: int)
    requires t.Jwt? && Get(t.payload, EXP) == Int(exp)
    ensures now >= exp * SECOND ==> VerifyPresented(t, issuer, key, now).Err?
  {
  }

  // -------------------------------------------------------------------------------------------- scopes

  lemma HopScopes(cfg: Config, ledger: Ledger, history: History, j: string)
    requires LedgerOk(cfg, ledger, history) && j in history && history[j].origin.HopFrom?
    ensures var o := history[j].origin;
            && j in ledger && o.parent in ledger
            && ScopeSet(ledger[j].scope) <= ScopeSet(ledger[o.parent].scope) * o.actor.allowedScopes
            && (Parsed(o.asked) == []
                ==> ScopeSet(ledger[j].scope) == ScopeSet(ledger[o.parent].scope) * o.actor.allowedScopes)
  {
    assert EntryAt(cfg, ledger, history, j);
    var o := history[j].origin;
    PlainHopScope(ledger[j].scope, ScopeSet(ledger[o.parent].scope), o.asked, o.actor.allowedScopes);
  }

  /** The registration whose scopes bounded an issuance, as it was read for it. */
  function Ceiling(history: History, j: string): set<string> {
    if j !in history then {} else
      match history[j].origin
      case RootOf(client, _) => client.allowedScopes
      case HopFrom(_, _, _, actor, _, _) => actor.allowedScopes
  }

  lemma {:induction false} ScopesWithinAncestors(cfg: Config, s: State, j: string, i: nat)
    requires cfg.Valid() && LedgerOk(cfg, s.ledger, s.history) && j in s.history
    requires i < |Lineage(s.ledger, s.history, j)|
    ensures var a := Lineage(s.ledger, s.history, j)[i];
            && j in s.ledger && a in s.ledger
            && ScopeSet(s.ledger[j].scope) <= ScopeSet(s.ledger[a].scope)
            && ScopeSet(s.ledger[j].scope) <= Ceiling(s.history, a)
    decreases i
  {
    LineageStep(cfg, s, j);
    if s.history[j].origin.HopFrom? {
      HopScopes(cfg, s.ledger, s.history, j);
      if i > 0 {
        var p := s.history[j].origin.parent;
        assert Lineage(s.ledger, s.history, j)[i] == Lineage(s.ledger, s.history, p)[i - 1];
        ScopesWithinAncestors(cfg, s, p, i - 1);
      }
    } else {
      RootScopesWithin(cfg, s.ledger, s.history, j);
    }
  }

  lemma RootScopesWithin(cfg: Config, ledger: Ledger, history: History, j: string)
    requires LedgerOk(cfg, ledger, history) && j in history && history[j].origin.RootOf?
    ensures j in ledger && ScopeSet(ledger[j].scope) <= history[j].origin.client.allowedScopes
    ensures history[j].origin.client.status == Active
  {
    assert EntryAt(cfg, ledger, history, j);
  }

  /** A derived token only ever loses: against each of its ancestors, the signed expiry is no later, the
    * full-precision ledger expiry is within the ancestor's signed one, the scopes lie within the
    * ancestor's and within the registration read for that ancestor, and task, tenant and recorded root
    * are the same. The root's client was active. Clients may be edited between hops. */
  lemma DerivedTokensOnlyShrink(cfg: Config, s: State, j: string, i: nat)
    requires cfg.Valid() && Reachable(cfg, s) && j in s.history && i < |Lineage(s.ledger, s.history, j)|
    ensures var l := Lineage(s.ledger, s.history, j);
            var a, r := l[i], l[|l| - 1];
            && j in s.ledger && a in s.ledger && a in s.history && r in s.history && s.history[r].origin.RootOf?
            && WholeSeconds(s.ledger[j].expiresAt) <= WholeSeconds(s.ledger[a].expiresAt)
            && (i > 0 ==> s.ledger[j].expiresAt <= WholeSeconds(s.ledger[a].expiresAt) * SECOND)
            && ScopeSet(s.ledger[j].scope) <= ScopeSet(s.ledger[a].scope) * Ceiling(s.history, a)
            && s.ledger[j].taskId == s.ledger[a].taskId && s.ledger[j].rootSubject == s.ledger[a].rootSubject
            && TenantIn(s.history[j].origin) == TenantIn(s.history[a].origin)
            && s.history[r].origin.client.status == Active
  {
    HasLedgerOk(cfg, s);
    OutlivesNoAncestor(cfg, s, j, i);
    ScopesWithinAncestors(cfg, s, j, i);
    TreeIsShared(cfg, s, j, i);
    RootIsActive(cfg, s, j);
  }

  lemma HasLedgerOk(cfg: Config, s: State)
    requires cfg.Valid() && Reachable(cfg, s)
    ensures LedgerOk(cfg, s.ledger, s.history)
  {
    ReachableStatesHaveInv(cfg, s);
  }

  /** Task, recorded root and tenant are those of every ancestor. */
  lemma TreeIsShared(cfg: Config, s: State, j: string, i: nat)
    requires LedgerOk(cfg, s.ledger, s.history) && j in s.history && i < |Lineage(s.ledger, s.history, j)|
    ensures var a := Lineage(s.ledger, s.history, j)[i];
            && j in s.ledger && a in s.ledger && a in s.history
            && s.ledger[j].taskId == s.ledger[a].taskId && s.ledger[j].rootSubject == s.ledger[a].rootSubject
            && TenantIn(s.history[j].origin) == TenantIn(s.history[a].origin)
  {
    AncestorsShareRoot(cfg, s, j, i);
    RootSubjectIsInherited(cfg, s, j);
    RootSubjectIsInherited(cfg, s, Lineage(s.ledger, s.history, j)[i]);
  }

  lemma RootIsActive(cfg: Config, s: State, j: string)
    requires LedgerOk(cfg, s.ledger, s.history) && j in s.history
    ensures var r := RootOfTree(s.ledger, s.history, j);
            r in s.history && s.history[r].origin.RootOf? && s.history[r].origin.client.status == Active
  {
    RootSubjectIsInherited(cfg, s, j);
    RootScopesWithin(cfg, s.ledger, s.history, RootOfTree(s.ledger, s.history, j));
  }

  lemma {:induction false} AncestorsShareRoot(cfg: Config, s: State, j: string, i: nat)
    requires LedgerOk(cfg, s.ledger, s.history) && j in s.history && i < |Lineage(s.ledger, s.history, j)|
    ensures var a := Lineage(s.ledger, s.history, j)[i];
            a in s.history && RootOfTree(s.ledger, s.history, a) == RootOfTree(s.ledger, s.history, j)
    decreases i
  {
    LineageStep(cfg, s, j);
    if i > 0 {
      var p := s.history[j].origin.parent;
      assert Lineage(s.ledger, s.history, j)[i] == Lineage(s.ledger, s.history, p)[i - 1];
      AncestorsShareRoot(cfg, s, p, i - 1);
    }
  }

  /** The actor registrations read along a lineage, root excluded. */
  function HopCeilings(history: History, l: seq<string>): seq<set<string>> {
    if |l| <= 1 then [] else [Ceiling(history, l[0])] + HopCeilings(history, l[1..])
  }

  /** No hop of the lineage asked for particular scopes. */
  predicate AllPlain(history: History, l: seq<string>) {
    |l| > 1 ==>
      && (l[0] in history && history[l[0]].origin.HopFrom? ==> Parsed(history[l[0]].origin.asked) == [])
      && AllPlain(history, l[1..])
  }

  lemma SurvivingFirst(held: set<string>, first: set<string>, rest: seq<set<string>>)
    ensures Surviving(held, [first] + rest) == Surviving(held, rest) * first
  {
    var all := [first] + rest;
    forall w ensures WithinAll(w, all) <==> w in first && WithinAll(w, rest) {
      assert all[0] == first;
      assert forall i :: 0 <= i < |rest| ==> rest[i] == all[i + 1];
    }
  }

  lemma {:induction false} PlainScopes(cfg: Config, s: State, j: string)
    requires LedgerOk(cfg, s.ledger, s.history) && j in s.history
    requires AllPlain(s.history, Lineage(s.ledger, s.history, j))
    ensures var l := Lineage(s.ledger, s.history, j);
            var r := RootOfTree(s.ledger, s.history, j);
            && j in s.ledger && r in s.ledger
            && ScopeSet(s.ledger[j].scope) == Surviving(ScopeSet(s.ledger[r].scope), HopCeilings(s.history, l))
    decreases if j in s.ledger && s.ledger[j].delegationDepth > 0 then s.ledger[j].delegationDepth else 0
  {
    LineageStep(cfg, s, j);
    if s.history[j].origin.HopFrom? {
      var p := s.history[j].origin.parent;
      var l, m := Lineage(s.ledger, s.history, j), Lineage(s.ledger, s.history, p);
      assert l == [j] + m && l[1..] == m;
      PlainScopes(cfg, s, p);
      HopScopes(cfg, s.ledger, s.history, j);
      SurvivingFirst(ScopeSet(s.ledger[RootOfTree(s.ledger, s.history, p)].scope), Ceiling(s.history, j),
                     HopCeilings(s.history, m));
    } else {
      assert Surviving(ScopeSet(s.ledger[j].scope), []) == ScopeSet(s.ledger[j].scope);
    }
  }

  /** Closed form in every run: when no hop asked for particular scopes, a token holds exactly the
    * root's scopes that every actor registration on the way, as read, also allowed. */
  lemma PlainScopesClosedForm(cfg: Config, s: State, j: string)
    requires cfg.Valid() && Reachable(cfg, s) && j in s.history
    requires AllPlain(s.history, Lineage(s.ledger, s.history, j))
    ensures var l := Lineage(s.ledger, s.history, j);
            var r := RootOfTree(s.ledger, s.history, j);
            && j in s.ledger && r in s.ledger
            && ScopeSet(s.ledger[j].scope) == Surviving(ScopeSet(s.ledger[r].scope), HopCeilings(s.history, l))
  {
    ReachableStatesHaveInv(cfg, s);
    PlainScopes(cfg, s, j);
  }

  // ------------------------------------------------------------------------ when an exchange is accepted

  /** A presented token verifies exactly when it was released and has not expired. */
  predicate Live(s: State, t: Token) {
    t in s.released && JtiOf(t) in s.ledger && s.clock < WholeSeconds(s.ledger[JtiOf(t)].expiresAt) * SECOND
  }

  lemma CarriedTokenVerifies(t: Token, key: SigningKey, issuer: string, row: IssuanceRecord, act: Option<Value>,
                             tenant: Option<string>, now: int)
    requires Carries(t, key, issuer, row, act, tenant) && row.issuedAt <= now
    ensures VerifyPresented(t, issuer, key, now)
         == if now < WholeSeconds(row.expiresAt) * SECOND then Ok(t.payload) else Err(REFUSED)
  {
    assert Member(t.payload, NBF) == None;
    assert WholeSeconds(row.issuedAt) * SECOND <= row.issuedAt;
    VerifiesUntilExpiry(t, issuer, key, WholeSeconds(row.issuedAt), WholeSeconds(row.expiresAt), now);
  }

  lemma VerifiesExactlyWhenLive(cfg: Config, s: State, t: Token)
    requires Inv(cfg, s) && Presentable(cfg, s.released, t)
    ensures VerifyPresented(t, cfg.settings.issuer, cfg.key, s.clock) == if Live(s, t) then Ok(t.payload)
            else Err(REFUSED)
    ensures Live(s, t) ==> JtiOf(t) in s.history && s.history[JtiOf(t)].token == t
  {
    if t in s.released {
      var j := JtiOf(t);
      assert EntryAt(cfg, s.ledger, s.history, j);
      IssuanceCarries(cfg, s.ledger, s.history, t, s.ledger[j], s.history[j].origin);
      CarriedTokenVerifies(t, cfg.key, cfg.settings.issuer, s.ledger[j], ActIn(s.history, s.history[j].origin),
                           Some(TenantIn(s.history[j].origin)), s.clock);
    } else {
      VerifiedTokensAreOurs(t, cfg.settings.issuer, cfg.key, s.clock);
    }
  }

  /** The registrations and the cap allow a hop from the token of row `p` to the holder of row `a`. */
  predicate HopAllowed(cfg: Config, ledger: Ledger, history: History, clients: ClientTable, p: string, a: string) {
    && p in history && p in ledger && a in ledger
    && ledger[a].clientId in clients
    && clients[ledger[a].clientId].tenant == TenantIn(history[p].origin) != ""
    && ledger[p].delegationDepth < cfg.settings.maxDepth
  }

  lemma PolicyAcceptsExactlyWhen(cfg: Config, ledger: Ledger, history: History, clients: ClientTable, x: Exchange,
                                 caller: Client)
    requires LedgerOk(cfg, ledger, history)
    requires JtiOf(x.subjectToken) in history && history[JtiOf(x.subjectToken)].token == x.subjectToken
    requires JtiOf(x.actorToken) in history && history[JtiOf(x.actorToken)].token == x.actorToken
    ensures x.subjectToken.Jwt? && x.actorToken.Jwt?
    ensures var actor := ActorClient(x.actorToken.payload, clients);
            (actor.Ok? && Policy(x, caller, x.subjectToken.payload, x.actorToken.payload, actor.value,
                                 cfg.settings.maxDepth).Ok?)
            <==> HopAllowed(cfg, ledger, history, clients, JtiOf(x.subjectToken), JtiOf(x.actorToken))
  {
    var p, a := JtiOf(x.subjectToken), JtiOf(x.actorToken);
    HolderIsLookedUp(cfg, ledger, history, clients, a);
    HolderIsLookedUp(cfg, ledger, history, clients, p);
    var actor := ActorClient(x.actorToken.payload, clients);
    if actor.Ok? {
      PolicyOnIssuedTokens(cfg, ledger, history, x, caller, p, a, actor.value);
    }
  }

  /** In every reachable state an exchange is resolved exactly when the form is in order, both tokens
    * are live, the client that the actor token was issued to is registered, its tenant is the subject
    * token's and not empty, and the depth cap leaves room for one more. Nothing an issued token carries
    * is ever refused as unreadable: chains end at the cap, never at the reader's own limit. */
  lemma ExchangeResolvesExactlyWhen(cfg: Config, s: State, form: ExchangeForm, caller: Client)
    requires cfg.Valid() && Reachable(cfg, s)
    requires form.subjectToken.Some? ==> Presentable(cfg, s.released, form.subjectToken.value)
    requires form.actorToken.Some? ==> Presentable(cfg, s.released, form.actorToken.value)
    ensures ResolveExchange(form, caller, s.clients, cfg.settings.issuer, cfg.key, cfg.settings.maxDepth,
                            s.clock).Ok? <==>
              && IsInOrder(form, caller)
              && Live(s, form.subjectToken.value) && Live(s, form.actorToken.value)
              && HopAllowed(cfg, s.ledger, s.history, s.clients, JtiOf(form.subjectToken.value),
                            JtiOf(form.actorToken.value))
  {
    ReachableStatesHaveInv(cfg, s);
    FormPassesExactlyWhen(form, caller);
    if CheckForm(form, caller).Ok? {
      var x := CheckForm(form, caller).value;
      VerifiesExactlyWhenLive(cfg, s, x.subjectToken);
      VerifiesExactlyWhenLive(cfg, s, x.actorToken);
      if Live(s, x.subjectToken) && Live(s, x.actorToken) {
        PolicyAcceptsExactlyWhen(cfg, s.ledger, s.history, s.clients, x, caller);
      }
    }
  }
}
