/** The two servers together: which of the tokens that the authorization server released the resource server
  * accepts. */
module EndToEnd {
  import opened Outcomes
  import opened Json
  import opened Tokens
  import opened Pipeline
  import opened Repositories
  import Server
  import ServerInvariant
  import Jwks
  import J = JwksConcurrency
  import Parity
  import UndisturbedCache

  /** A token with this row is for that audience, and the moment is within its signed lifetime. */
  predicate IsAcceptable(row: IssuanceRecord, audience: string, wall: int) {
    && row.audience == audience
    && WholeSeconds(row.issuedAt) * SECOND <= wall < WholeSeconds(row.expiresAt) * SECOND
  }

  lemma CarriedIsGenuineExactlyWhen(t: Token, key: SigningKey, issuer: string, row: IssuanceRecord, act: Option<Value>,
                                    tenant: Option<string>, audience: string, wall: int)
    requires Carries(t, key, issuer, row, act, tenant)
    ensures IsGenuine(t, issuer, key, Some(audience), wall) <==> IsAcceptable(row, audience, wall)
  {
    assert Member(t.payload, NBF) == None && Member(t.payload, AUD) == Some(Str(row.audience));
    assert Member(t.payload, IAT) == Some(Int(WholeSeconds(row.issuedAt)));
    assert Member(t.payload, EXP) == Some(Int(WholeSeconds(row.expiresAt)));
  }

  /** A released token is genuine for an audience exactly when its ledger row says so. */
  lemma ReleasedIsGenuineExactlyWhen(cfg: Server.Config, s: Server.State, t: Token, audience: string, wall: int)
    requires cfg.Valid() && Server.Reachable(cfg, s) && t in s.released
    ensures Server.JtiOf(t) in s.ledger
    ensures IsGenuine(t, cfg.settings.issuer, cfg.key, Some(audience), wall)
       <==> IsAcceptable(s.ledger[Server.JtiOf(t)], audience, wall)
  {
    ServerInvariant.ReachableStatesHaveInv(cfg, s);
    var j := Server.JtiOf(t);
    assert ServerInvariant.EntryAt(cfg, s.ledger, s.history, j);
    var o := s.history[j].origin;
    ServerInvariant.IssuanceCarries(cfg, s.ledger, s.history, t, s.ledger[j], o);
    CarriedIsGenuineExactlyWhen(t, cfg.key, cfg.settings.issuer, s.ledger[j], ServerInvariant.ActIn(s.history, o),
                                Some(ServerInvariant.TenantIn(o)), audience, wall);
  }

  /** The resource server trusts this authorization server, which publishes its key. */
  predicate Trusts(remote: J.Config, cfg: Server.Config) {
    remote.serving == Some(cfg.key) && remote.settings.issuer == cfg.settings.issuer
  }

  /** In every reachable state of both servers, a call of the resource server that has ended accepts a
    * released token exactly when the row of the token names its audience, the moment is within the signed
    * lifetime, and no fetch failed. */
  lemma ReleasedIsAcceptedExactlyWhen(cfg: Server.Config, s: Server.State, t: Token, remote: J.Config, c: J.State,
                                      id: nat, wall: int)
    requires cfg.Valid() && Server.Reachable(cfg, s) && t in s.released
    requires Trusts(remote, cfg) && J.Reachable(remote, c) && id in c.calls && J.HasEnded(c.calls[id])
    requires Jwks.HeaderKid(t) == Ok(c.calls[id].kid)
    ensures Server.JtiOf(t) in s.ledger
    ensures var r := Parity.RemoteVerdict(remote.settings, t, c.calls[id], wall);
            && (r.Ok? <==>
                  && IsAcceptable(s.ledger[Server.JtiOf(t)], remote.settings.audience, wall)
                  && !c.calls[id].Broken?)
            && (r.Ok? ==> r.value == t.payload)
  {
    Parity.VerifiersAgree(remote, c, id, t, wall);
    VerifyAcceptsExactlyWhen(t, cfg.settings.issuer, cfg.key, Some(remote.settings.audience), wall);
    ReleasedIsGenuineExactlyWhen(cfg, s, t, remote.settings.audience, wall);
  }

  /** The same of `validate` undisturbed: exactly when its row names the audience, the moment is within the
    * signed lifetime, and the key could be had. */
  lemma ValidateAcceptsReleasedExactlyWhen(cfg: Server.Config, s: Server.State, t: Token, remote: J.Config, c: J.State,
                                           id: nat, wall: int, first: UndisturbedCache.Reply,
                                           second: UndisturbedCache.Reply)
    requires cfg.Valid() && Server.Reachable(cfg, s) && t in s.released
    requires Trusts(remote, cfg) && J.Reachable(remote, c) && id !in c.calls && c.lock.None?
    requires J.Answers(remote, first.fetch) && J.Answers(remote, second.fetch)
    ensures Server.JtiOf(t) in s.ledger
    ensures var a1 := UndisturbedCache.AttemptAt(c.now, first);
            var a2 := UndisturbedCache.SecondAttempt(c.cache, c.now, first, second);
            var r := Jwks.Validated(remote.settings, c.cache, t, c.now, wall, a1, a2).1;
            && (r.Ok? ==>
                  && IsAcceptable(s.ledger[Server.JtiOf(t)], remote.settings.audience, wall)
                  && r.value == t.payload)
            && (IsAcceptable(s.ledger[Server.JtiOf(t)], remote.settings.audience, wall) && r.Err? ==>
                  Jwks.Fails(remote.settings, a1, r.failure) || Jwks.Fails(remote.settings, a2, r.failure))
  {
    UndisturbedCache.ValidateAgreesWithLocal(remote, c, id, t, wall, first, second);
    VerifyAcceptsExactlyWhen(t, cfg.settings.issuer, cfg.key, Some(remote.settings.audience), wall);
    ReleasedIsGenuineExactlyWhen(cfg, s, t, remote.settings.audience, wall);
  }
}
