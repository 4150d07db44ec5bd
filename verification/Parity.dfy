/** The two verifiers are separate code and must agree: the authorization server's own, and the resource
  * server's, which knows the key only through its cache. */
module Parity {
  import opened Outcomes
  import opened Json
  import opened Tokens
  import Jwks
  import J = JwksConcurrency

  /** What `validate` answers when its call of `_key_for` has ended. */
  function RemoteVerdict(st: Jwks.Settings, t: Token, call: J.Call, wall: int): Result<Claims>
    requires J.HasEnded(call)
  {
    var _ :- Jwks.HeaderKid(t);
    var jwk :- J.Verdict(call);
    Jwks.DecodeWith(st, t, jwk, wall)
  }

  /** A token that names this key passes the same header checks in both verifiers. */
  lemma HeaderChecksAgree(t: Token, issuer: string, key: SigningKey, audience: Option<string>, wall: int)
    requires Jwks.HeaderKid(t) == Ok(key.kid)
    ensures Verify(t, issuer, key, audience, wall)
         == if Decodes(t, key.key, REQUIRED, Some(issuer), audience, wall) then Ok(t.payload)
           else Err(TokenError("token validation failed"))
  {
  }

  lemma PublishedKeyIsTheKey(key: SigningKey)
    ensures Jwks.KeyOf(Jwks.PublicJwk(key)) == Some(key.key)
  {
    Jwks.ServedKeysAreTheKey("", "", key);
  }

  /** The served key decodes exactly what the local verifier accepts under its header checks. */
  lemma ServedKeyDecodesAlike(st: Jwks.Settings, key: SigningKey, t: Token, wall: int)
    requires Jwks.HeaderKid(t) == Ok(key.kid)
    ensures Jwks.DecodeWith(st, t, Jwks.PublicJwk(key), wall) == Verify(t, st.issuer, key, Some(st.audience), wall)
  {
    PublishedKeyIsTheKey(key);
    HeaderChecksAgree(t, st.issuer, key, Some(st.audience), wall);
  }

  lemma OtherKidsAreRefused(t: Token, issuer: string, key: SigningKey, audience: Option<string>, wall: int)
    requires key.kid != "" && Jwks.HeaderKid(t) != Ok(key.kid)
    ensures Verify(t, issuer, key, audience, wall).Err?
  {
  }

  /** With the authorization server publishing its one key, in every reachable state of the cache and for
    * every token at the same wall-clock reading: the resource server accepts a token exactly when the
    * local verifier does and the key could be had. What either returns is the same. */
  lemma VerifiersAgree(cfg: J.Config, s: J.State, id: nat, t: Token, wall: int)
    requires J.Reachable(cfg, s) && cfg.serving.Some? && cfg.serving.value.kid != ""
    requires id in s.calls && J.HasEnded(s.calls[id])
    requires Jwks.HeaderKid(t).Ok? ==> s.calls[id].kid == Jwks.HeaderKid(t).value
    ensures var remote := RemoteVerdict(cfg.settings, t, s.calls[id], wall);
            var local := Verify(t, cfg.settings.issuer, cfg.serving.value, Some(cfg.settings.audience), wall);
            && (remote.Ok? <==> local.Ok? && !s.calls[id].Broken?)
            && (remote.Ok? ==> remote == local)
            && (local.Ok? <==> IsGenuine(t, cfg.settings.issuer, cfg.serving.value, Some(cfg.settings.audience), wall))
  {
    J.ReachableStatesHaveInv(cfg, s);
    var key := cfg.serving.value;
    VerifyAcceptsExactlyWhen(t, cfg.settings.issuer, key, Some(cfg.settings.audience), wall);
    assert J.CallOk(cfg, s.now, s.fetchedAt, s.calls[id]);
    if Jwks.HeaderKid(t) == Ok(key.kid) {
      ServedKeyDecodesAlike(cfg.settings, key, t, wall);
    } else {
      OtherKidsAreRefused(t, cfg.settings.issuer, key, Some(cfg.settings.audience), wall);
    }
  }

  /** In particular a caller that names other keys never gets a token accepted, and never makes the cache
    * hold anything but the served key. */
  lemma CacheHoldsOnlyTheServedKey(cfg: J.Config, s: J.State, kid: string)
    requires J.Reachable(cfg, s) && cfg.serving.Some? && kid in s.cache.keys
    ensures kid == cfg.serving.value.kid && s.cache.keys[kid] == Jwks.PublicJwk(cfg.serving.value)
  {
    J.ReachableStatesHaveInv(cfg, s);
  }
}
