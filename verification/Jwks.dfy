/** The resource server's key cache: discovery, parsing of the key set, refresh and its limiter. */
module Jwks {
  import opened Outcomes
  import opened Json
  import opened Tokens

  /** A key of a key set, as JSON. Its coordinates stand for the identity of the key. */
  type Jwk = Claims
  type KeySet = map<string, Jwk>

  const X := Named("x")

  function PublicJwk(key: SigningKey): Jwk {
    map[KTY := Str("EC"), CRV := Str("P-256"), X := Int(key.key.id), KID := Str(key.kid), ALG := Str(ALGORITHM)]
  }

  function KeyOf(jwk: Jwk): Option<Key> {
    if Get(jwk, X).Int? && Get(jwk, X).n >= 0 then Some(Key(Get(jwk, X).n)) else None
  }

  predicate Usable(v: Value) {
    && v.Object?
    && Get(v.members, KID).Str?
    && Get(v.members, KTY) == Str("EC") && Get(v.members, CRV) == Str("P-256") && Get(v.members, ALG) == Str(ALGORITHM)
  }

  /** The usable keys of a key set by name; a later entry replaces an earlier one of the same name. */
  function Parsed(entries: seq<Value>): KeySet {
    if entries == [] then map[] else
      var last := entries[|entries| - 1];
      var rest := Parsed(entries[..|entries| - 1]);
      if Usable(last) then rest[Get(last.members, KID).s := last.members] else rest
  }

  method ParseKeys(entries: seq<Value>) returns (parsed: KeySet)
    ensures parsed == Parsed(entries)
  {
    parsed := map[];
    for i := 0 to |entries|
      invariant parsed == Parsed(entries[..i])
    {
      assert entries[..i + 1][..i] == entries[..i];
      var entry := entries[i];
      if !entry.Object? {
        continue;
      }
      var kid := Get(entry.members, KID);
      if kid.Str? && Get(entry.members, KTY) == Str("EC") && Get(entry.members, CRV) == Str("P-256")
        && Get(entry.members, ALG) == Str(ALGORITHM) {
        parsed := parsed[kid.s := entry.members];
      }
    }
    assert entries[..|entries|] == entries;
  }

  predicate Names(v: Value, kid: string) {
    Usable(v) && Get(v.members, KID) == Str(kid)
  }

  ghost predicate IsLastNamed(entries: seq<Value>, i: int, kid: string) {
    && 0 <= i < |entries| && Names(entries[i], kid)
    && forall k :: i < k < |entries| ==> !Names(entries[k], kid)
  }

  /** The parsed set has exactly the names of usable entries, each with its last such entry. */
  lemma {:induction false} ParsedHoldsTheLastOfEachName(entries: seq<Value>, kid: string)
    ensures kid in Parsed(entries) <==> exists i :: IsLastNamed(entries, i, kid)
    ensures forall i ::
        IsLastNamed(entries, i, kid) ==> kid in Parsed(entries) && Parsed(entries)[kid] == entries[i].members
  {
    if entries != [] {
      var n := |entries| - 1;
      var rest := entries[..n];
      ParsedHoldsTheLastOfEachName(rest, kid);
      forall i
        ensures IsLastNamed(entries, i, kid) <==> if Names(entries[n], kid) then i == n else IsLastNamed(rest, i, kid)
      {
        if IsLastNamed(rest, i, kid) {
          assert forall k :: i < k < n ==> rest[k] == entries[k];
        }
        if IsLastNamed(entries, i, kid) && i < n {
          assert forall k :: i < k < n ==> rest[k] == entries[k];
        }
      }
      if Names(entries[n], kid) {
        assert IsLastNamed(entries, n, kid);
      } else if kid in Parsed(rest) {
        var i :| IsLastNamed(rest, i, kid);
        assert IsLastNamed(entries, i, kid);
      }
    }
  }

  /** What discovery and the key-set request bring back. */
  datatype Fetch = Unavailable | Fetched(issuer: Value, jwksUri: Value, keys: Value)

  /** What the authorization server answers. */
  function Served(issuer: string, uri: string, key: SigningKey): Fetch {
    Fetched(Str(issuer), Str(uri), List([Object(PublicJwk(key))]))
  }

  const KEYS_UNAVAILABLE := TokenError("could not retrieve authorization-server keys")
  const WRONG_ISSUER := TokenError("discovered issuer does not match the configured issuer")
  const NO_JWKS_URI := TokenError("authorization-server metadata has no JWKS URI")
  const NO_KEYS_ARRAY := TokenError("JWKS response has no keys array")
  const NO_USABLE_KEYS := TokenError("JWKS contains no usable ES256 keys")
  const UNKNOWN_KEY := TokenError("token key ID is not published by the authorization server")

  /** The keys of a fetch that passes every check, and there is at least one. */
  function UsableKeys(f: Fetch, issuer: string): Result<KeySet> {
    var _ :- Need(f.Fetched?, KEYS_UNAVAILABLE);
    var _ :- Need(f.issuer == Str(issuer), WRONG_ISSUER);
    var _ :- Need(f.jwksUri.Str?, NO_JWKS_URI);
    var _ :- Need(f.keys.List?, NO_KEYS_ARRAY);
    var _ :- Need(Parsed(f.keys.items) != map[], NO_USABLE_KEYS);
    Ok(Parsed(f.keys.items))
  }

  /** A fetch that the configured issuer answered, with a key set in which this is the last usable key of
    * that name. */
  ghost predicate Publishes(f: Fetch, issuer: string, kid: string, jwk: Jwk) {
    && f.Fetched? && f.issuer == Str(issuer) && f.jwksUri.Str? && f.keys.List?
    && exists i :: IsLastNamed(f.keys.items, i, kid) && f.keys.items[i].members == jwk
  }

  /** A fetch yields exactly the keys it publishes; one of another issuer, or without any usable key,
    * yields nothing. */
  lemma FetchYieldsWhatItPublishes(f: Fetch, issuer: string, kid: string, jwk: Jwk)
    ensures UsableKeys(f, issuer).Ok? && kid in UsableKeys(f, issuer).value && UsableKeys(f, issuer).value[kid] == jwk
       <==> Publishes(f, issuer, kid, jwk)
    ensures UsableKeys(f, issuer).Ok? ==> UsableKeys(f, issuer).value != map[]
    ensures UsableKeys(f, issuer).Ok? ==> f.Fetched? && f.issuer == Str(issuer)
  {
    if f.Fetched? && f.keys.List? {
      ParsedHoldsTheLastOfEachName(f.keys.items, kid);
    }
  }

  /** A failed fetch never reads like a key that is not published. */
  lemma FetchFailuresDiffer(fetch: Fetch, issuer: string)
    ensures UsableKeys(fetch, issuer) != Err(UNKNOWN_KEY)
  {
    assert |UNKNOWN_KEY.description| == 57;
    assert |KEYS_UNAVAILABLE.description| == 44 && |WRONG_ISSUER.description| == 54;
    assert |NO_JWKS_URI.description| == 45 && |NO_KEYS_ARRAY.description| == 31 && |NO_USABLE_KEYS.description| == 34;
  }

  lemma ServedKeysAreTheKey(issuer: string, uri: string, key: SigningKey)
    ensures UsableKeys(Served(issuer, uri, key), issuer) == Ok(map[key.kid := PublicJwk(key)])
    ensures KeyOf(PublicJwk(key)) == Some(key.key)
  {
    var entry := Object(PublicJwk(key));
    assert [entry][..0] == [];
    assert Parsed([entry]) == Parsed([])[key.kid := PublicJwk(key)];
    assert key.kid in Parsed([entry]);
  }

  datatype Settings = Settings(issuer: string, audience: string, ttl: int, forcedInterval: int)

  datatype Cache = Cache(keys: KeySet, expiresAt: int, nextForced: int)

  /** Whether a refresh, holding the lock at `now`, goes on to fetch. */
  predicate ShouldFetch(c: Cache, force: bool, now: int) {
    if force then now >= c.nextForced else now >= c.expiresAt
  }

  /** One refresh attempt: the clock under the lock, what the fetch brought, the clock after it. */
  datatype Attempt = Attempt(now: int, fetch: Fetch, fetchedAt: int)

  function Stored(c: Settings, keys: KeySet, fetchedAt: int): Cache {
    Cache(keys, fetchedAt + c.ttl, fetchedAt + c.forcedInterval)
  }

  function Refreshed(st: Settings, c: Cache, force: bool, a: Attempt): Result<Cache> {
    if !ShouldFetch(c, force, a.now) then Ok(c)
    else
      var keys :- UsableKeys(a.fetch, st.issuer);
      Ok(Stored(st, keys, a.fetchedAt))
  }

  /** `validate` after the key is known: the header checks come first, then the decoding. */
  function HeaderKid(t: Token): Result<string> {
    var _ :- Need(t.Jwt?, TokenError("token header is malformed"));
    var _ :- Need(Get(t.header, ALG) == Str(ALGORITHM), TokenError("only ES256 access tokens are accepted"));
    var _ :- Need(Get(t.header, TYP) == Str(ACCESS_TOKEN_TYPE), TokenError("token is not an access token"));
    var _ :- Need(IsNonEmptyText(Get(t.header, KID)), TokenError("token does not name a signing key"));
    Ok(Get(t.header, KID).s)
  }

  function DecodeWith(st: Settings, t: Token, jwk: Jwk, wall: int): Result<Claims> {
    match KeyOf(jwk)
    case None => Err(Unhandled)
    case Some(key) =>
      if Decodes(t, key, REQUIRED, Some(st.issuer), Some(st.audience), wall) then Ok(t.payload)
      else Err(TokenError("token validation failed"))
  }

  /** `_key_for`: the cache afterwards, and the key or the refusal. `clock` is the reading that decides
    * whether the cache has expired. */
  function LookedUp(st: Settings, c: Cache, kid: string, clock: int, first: Attempt,
                    second: Attempt): (Cache, Result<Jwk>) {
    match (if clock >= c.expiresAt then Refreshed(st, c, false, first) else Ok(c))
    case Err(f) => (c, Err(f))
    case Ok(c1) =>
      if kid in c1.keys then (c1, Ok(c1.keys[kid]))
      else
        match Refreshed(st, c1, true, second)
        case Err(f) => (c1, Err(f))
        case Ok(c2) => (c2, if kid in c2.keys then Ok(c2.keys[kid]) else Err(UNKNOWN_KEY))
  }

  /** What the look-up means, whatever the two attempts bring: a cached key is returned without a fetch; a
    * key that is returned is in the cache afterwards under its name; one refused as unpublished is not;
    * the cache afterwards is the one before or what one of the attempts stored. */
  lemma LookUpMeans(st: Settings, c: Cache, kid: string, clock: int, first: Attempt, second: Attempt)
    ensures var (after, r) := LookedUp(st, c, kid, clock, first, second);
            && (clock < c.expiresAt && kid in c.keys ==> after == c && r == Ok(c.keys[kid]))
            && (r.Ok? ==> kid in after.keys && r.value == after.keys[kid])
            && (r == Err(UNKNOWN_KEY) ==> kid !in after.keys)
            && (after != c ==> IsStored(st, after, first) || IsStored(st, after, second))
            && (after != c ==> IsOfIssuer(first.fetch, st.issuer) || IsOfIssuer(second.fetch, st.issuer))
            && (r.Err? ==> r.failure == UNKNOWN_KEY || Fails(st, first, r.failure) || Fails(st, second, r.failure))
  {
  }

  predicate IsOfIssuer(f: Fetch, issuer: string) {
    f.Fetched? && f.issuer == Str(issuer)
  }

  predicate IsStored(st: Settings, c: Cache, a: Attempt) {
    UsableKeys(a.fetch, st.issuer).Ok? && c == Stored(st, UsableKeys(a.fetch, st.issuer).value, a.fetchedAt)
  }

  predicate Fails(st: Settings, a: Attempt, failure: Failure) {
    UsableKeys(a.fetch, st.issuer) == Err(failure)
  }

  /** An unknown name costs at most one forced fetch, and none before the limiter allows it. */
  lemma LimiterHoldsBack(st: Settings, c: Cache, kid: string, clock: int, first: Attempt, second: Attempt)
    requires clock < c.expiresAt && kid !in c.keys && second.now < c.nextForced
    ensures LookedUp(st, c, kid, clock, first, second) == (c, Err(UNKNOWN_KEY))
  {
  }

  /** `validate`: the cache afterwards, and the claims or the refusal. */
  function Validated(st: Settings, c: Cache, t: Token, clock: int, wall: int, first: Attempt,
                     second: Attempt): (Cache, Result<Claims>) {
    match HeaderKid(t)
    case Err(f) => (c, Err(f))
    case Ok(kid) =>
      var (after, jwk) := LookedUp(st, c, kid, clock, first, second);
      (after, if jwk.Ok? then DecodeWith(st, t, jwk.value, wall) else Err(jwk.failure))
  }

  /** What is accepted, whatever the keys: a genuine access token of the configured issuer, made for the
    * configured audience, signed with the key that was looked up under the name in its header. Everything
    * of that kind is accepted when a key could be had. */
  lemma ValidatedExactlyWhen(st: Settings, c: Cache, t: Token, clock: int, wall: int, first: Attempt, second: Attempt)
    ensures var (_, r) := Validated(st, c, t, clock, wall, first, second);
            && (r.Ok? <==>
                  && t.Jwt? && IsNonEmptyText(Get(t.header, KID))
                  && LookedUp(st, c, Get(t.header, KID).s, clock, first, second).1.Ok?
                  && KeyOf(LookedUp(st, c, Get(t.header, KID).s, clock, first, second).1.value) == Some(t.signer)
                  && IsGenuine(t, st.issuer, SigningKey(t.signer, Get(t.header, KID).s), Some(st.audience), wall))
            && (r.Ok? ==> r.value == t.payload)
  {
    if t.Jwt? && IsNonEmptyText(Get(t.header, KID)) {
      DecodingIsComplete(t, st.issuer, SigningKey(t.signer, Get(t.header, KID).s), Some(st.audience), wall);
      DecodesNeedsSigner(t, st, wall);
    }
  }

  lemma DecodesNeedsSigner(t: Token, st: Settings, wall: int)
    ensures forall key ::
        Decodes(t, key, REQUIRED, Some(st.issuer), Some(st.audience), wall) ==> t.Jwt? && key == t.signer
  {
  }

  class AuthorizationServerVerifier {
    const settings: Settings
    var keysByKid: KeySet
    var cacheExpiresAt: int
    var earliestNextRefreshAt: int

    constructor (settings: Settings)
      ensures this.settings == settings && Contents() == Cache(map[], 0, 0)
    {
      this.settings := settings;
      keysByKid, cacheExpiresAt, earliestNextRefreshAt := map[], 0, 0;
    }

    function Contents(): Cache
      reads this
    {
      Cache(keysByKid, cacheExpiresAt, earliestNextRefreshAt)
    }

    /** `_refresh`: a fetch that fails, for whatever reason, leaves the cache as it was. */
    method Refresh(force: bool, a: Attempt) returns (r: Result<()>)
      modifies this
      ensures match Refreshed(settings, old(Contents()), force, a)
              case Ok(c) => r == Ok(()) && Contents() == c
              case Err(f) => r == Err(f) && Contents() == old(Contents())
    {
      if !force && a.now < cacheExpiresAt {
        return Ok(());
      }
      if force && a.now < earliestNextRefreshAt {
        return Ok(());
      }
      match a.fetch
      case Unavailable => return Err(KEYS_UNAVAILABLE);
      case Fetched(issuer, uri, keys) =>
        if issuer != Str(settings.issuer) {
          return Err(WRONG_ISSUER);
        }
        if !uri.Str? {
          return Err(NO_JWKS_URI);
        }
        if !keys.List? {
          return Err(NO_KEYS_ARRAY);
        }
        var parsed := ParseKeys(keys.items);
        if parsed == map[] {
          return Err(NO_USABLE_KEYS);
        }
        keysByKid := parsed;
        cacheExpiresAt := a.fetchedAt + settings.ttl;
        earliestNextRefreshAt := a.fetchedAt + settings.forcedInterval;
        return Ok(());
    }

    /** `_key_for` undisturbed. */
    method KeyFor(kid: string, clock: int, first: Attempt, second: Attempt) returns (r: Result<Jwk>)
      modifies this
      ensures (Contents(), r) == LookedUp(settings, old(Contents()), kid, clock, first, second)
    {
      if clock >= cacheExpiresAt {
        var _ :- Refresh(false, first);
      }
      if kid in keysByKid {
        return Ok(keysByKid[kid]);
      }
      var _ :- Refresh(true, second);
      if kid in keysByKid {
        return Ok(keysByKid[kid]);
      }
      return Err(UNKNOWN_KEY);
    }

    /** `validate` undisturbed: a malformed header is refused before the cache is touched, and only a genuine
      * token for this audience is accepted. */
    method Validate(t: Token, clock: int, wall: int, first: Attempt, second: Attempt) returns (r: Result<Claims>)
      modifies this
      ensures (Contents(), r) == Validated(settings, old(Contents()), t, clock, wall, first, second)
      ensures r.Ok? ==>
                && r.value == t.payload && t.Jwt? && Get(t.header, KID).Str?
                && IsGenuine(t, settings.issuer, SigningKey(t.signer, Get(t.header, KID).s), Some(settings.audience),
                             wall)
    {
      ValidatedExactlyWhen(settings, Contents(), t, clock, wall, first, second);
      var kid := HeaderKid(t);
      if kid.Err? {
        return Err(kid.failure);
      }
      var jwk :- KeyFor(kid.value, clock, first, second);
      r := DecodeWith(settings, t, jwk, wall);
    }
  }
}
