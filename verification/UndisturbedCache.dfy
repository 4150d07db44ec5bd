/** One call of the resource server's `_key_for` or `validate` alone, as a run of the key cache's state
  * machine: what the methods return, and the cache they leave, is what such a run ends in. */
module UndisturbedCache {
  import opened Outcomes
  import opened Tokens
  import opened Jwks
  import J = JwksConcurrency
  import Parity

  /** What a fetch brings, and how long it takes. */
  datatype Reply = Reply(fetch: Fetch, elapsed: nat)

  /** The attempt such a fetch makes of a refresh that begins at `now`. */
  function AttemptAt(now: int, r: Reply): Attempt {
    Attempt(now, r.fetch, now + r.elapsed)
  }

  /** When that refresh ends: time passes only if it fetches. */
  function AfterAttempt(c: Cache, force: bool, now: int, r: Reply): int {
    if ShouldFetch(c, force, now) then now + r.elapsed else now
  }

  // --------------------------------------------------------------------------------------- one refresh

  /** The steps of one refresh by a call that is about to take the lock. */
  function RefreshSteps(st: Settings, c: Cache, id: nat, force: bool, now: int, r: Reply): seq<J.Step> {
    if !ShouldFetch(c, force, now) then [J.Acquire(id), J.Decide(id)]
    else
      [J.Acquire(id)] + ([J.Decide(id)] + ([J.Tick(r.elapsed)] + FetchSteps(st, id, r.fetch)))
  }

  function FetchSteps(st: Settings, id: nat, fetch: Fetch): seq<J.Step> {
    [J.Receive(id, fetch)] +
    (if UsableKeys(fetch, st.issuer).Ok? then [J.StoreKeys(id), J.StoreExpiry(id), J.StoreLimit(id)] else [])
  }

  /** The state that a run is in, as far as the call and the cache go. */
  ghost predicate Reaches(run: Option<J.State>, now: int, c: Cache, calls: map<nat, J.Call>) {
    run.Some? && run.value.now == now && run.value.cache == c && run.value.calls == calls && run.value.lock.None?
  }

  /** How a fetch that was due ends. */
  ghost predicate Fetched(cfg: J.Config, s: J.State, id: nat, fetch: Fetch, fetchedAt: int, run: Option<J.State>)
    requires id in s.calls && (s.calls[id].Waiting? || s.calls[id].Fetching?)
  {
    var c := s.calls[id];
    var keys := UsableKeys(fetch, cfg.settings.issuer);
    && (keys.Ok? ==> Reaches(run, fetchedAt, Stored(cfg.settings, keys.value, fetchedAt),
                             s.calls[id := J.LookingUp(c.kid, c.clock, c.force)]))
    && (keys.Err? ==> Reaches(run, fetchedAt, s.cache, s.calls[id := J.Broken(c.kid, keys.failure)]))
  }

  /** How a refresh ends: as `Refreshed` says, with a call that goes on to look its key up exactly when
    * that returns normally. */
  ghost predicate Refreshes(cfg: J.Config, s: J.State, id: nat, r: Reply, run: Option<J.State>)
    requires id in s.calls && s.calls[id].Waiting?
  {
    var c := s.calls[id];
    var after := AfterAttempt(s.cache, c.force, s.now, r);
    match Refreshed(cfg.settings, s.cache, c.force, AttemptAt(s.now, r))
    case Ok(cache) => Reaches(run, after, cache, s.calls[id := J.LookingUp(c.kid, c.clock, c.force)])
    case Err(f) => Reaches(run, after, s.cache, s.calls[id := J.Broken(c.kid, f)])
  }

  /** The steps of one refresh, run together, are `Refresh`: the same cache afterwards, and the lock is
    * free again in every case. */
  lemma RefreshAlone(cfg: J.Config, s: J.State, id: nat, r: Reply)
    requires id in s.calls && s.calls[id].Waiting? && s.lock.None? && J.Answers(cfg, r.fetch)
    ensures Refreshes(cfg, s, id, r,
                      J.Execute(cfg, s, RefreshSteps(cfg.settings, s.cache, id, s.calls[id].force, s.now, r)))
  {
    var c := s.calls[id];
    if ShouldFetch(s.cache, c.force, s.now) {
      FetchAlone(cfg, s, id, r);
    } else {
      var s1 := J.Become(s, id, J.Holding(c.kid, c.clock, c.force)).(lock := Some(id));
      CacheStep(cfg, s, J.Acquire(id), [J.Decide(id)]);
      CacheStep(cfg, s1, J.Decide(id), []);
      assert [J.Decide(id)] + [] == [J.Decide(id)];
      assert J.Apply(cfg, s1, J.Decide(id)).calls == s.calls[id := J.LookingUp(c.kid, c.clock, c.force)];
    }
  }

  lemma FetchAlone(cfg: J.Config, s: J.State, id: nat, r: Reply)
    requires id in s.calls && s.calls[id].Waiting? && s.lock.None? && J.Answers(cfg, r.fetch)
    requires ShouldFetch(s.cache, s.calls[id].force, s.now)
    ensures Fetched(cfg, s, id, r.fetch, s.now + r.elapsed,
                    J.Execute(cfg, s, RefreshSteps(cfg.settings, s.cache, id, s.calls[id].force, s.now, r)))
  {
    var c := s.calls[id];
    var keys := UsableKeys(r.fetch, cfg.settings.issuer);
    var s3 := FetchBegins(cfg, s, id, r.elapsed, FetchSteps(cfg.settings, id, r.fetch));
    ReceiveAlone(cfg, s3, id, r.fetch);
    assert s3.calls[id := J.LookingUp(c.kid, c.clock, c.force)] == s.calls[id := J.LookingUp(c.kid, c.clock, c.force)];
    if keys.Err? {
      assert s3.calls[id := J.Broken(c.kid, keys.failure)] == s.calls[id := J.Broken(c.kid, keys.failure)];
    }
  }

  lemma FetchBegins(cfg: J.Config, s: J.State, id: nat, elapsed: nat, rest: seq<J.Step>) returns (s3: J.State)
    requires id in s.calls && s.calls[id].Waiting? && s.lock.None?
    requires ShouldFetch(s.cache, s.calls[id].force, s.now)
    ensures var c := s.calls[id];
            s3 == J.Become(s, id, J.Fetching(c.kid, c.clock, c.force, s.now)).(lock := Some(id), now := s.now + elapsed)
    ensures J.Execute(cfg, s, [J.Acquire(id)] + ([J.Decide(id)] + ([J.Tick(elapsed)] + rest)))
            == J.Execute(cfg, s3, rest)
  {
    var c := s.calls[id];
    var s1 := J.Become(s, id, J.Holding(c.kid, c.clock, c.force)).(lock := Some(id));
    var s2 := J.Become(s, id, J.Fetching(c.kid, c.clock, c.force, s.now)).(lock := Some(id));
    s3 := s2.(now := s.now + elapsed);
    CacheStep(cfg, s, J.Acquire(id), [J.Decide(id)] + ([J.Tick(elapsed)] + rest));
    CacheStep(cfg, s1, J.Decide(id), [J.Tick(elapsed)] + rest);
    assert J.Apply(cfg, s1, J.Decide(id)) == s2;
    CacheStep(cfg, s2, J.Tick(elapsed), rest);
  }

  lemma ReceiveAlone(cfg: J.Config, s: J.State, id: nat, fetch: Fetch)
    requires id in s.calls && s.calls[id].Fetching? && s.lock == Some(id) && J.Answers(cfg, fetch)
    ensures Fetched(cfg, s, id, fetch, s.now, J.Execute(cfg, s, FetchSteps(cfg.settings, id, fetch)))
  {
    var c := s.calls[id];
    var keys := UsableKeys(fetch, cfg.settings.issuer);
    CacheStep(cfg, s, J.Receive(id, fetch),
              if keys.Ok? then [J.StoreKeys(id), J.StoreExpiry(id), J.StoreLimit(id)] else []);
    var s1 := J.Apply(cfg, s, J.Receive(id, fetch));
    if keys.Ok? {
      StoreAlone(cfg, s1, id);
      assert s1.calls[id := J.LookingUp(c.kid, c.clock, c.force)]
             == s.calls[id := J.LookingUp(c.kid, c.clock, c.force)];
    }
  }

  lemma StoreAlone(cfg: J.Config, s: J.State, id: nat)
    requires id in s.calls && s.calls[id].Storing? && s.lock == Some(id)
    ensures var c := s.calls[id];
            Reaches(J.Execute(cfg, s, [J.StoreKeys(id), J.StoreExpiry(id), J.StoreLimit(id)]), s.now,
                    Stored(cfg.settings, c.keys, c.fetchedAt), s.calls[id := J.LookingUp(c.kid, c.clock, c.force)])
  {
    var s1 := J.Apply(cfg, s, J.StoreKeys(id));
    var s2 := J.Apply(cfg, s1, J.StoreExpiry(id));
    CacheStep(cfg, s, J.StoreKeys(id), [J.StoreExpiry(id), J.StoreLimit(id)]);
    CacheStep(cfg, s1, J.StoreExpiry(id), [J.StoreLimit(id)]);
    CacheStep(cfg, s2, J.StoreLimit(id), []);
    assert [J.StoreLimit(id)] + [] == [J.StoreLimit(id)];
  }

  lemma CacheStep(cfg: J.Config, s: J.State, first: J.Step, rest: seq<J.Step>)
    ensures J.Execute(cfg, s, [first] + rest) == if J.Enabled(cfg, s, first)
            then J.Execute(cfg, J.Apply(cfg, s, first), rest) else None
  {
    assert ([first] + rest)[1..] == rest;
  }

  lemma {:induction false} ExecuteConcat(cfg: J.Config, s: J.State, first: seq<J.Step>, rest: seq<J.Step>)
    requires J.Execute(cfg, s, first).Some?
    ensures J.Execute(cfg, s, first + rest) == J.Execute(cfg, J.Execute(cfg, s, first).value, rest)
    decreases |first|
  {
    if first == [] {
      assert first + rest == rest;
    } else {
      assert (first + rest)[1..] == first[1..] + rest;
      ExecuteConcat(cfg, J.Apply(cfg, s, first[0]), first[1..], rest);
    }
  }

  // ------------------------------------------------------------------------------------------ one look-up

  /** The steps of a call that has passed its expiry check, or its refresh, at `now`. */
  function LookUpSteps(st: Settings, c: Cache, id: nat, kid: string, now: int, second: Reply): seq<J.Step> {
    if kid in c.keys then [J.LookUp(id)]
    else
      [J.LookUp(id)] +
      (RefreshSteps(st, c, id, true, now, second) +
       (if Refreshed(st, c, true, AttemptAt(now, second)).Ok? then [J.LookUp(id)] else []))
  }

  /** The steps of a whole call of `_key_for`: the expiry check, a refresh if it fails, the look-up, a
    * forced refresh if the name is unknown, and the second look-up. */
  function KeyForSteps(st: Settings, c: Cache, id: nat, kid: string, now: int, first: Reply,
                       second: Reply): seq<J.Step> {
    [J.Enter(id, kid), J.ReadClock(id), J.Compare(id)] +
    (if now < c.expiresAt then LookUpSteps(st, c, id, kid, now, second)
     else ExpiredSteps(st, c, id, kid, now, first, second))
  }

  function ExpiredSteps(st: Settings, c: Cache, id: nat, kid: string, now: int, first: Reply,
                        second: Reply): seq<J.Step> {
    RefreshSteps(st, c, id, false, now, first) +
    (match Refreshed(st, c, false, AttemptAt(now, first))
     case Ok(c1) => LookUpSteps(st, c1, id, kid, now + first.elapsed, second)
     case Err(_) => [])
  }

  /** The second attempt begins when the first is over. */
  function SecondAttempt(c: Cache, now: int, first: Reply, second: Reply): Attempt {
    AttemptAt(if now < c.expiresAt then now else now + first.elapsed, second)
  }

  /** The run leaves this cache and a call that ended with this verdict; other calls are not touched. */
  ghost predicate Ends(s: J.State, id: nat, kid: string, run: Option<J.State>, outcome: (Cache, Result<Jwk>)) {
    && run.Some? && run.value.lock.None? && run.value.cache == outcome.0
    && id in run.value.calls && J.HasEnded(run.value.calls[id])
    && run.value.calls[id].kid == kid && J.Verdict(run.value.calls[id]) == outcome.1
    && run.value.calls == s.calls[id := run.value.calls[id]]
  }

  /** What is left of `LookedUp` after the first refresh. */
  function LookedUpFrom(st: Settings, c: Cache, kid: string, second: Attempt): (Cache, Result<Jwk>) {
    if kid in c.keys then (c, Ok(c.keys[kid]))
    else
      match Refreshed(st, c, true, second)
      case Err(f) => (c, Err(f))
      case Ok(c2) => (c2, if kid in c2.keys then Ok(c2.keys[kid]) else Err(UNKNOWN_KEY))
  }

  lemma LookUpEnds(cfg: J.Config, s: J.State, id: nat)
    requires id in s.calls && s.calls[id].LookingUp? && s.lock.None?
    requires (s.calls[id].kid in s.cache.keys || s.calls[id].forced)
    ensures var kid := s.calls[id].kid;
            Ends(s, id, kid, J.Execute(cfg, s, [J.LookUp(id)]),
                 (s.cache, if kid in s.cache.keys then Ok(s.cache.keys[kid]) else Err(UNKNOWN_KEY)))
  {
    CacheStep(cfg, s, J.LookUp(id), []);
    assert [J.LookUp(id)] + [] == [J.LookUp(id)];
  }

  lemma LookUpAlone(cfg: J.Config, s: J.State, id: nat, second: Reply)
    requires id in s.calls && s.calls[id].LookingUp? && !s.calls[id].forced && s.lock.None?
    requires J.Answers(cfg, second.fetch)
    ensures var kid := s.calls[id].kid;
            Ends(s, id, kid, J.Execute(cfg, s, LookUpSteps(cfg.settings, s.cache, id, kid, s.now, second)),
                 LookedUpFrom(cfg.settings, s.cache, kid, AttemptAt(s.now, second)))
  {
    if s.calls[id].kid in s.cache.keys {
      LookUpEnds(cfg, s, id);
    } else {
      ForcedAlone(cfg, s, id, second);
    }
  }

  lemma ForcedAlone(cfg: J.Config, s: J.State, id: nat, second: Reply)
    requires id in s.calls && s.calls[id].LookingUp? && !s.calls[id].forced && s.lock.None?
    requires J.Answers(cfg, second.fetch)
    requires s.calls[id].kid !in s.cache.keys
    ensures var kid := s.calls[id].kid;
            Ends(s, id, kid, J.Execute(cfg, s, LookUpSteps(cfg.settings, s.cache, id, kid, s.now, second)),
                 LookedUpFrom(cfg.settings, s.cache, kid, AttemptAt(s.now, second)))
  {
    var c := s.calls[id];
    var s1 := J.Become(s, id, J.Waiting(c.kid, c.clock, true));
    var refresh := RefreshSteps(cfg.settings, s.cache, id, true, s.now, second);
    var last := if Refreshed(cfg.settings, s.cache, true, AttemptAt(s.now, second)).Ok? then [J.LookUp(id)] else [];
    CacheStep(cfg, s, J.LookUp(id), refresh + last);
    RefreshAlone(cfg, s1, id, second);
    ExecuteConcat(cfg, s1, refresh, last);
    var s2 := J.Execute(cfg, s1, refresh).value;
    if last != [] {
      LookUpEnds(cfg, s2, id);
    }
  }

  /** One undisturbed run of a call of `_key_for` ends in the cache and with the key or refusal that
    * `LookedUp`, and so the method `KeyFor`, gives. */
  lemma KeyForAlone(cfg: J.Config, s: J.State, id: nat, kid: string, first: Reply, second: Reply)
    requires id !in s.calls && s.lock.None? && J.Answers(cfg, first.fetch) && J.Answers(cfg, second.fetch)
    ensures Ends(s, id, kid, J.Execute(cfg, s, KeyForSteps(cfg.settings, s.cache, id, kid, s.now, first, second)),
                 LookedUp(cfg.settings, s.cache, kid, s.now, AttemptAt(s.now, first),
                          SecondAttempt(s.cache, s.now, first, second)))
  {
    if s.now < s.cache.expiresAt {
      KeyForUnexpired(cfg, s, id, kid, first, second);
    } else {
      KeyForExpired(cfg, s, id, kid, first, second);
    }
  }

  lemma KeyForUnexpired(cfg: J.Config, s: J.State, id: nat, kid: string, first: Reply, second: Reply)
    requires id !in s.calls && s.lock.None? && J.Answers(cfg, second.fetch) && s.now < s.cache.expiresAt
    ensures Ends(s, id, kid, J.Execute(cfg, s, KeyForSteps(cfg.settings, s.cache, id, kid, s.now, first, second)),
                 LookedUpFrom(cfg.settings, s.cache, kid, AttemptAt(s.now, second)))
  {
    var entering := [J.Enter(id, kid), J.ReadClock(id), J.Compare(id)];
    EnterAlone(cfg, s, id, kid);
    var s1 := J.Execute(cfg, s, entering).value;
    ExecuteConcat(cfg, s, entering, LookUpSteps(cfg.settings, s.cache, id, kid, s.now, second));
    LookUpAlone(cfg, s1, id, second);
    SameRun(s, s1, id, kid, J.Execute(cfg, s, KeyForSteps(cfg.settings, s.cache, id, kid, s.now, first, second)),
            LookedUpFrom(cfg.settings, s.cache, kid, AttemptAt(s.now, second)));
  }

  /** What ends from a state in which the call is on its way ends from before it entered. */
  lemma SameRun(s: J.State, s1: J.State, id: nat, kid: string, run: Option<J.State>, outcome: (Cache, Result<Jwk>))
    requires id in s1.calls && s1.calls == s.calls[id := s1.calls[id]] && Ends(s1, id, kid, run, outcome)
    ensures Ends(s, id, kid, run, outcome)
  {
  }

  lemma KeyForExpired(cfg: J.Config, s: J.State, id: nat, kid: string, first: Reply, second: Reply)
    requires id !in s.calls && s.lock.None? && J.Answers(cfg, first.fetch) && J.Answers(cfg, second.fetch)
    requires s.now >= s.cache.expiresAt
    ensures Ends(s, id, kid, J.Execute(cfg, s, KeyForSteps(cfg.settings, s.cache, id, kid, s.now, first, second)),
                 LookedUp(cfg.settings, s.cache, kid, s.now, AttemptAt(s.now, first),
                          SecondAttempt(s.cache, s.now, first, second)))
  {
    var entering := [J.Enter(id, kid), J.ReadClock(id), J.Compare(id)];
    EnterAlone(cfg, s, id, kid);
    var s1 := J.Execute(cfg, s, entering).value;
    ExecuteConcat(cfg, s, entering, ExpiredSteps(cfg.settings, s.cache, id, kid, s.now, first, second));
    ExpiredAlone(cfg, s1, id, first, second);
    SameRun(s, s1, id, kid, J.Execute(cfg, s, KeyForSteps(cfg.settings, s.cache, id, kid, s.now, first, second)),
            ExpiredOutcome(cfg.settings, s.cache, kid, s.now, first, second));
  }

  /** What is left of `LookedUp` when the expiry check fails. */
  function ExpiredOutcome(st: Settings, c: Cache, kid: string, now: int, first: Reply,
                          second: Reply): (Cache, Result<Jwk>) {
    match Refreshed(st, c, false, AttemptAt(now, first))
    case Ok(c1) => LookedUpFrom(st, c1, kid, AttemptAt(now + first.elapsed, second))
    case Err(f) => (c, Err(f))
  }

  lemma ExpiredAlone(cfg: J.Config, s: J.State, id: nat, first: Reply, second: Reply)
    requires id in s.calls && s.lock.None? && J.Answers(cfg, first.fetch) && J.Answers(cfg, second.fetch)
    requires s.calls[id].Waiting? && !s.calls[id].force && s.now >= s.cache.expiresAt
    ensures var kid := s.calls[id].kid;
            Ends(s, id, kid, J.Execute(cfg, s, ExpiredSteps(cfg.settings, s.cache, id, kid, s.now, first, second)),
                 ExpiredOutcome(cfg.settings, s.cache, kid, s.now, first, second))
  {
    var kid := s.calls[id].kid;
    var refresh := RefreshSteps(cfg.settings, s.cache, id, false, s.now, first);
    var after := Refreshed(cfg.settings, s.cache, false, AttemptAt(s.now, first));
    var rest := if after.Ok? then LookUpSteps(cfg.settings, after.value, id, kid, s.now + first.elapsed, second)
        else [];
    RefreshAlone(cfg, s, id, first);
    ExecuteConcat(cfg, s, refresh, rest);
    var s1 := J.Execute(cfg, s, refresh).value;
    if after.Ok? {
      LookUpAlone(cfg, s1, id, second);
      SameRun(s, s1, id, kid, J.Execute(cfg, s1, rest),
              LookedUpFrom(cfg.settings, after.value, kid, AttemptAt(s.now + first.elapsed, second)));
    }
  }

  lemma EnterAlone(cfg: J.Config, s: J.State, id: nat, kid: string)
    requires id !in s.calls && s.lock.None?
    ensures Reaches(J.Execute(cfg, s, [J.Enter(id, kid), J.ReadClock(id), J.Compare(id)]), s.now, s.cache,
                    s.calls[id := if s.now >= s.cache.expiresAt then J.Waiting(kid, s.now, false)
                            else J.LookingUp(kid, s.now, false)])
  {
    var s1 := J.Become(s, id, J.Entering(kid));
    var s2 := J.Become(s, id, J.Comparing(kid, s.now));
    CacheStep(cfg, s, J.Enter(id, kid), [J.ReadClock(id), J.Compare(id)]);
    CacheStep(cfg, s1, J.ReadClock(id), [J.Compare(id)]);
    assert J.Apply(cfg, s1, J.ReadClock(id)) == s2;
    CacheStep(cfg, s2, J.Compare(id), []);
    assert [J.Compare(id)] + [] == [J.Compare(id)];
  }

  // -------------------------------------------------------------------------------------- one validation

  /** The method `Validate` returns what `RemoteVerdict` says of that run, and leaves its cache. */
  lemma ValidateAlone(cfg: J.Config, s: J.State, id: nat, t: Token, wall: int, first: Reply, second: Reply)
    requires id !in s.calls && s.lock.None? && J.Answers(cfg, first.fetch) && J.Answers(cfg, second.fetch)
    requires HeaderKid(t).Ok?
    ensures var run := J.Execute(cfg, s,
                                 KeyForSteps(cfg.settings, s.cache, id, HeaderKid(t).value, s.now, first, second));
            && run.Some? && id in run.value.calls && J.HasEnded(run.value.calls[id])
            && Validated(cfg.settings, s.cache, t, s.now, wall, AttemptAt(s.now, first),
                         SecondAttempt(s.cache, s.now, first, second))
               == (run.value.cache, Parity.RemoteVerdict(cfg.settings, t, run.value.calls[id], wall))
  {
    KeyForAlone(cfg, s, id, HeaderKid(t).value, first, second);
  }

  /** So the agreement of the two verifiers is one of the method itself: with the authorization server
    * publishing its one key, from any reachable state in which nobody holds the lock, `Validate` accepts
    * a token exactly when the local verifier does and no fetch it needed failed, with the same claims. */
  lemma ValidateAgreesWithLocal(cfg: J.Config, s: J.State, id: nat, t: Token, wall: int, first: Reply, second: Reply)
    requires J.Reachable(cfg, s) && cfg.serving.Some? && cfg.serving.value.kid != ""
    requires id !in s.calls && s.lock.None? && J.Answers(cfg, first.fetch) && J.Answers(cfg, second.fetch)
    ensures var (after, remote) := Validated(cfg.settings, s.cache, t, s.now, wall, AttemptAt(s.now, first),
                                             SecondAttempt(s.cache, s.now, first, second));
            var local := Verify(t, cfg.settings.issuer, cfg.serving.value, Some(cfg.settings.audience), wall);
            && (remote.Ok? ==> remote == local)
            && (local.Ok? && remote.Err? ==> Fails(cfg.settings, AttemptAt(s.now, first), remote.failure)
                                             || Fails(cfg.settings, SecondAttempt(s.cache, s.now, first, second),
                                                      remote.failure))
  {
    if HeaderKid(t).Ok? {
      ValidateAlone(cfg, s, id, t, wall, first, second);
      var steps := KeyForSteps(cfg.settings, s.cache, id, HeaderKid(t).value, s.now, first, second);
      KeyForAlone(cfg, s, id, HeaderKid(t).value, first, second);
      StillReachable(cfg, s, steps);
      EndedCallAgrees(cfg, J.Execute(cfg, s, steps).value, id, t, wall);
      LookUpMeans(cfg.settings, s.cache, HeaderKid(t).value, s.now, AttemptAt(s.now, first),
                  SecondAttempt(s.cache, s.now, first, second));
    } else {
      Parity.OtherKidsAreRefused(t, cfg.settings.issuer, cfg.serving.value, Some(cfg.settings.audience), wall);
    }
  }

  lemma EndedCallAgrees(cfg: J.Config, s: J.State, id: nat, t: Token, wall: int)
    requires J.Reachable(cfg, s) && cfg.serving.Some? && cfg.serving.value.kid != ""
    requires id in s.calls && J.HasEnded(s.calls[id]) && HeaderKid(t) == Ok(s.calls[id].kid)
    ensures var remote := Parity.RemoteVerdict(cfg.settings, t, s.calls[id], wall);
            var local := Verify(t, cfg.settings.issuer, cfg.serving.value, Some(cfg.settings.audience), wall);
            && (remote.Ok? ==> remote == local)
            && (local.Ok? && remote.Err?
                ==> J.Verdict(s.calls[id]) == Err(remote.failure) && remote.failure != UNKNOWN_KEY)
  {
    Parity.VerifiersAgree(cfg, s, id, t, wall);
    J.ReachableStatesHaveInv(cfg, s);
    assert J.CallOk(cfg, s.now, s.fetchedAt, s.calls[id]);
  }

  lemma StillReachable(cfg: J.Config, s: J.State, steps: seq<J.Step>)
    requires J.Reachable(cfg, s) && J.Execute(cfg, s, steps).Some?
    ensures J.Reachable(cfg, J.Execute(cfg, s, steps).value)
  {
    var start, before :| J.Initial(start) && J.Execute(cfg, start, before) == Some(s);
    ExecuteConcat(cfg, start, before, steps);
  }
}
