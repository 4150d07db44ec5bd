/** The key cache under concurrency: readers take no lock, one writer at a time holds it, and every read
  * or write of a field is a step of its own. */
module JwksConcurrency {
  import opened Outcomes
  import opened Tokens
  import opened Jwks

  /** `serving`: the authorization server publishes this one key, whenever it answers at all. Without it
    * nothing is assumed about the answers. */
  datatype Config = Config(settings: Jwks.Settings, serving: Option<SigningKey>)

  /** Where a call of `_key_for` stands. `clock` is the reading its expiry check uses. */
  datatype Call =
    | Entering(kid: string)
    | Comparing(kid: string, clock: int)
    | Waiting(kid: string, clock: int, force: bool)
    | Holding(kid: string, clock: int, force: bool)
    | Fetching(kid: string, clock: int, force: bool, since: int)
    | Storing(kid: string, clock: int, force: bool, keys: KeySet, fetchedAt: int)
    | KeysStored(kid: string, clock: int, force: bool, fetchedAt: int)
    | ExpiryStored(kid: string, clock: int, force: bool, fetchedAt: int)
    | LookingUp(kid: string, clock: int, forced: bool)
    | Found(kid: string, clock: int, jwk: Jwk, fetchedAt: int)
    | Unpublished(kid: string)
    | Broken(kid: string, failure: Failure)

  predicate HasEnded(c: Call) {
    c.Found? || c.Unpublished? || c.Broken?
  }

  /** What a call that has ended returned. */
  function Verdict(c: Call): Result<Jwk>
    requires HasEnded(c)
  {
    match c
    case Found(_, _, jwk, _) => Ok(jwk)
    case Unpublished(_) => Err(UNKNOWN_KEY)
    case Broken(_, failure) => Err(failure)
  }

  /** `fetchedAt`, `successes`, `snapshots` and `received` are history: when the cached keys, and all keys so
    * far, were fetched, and every usable key set and every answer received, with its moment. */
  datatype State = State(
    now: int,
    cache: Cache,
    fetchedAt: Option<int>,
    lock: Option<nat>,
    calls: map<nat, Call>,
    successes: seq<int>,
    snapshots: set<(int, KeySet)>,
    received: set<(int, Fetch)>)

  datatype Step =
    | Tick(elapsed: nat)
    | Enter(id: nat, kid: string)
    | ReadClock(id: nat)
    | Compare(id: nat)
    | Acquire(id: nat)
    | Decide(id: nat)
    | Receive(id: nat, fetch: Fetch)
    | StoreKeys(id: nat)
    | StoreExpiry(id: nat)
    | StoreLimit(id: nat)
    | LookUp(id: nat)

  /** The answer is one the authorization server can give. */
  predicate Answers(cfg: Config, f: Fetch) {
    cfg.serving.Some? && f.Fetched? ==>
      f.jwksUri.Str? && f == Served(cfg.settings.issuer, f.jwksUri.s, cfg.serving.value)
  }

  predicate Enabled(cfg: Config, s: State, step: Step) {
    match step
    case Tick(_) => true
    case Enter(id, _) => id !in s.calls
    case ReadClock(id) => id in s.calls && s.calls[id].Entering?
    case Compare(id) => id in s.calls && s.calls[id].Comparing?
    case Acquire(id) => id in s.calls && s.calls[id].Waiting? && s.lock.None?
    case Decide(id) => id in s.calls && s.calls[id].Holding?
    case Receive(id, fetch) => id in s.calls && s.calls[id].Fetching? && Answers(cfg, fetch)
    case StoreKeys(id) => id in s.calls && s.calls[id].Storing?
    case StoreExpiry(id) => id in s.calls && s.calls[id].KeysStored?
    case StoreLimit(id) => id in s.calls && s.calls[id].ExpiryStored?
    case LookUp(id) => id in s.calls && s.calls[id].LookingUp?
  }

  function Become(s: State, id: nat, c: Call): State {
    s.(calls := s.calls[id := c])
  }

  function Apply(cfg: Config, s: State, step: Step): State
    requires Enabled(cfg, s, step)
  {
    match step
    case Tick(elapsed) => s.(now := s.now + elapsed)
    case Enter(id, kid) => Become(s, id, Entering(kid))
    case ReadClock(id) => Become(s, id, Comparing(s.calls[id].kid, s.now))
    case Compare(id) =>
      var c := s.calls[id];
      if c.clock >= s.cache.expiresAt then Become(s, id, Waiting(c.kid, c.clock, false))
      else Become(s, id, LookingUp(c.kid, c.clock, false))
    case Acquire(id) =>
      var c := s.calls[id];
      Become(s, id, Holding(c.kid, c.clock, c.force)).(lock := Some(id))
    case Decide(id) =>
      var c := s.calls[id];
      if ShouldFetch(s.cache, c.force, s.now) then Become(s, id, Fetching(c.kid, c.clock, c.force, s.now))
      else Become(s, id, LookingUp(c.kid, c.clock, c.force)).(lock := None)
    case Receive(id, fetch) =>
      var c := s.calls[id];
      (match UsableKeys(fetch, cfg.settings.issuer)
       case Ok(keys) =>
         Become(s, id, Storing(c.kid, c.clock, c.force, keys, s.now)).(
         snapshots := s.snapshots + {(s.now, keys)}, received := s.received + {(s.now, fetch)})
       case Err(f) => Become(s, id, Broken(c.kid, f)).(lock := None, received := s.received + {(s.now, fetch)}))
    case StoreKeys(id) =>
      var c := s.calls[id];
      Become(s, id, KeysStored(c.kid, c.clock, c.force, c.fetchedAt)).(
      cache := s.cache.(keys := c.keys), fetchedAt := Some(c.fetchedAt), successes := s.successes + [c.fetchedAt])
    case StoreExpiry(id) =>
      var c := s.calls[id];
      Become(s, id, ExpiryStored(c.kid, c.clock, c.force, c.fetchedAt)).(
      cache := s.cache.(expiresAt := c.fetchedAt + cfg.settings.ttl))
    case StoreLimit(id) =>
      var c := s.calls[id];
      Become(s, id, LookingUp(c.kid, c.clock, c.force)).(
      cache := s.cache.(nextForced := c.fetchedAt + cfg.settings.forcedInterval), lock := None)
    case LookUp(id) =>
      var c := s.calls[id];
      var fetchedAt := if s.fetchedAt.Some? then s.fetchedAt.value else 0;
      Become(s, id,
             if c.kid in s.cache.keys then Found(c.kid, c.clock, s.cache.keys[c.kid], fetchedAt)
             else if c.forced then Unpublished(c.kid)
             else Waiting(c.kid, c.clock, true))
  }

  /** A new verifier. The monotonic clock is never negative. */
  predicate Initial(s: State) {
    s.now >= 0 && s.cache == Cache(map[], 0, 0) && s.fetchedAt == None && s.lock == None && s.calls == map[]
      && s.successes == [] && s.snapshots == {} && s.received == {}
  }

  function Execute(cfg: Config, s: State, steps: seq<Step>): Option<State>
    decreases |steps|
  {
    if steps == [] then Some(s)
    else if Enabled(cfg, s, steps[0]) then Execute(cfg, Apply(cfg, s, steps[0]), steps[1..])
    else None
  }

  ghost predicate Reachable(cfg: Config, s: State) {
    exists start, steps :: Initial(start) && Execute(cfg, start, steps) == Some(s)
  }

  // --------------------------------------------------------------------------------------- invariant

  /** Keys fetched at that moment are younger than the cache lifetime at the clock reading, or were
    * fetched after it. */
  predicate Fresh(st: Jwks.Settings, clock: int, fetchedAt: int) {
    clock < fetchedAt + st.ttl || clock <= fetchedAt
  }

  function Gap(st: Jwks.Settings): int {
    if st.ttl < st.forcedInterval then st.ttl else st.forcedInterval
  }

  predicate Inside(c: Call) {
    c.Holding? || c.Fetching? || c.Storing? || c.KeysStored? || c.ExpiryStored?
  }

  predicate IsServed(cfg: Config, keys: KeySet) {
    cfg.serving.Some? ==> keys == map[cfg.serving.value.kid := PublicJwk(cfg.serving.value)]
  }

  /** What a call knows, against the time and the moment the cached keys were fetched. */
  ghost predicate CallOk(cfg: Config, now: int, fetchedAt: Option<int>, c: Call) {
    match c
    case Entering(_) => true
    case Comparing(_, clock) => 0 <= clock <= now
    case Waiting(_, clock, force) => 0 <= clock <= now
      && (force ==> fetchedAt.Some? && Fresh(cfg.settings, clock, fetchedAt.value))
    case Holding(_, clock, force) => 0 <= clock <= now
      && (force ==> fetchedAt.Some? && Fresh(cfg.settings, clock, fetchedAt.value))
    case Fetching(_, clock, _, since) => 0 <= clock <= since <= now
    case Storing(_, clock, _, keys, f) => 0 <= clock <= f <= now && IsServed(cfg, keys)
    case KeysStored(_, clock, _, f) => 0 <= clock <= f <= now
    case ExpiryStored(_, clock, _, f) => 0 <= clock <= f <= now
    case LookingUp(_, clock, _) => 0 <= clock <= now && fetchedAt.Some? && Fresh(cfg.settings, clock, fetchedAt.value)
    case Found(kid, clock, jwk, f) =>
      && Fresh(cfg.settings, clock, f)
      && (cfg.serving.Some? ==> kid == cfg.serving.value.kid && jwk == PublicJwk(cfg.serving.value))
    case Unpublished(kid) => cfg.serving.Some? ==> kid != cfg.serving.value.kid
    case Broken(_, failure) => failure != UNKNOWN_KEY
  }

  ghost predicate CallsOk(cfg: Config, now: int, fetchedAt: Option<int>, calls: map<nat, Call>) {
    forall id :: id in calls ==> CallOk(cfg, now, fetchedAt, calls[id])
  }

  ghost predicate LockOk(lock: Option<nat>, calls: map<nat, Call>) {
    && (forall id :: id in calls && Inside(calls[id]) ==> lock == Some(id))
    && (lock.Some? ==> lock.value in calls && Inside(calls[lock.value]))
  }

  /** The fields between two writers, before any success and after the last one. */
  ghost predicate Settled(st: Jwks.Settings, c: Cache, successes: seq<int>) {
    if successes == [] then c.keys == map[] && c.expiresAt == 0 && c.nextForced == 0
    else
      var last := successes[|successes| - 1];
      c.expiresAt == last + st.ttl && c.nextForced == last + st.forcedInterval
  }

  /** The cache as the holder of the lock, if any, has left it so far. */
  ghost predicate WriterOk(st: Jwks.Settings, c: Cache, successes: seq<int>, writer: Option<Call>) {
    match writer
    case None => Settled(st, c, successes)
    case Some(Fetching(_, _, _, since)) =>
      Settled(st, c, successes) && (successes != [] ==> since >= successes[|successes| - 1] + Gap(st))
    case Some(Storing(_, _, _, _, f)) =>
      Settled(st, c, successes)
        && (successes != [] ==> f >= successes[|successes| - 1] + Gap(st) && f >= successes[|successes| - 1])
    case Some(KeysStored(_, _, _, f)) =>
      && successes != [] && f == successes[|successes| - 1]
      && (if |successes| == 1 then c.expiresAt == 0 else c.expiresAt == successes[|successes| - 2] + st.ttl)
    case Some(ExpiryStored(_, _, _, f)) =>
      successes != [] && f == successes[|successes| - 1] && c.expiresAt == f + st.ttl
    case Some(_) => Settled(st, c, successes)
  }

  ghost predicate SuccessesOk(st: Jwks.Settings, now: int, fetchedAt: Option<int>, successes: seq<int>) {
    && (fetchedAt == if successes == [] then None else Some(successes[|successes| - 1]))
    && (forall k :: 0 <= k < |successes| ==> 0 <= successes[k] <= now)
    && (forall k ::
        0 < k < |successes| ==> successes[k - 1] <= successes[k] && successes[k - 1] + Gap(st) <= successes[k])
  }

  ghost predicate KeysOk(cfg: Config, c: Cache, successes: seq<int>) {
    if successes == [] then c.keys == map[] else IsServed(cfg, c.keys)
  }

  function Writer(s: State): Option<Call> {
    if s.lock.Some? && s.lock.value in s.calls then Some(s.calls[s.lock.value]) else None
  }

  ghost predicate Inv(cfg: Config, s: State) {
    && s.now >= 0
    && CallsOk(cfg, s.now, s.fetchedAt, s.calls)
    && LockOk(s.lock, s.calls)
    && WriterOk(cfg.settings, s.cache, s.successes, Writer(s))
    && SuccessesOk(cfg.settings, s.now, s.fetchedAt, s.successes)
    && KeysOk(cfg, s.cache, s.successes)
  }

  lemma InitHasInv(cfg: Config, s: State)
    requires Initial(s)
    ensures Inv(cfg, s)
  {
  }

  /** A passed expiry check means fresh keys are already in place: keys are stored before the expiry. */
  lemma PassedCheckIsFresh(cfg: Config, s: State, clock: int)
    requires Inv(cfg, s) && 0 <= clock < s.cache.expiresAt
    ensures s.fetchedAt.Some? && Fresh(cfg.settings, clock, s.fetchedAt.value)
  {
    var n := |s.successes|;
    if n > 1 {
      assert s.successes[n - 2] <= s.successes[n - 1];
    }
  }

  lemma TimePasses(cfg: Config, now: int, later: int, fetchedAt: Option<int>, calls: map<nat, Call>)
    requires CallsOk(cfg, now, fetchedAt, calls) && now <= later
    ensures CallsOk(cfg, later, fetchedAt, calls)
  {
    forall id | id in calls ensures CallOk(cfg, later, fetchedAt, calls[id]) {
      assert CallOk(cfg, now, fetchedAt, calls[id]);
    }
  }

  /** A step of a call that does not hold the lock before or after. */
  lemma ReaderStepKeepsInv(cfg: Config, s: State, id: nat, c: Call)
    requires Inv(cfg, s) && !Inside(c) && (id in s.calls ==> !Inside(s.calls[id]))
    requires CallOk(cfg, s.now, s.fetchedAt, c)
    ensures Inv(cfg, Become(s, id, c))
  {
  }

  lemma CompareKeepsInv(cfg: Config, s: State, id: nat)
    requires Inv(cfg, s) && Enabled(cfg, s, Compare(id))
    ensures Inv(cfg, Apply(cfg, s, Compare(id)))
  {
    var c := s.calls[id];
    assert CallOk(cfg, s.now, s.fetchedAt, c);
    if c.clock >= s.cache.expiresAt {
      ReaderStepKeepsInv(cfg, s, id, Waiting(c.kid, c.clock, false));
    } else {
      PassedCheckIsFresh(cfg, s, c.clock);
      ReaderStepKeepsInv(cfg, s, id, LookingUp(c.kid, c.clock, false));
    }
  }

  lemma LookUpKeepsInv(cfg: Config, s: State, id: nat)
    requires Inv(cfg, s) && Enabled(cfg, s, LookUp(id))
    ensures Inv(cfg, Apply(cfg, s, LookUp(id)))
  {
    assert CallOk(cfg, s.now, s.fetchedAt, s.calls[id]);
    ReaderStepKeepsInv(cfg, s, id, Apply(cfg, s, LookUp(id)).calls[id]);
  }

  /** A step of the lock holder that leaves the fields alone, and either keeps the lock or lets it go. */
  lemma HolderStepKeepsInv(cfg: Config, s: State, id: nat, c: Call, keep: bool)
    requires Inv(cfg, s) && id in s.calls && (s.lock == Some(id) || (s.lock.None? && keep))
    requires Inside(c) <==> keep
    requires CallOk(cfg, s.now, s.fetchedAt, c)
    requires WriterOk(cfg.settings, s.cache, s.successes, if keep then Some(c) else None)
    ensures Inv(cfg, Become(s, id, c).(lock := if keep then Some(id) else None))
  {
  }

  lemma AcquireKeepsInv(cfg: Config, s: State, id: nat)
    requires Inv(cfg, s) && Enabled(cfg, s, Acquire(id))
    ensures Inv(cfg, Apply(cfg, s, Acquire(id)))
  {
    var c := s.calls[id];
    assert CallOk(cfg, s.now, s.fetchedAt, c);
    HolderStepKeepsInv(cfg, s, id, Holding(c.kid, c.clock, c.force), true);
  }

  lemma DecideKeepsInv(cfg: Config, s: State, id: nat)
    requires Inv(cfg, s) && Enabled(cfg, s, Decide(id))
    ensures Inv(cfg, Apply(cfg, s, Decide(id)))
  {
    var c := s.calls[id];
    assert CallOk(cfg, s.now, s.fetchedAt, c) && s.lock == Some(id);
    if ShouldFetch(s.cache, c.force, s.now) {
      HolderStepKeepsInv(cfg, s, id, Fetching(c.kid, c.clock, c.force, s.now), true);
    } else {
      if !c.force { PassedCheckIsFresh(cfg, s, c.clock); }
      HolderStepKeepsInv(cfg, s, id, LookingUp(c.kid, c.clock, c.force), false);
    }
  }

  lemma ReceivedKeysAreServed(cfg: Config, fetch: Fetch)
    requires Answers(cfg, fetch) && UsableKeys(fetch, cfg.settings.issuer).Ok?
    ensures IsServed(cfg, UsableKeys(fetch, cfg.settings.issuer).value)
  {
    if cfg.serving.Some? {
      ServedKeysAreTheKey(cfg.settings.issuer, fetch.jwksUri.s, cfg.serving.value);
    }
  }

  lemma ReceiveKeepsInv(cfg: Config, s: State, id: nat, fetch: Fetch)
    requires Inv(cfg, s) && Enabled(cfg, s, Receive(id, fetch))
    ensures Inv(cfg, Apply(cfg, s, Receive(id, fetch)))
  {
    var c := s.calls[id];
    assert CallOk(cfg, s.now, s.fetchedAt, c) && s.lock == Some(id);
    match UsableKeys(fetch, cfg.settings.issuer)
    case Ok(keys) =>
      ReceivedKeysAreServed(cfg, fetch);
      HolderStepKeepsInv(cfg, s, id, Storing(c.kid, c.clock, c.force, keys, s.now), true);
    case Err(f) =>
      FetchFailuresDiffer(fetch, cfg.settings.issuer);
      HolderStepKeepsInv(cfg, s, id, Broken(c.kid, f), false);
  }

  lemma NewerKeysStayFresh(cfg: Config, now: int, before: Option<int>, fetchedAt: int, calls: map<nat, Call>)
    requires CallsOk(cfg, now, before, calls) && (before.Some? ==> before.value <= fetchedAt)
    ensures CallsOk(cfg, now, Some(fetchedAt), calls)
  {
    forall id | id in calls ensures CallOk(cfg, now, Some(fetchedAt), calls[id]) {
      assert CallOk(cfg, now, before, calls[id]);
    }
  }

  lemma SuccessAppends(st: Jwks.Settings, now: int, before: Option<int>, successes: seq<int>, f: int)
    requires SuccessesOk(st, now, before, successes) && 0 <= f <= now
    requires successes != [] ==> successes[|successes| - 1] + Gap(st) <= f && successes[|successes| - 1] <= f
    ensures SuccessesOk(st, now, Some(f), successes + [f])
  {
  }

  /** A step of the lock holder keeps the lock discipline. */
  lemma HolderKeepsLock(lock: Option<nat>, calls: map<nat, Call>, id: nat, c: Call)
    requires LockOk(lock, calls) && lock == Some(id) && id in calls
    ensures Inside(c) ==> LockOk(lock, calls[id := c])
    ensures !Inside(c) ==> LockOk(None, calls[id := c])
  {
  }

  lemma ReplaceCall(cfg: Config, now: int, fetchedAt: Option<int>, calls: map<nat, Call>, id: nat, c: Call)
    requires CallsOk(cfg, now, fetchedAt, calls) && CallOk(cfg, now, fetchedAt, c)
    ensures CallsOk(cfg, now, fetchedAt, calls[id := c])
  {
  }

  lemma StoreKeysKeepsInv(cfg: Config, s: State, id: nat)
    requires Inv(cfg, s) && Enabled(cfg, s, StoreKeys(id))
    ensures Inv(cfg, Apply(cfg, s, StoreKeys(id)))
  {
    var c := s.calls[id];
    var c' := KeysStored(c.kid, c.clock, c.force, c.fetchedAt);
    assert CallOk(cfg, s.now, s.fetchedAt, c) && s.lock == Some(id);
    SuccessAppends(cfg.settings, s.now, s.fetchedAt, s.successes, c.fetchedAt);
    NewerKeysStayFresh(cfg, s.now, s.fetchedAt, c.fetchedAt, s.calls);
    ReplaceCall(cfg, s.now, Some(c.fetchedAt), s.calls, id, c');
    HolderKeepsLock(s.lock, s.calls, id, c');
    StoredKeysWriter(cfg.settings, s.cache, s.successes, c, c.keys);
  }

  lemma StoredKeysWriter(st: Jwks.Settings, cache: Cache, successes: seq<int>, c: Call, keys: KeySet)
    requires c.Storing? && WriterOk(st, cache, successes, Some(c))
    ensures WriterOk(st, cache.(keys := keys), successes + [c.fetchedAt],
                     Some(KeysStored(c.kid, c.clock, c.force, c.fetchedAt)))
  {
  }

  lemma StoreExpiryKeepsInv(cfg: Config, s: State, id: nat)
    requires Inv(cfg, s) && Enabled(cfg, s, StoreExpiry(id))
    ensures Inv(cfg, Apply(cfg, s, StoreExpiry(id)))
  {
    var c := s.calls[id];
    assert CallOk(cfg, s.now, s.fetchedAt, c) && s.lock == Some(id);
    var c' := ExpiryStored(c.kid, c.clock, c.force, c.fetchedAt);
    ReplaceCall(cfg, s.now, s.fetchedAt, s.calls, id, c');
    HolderKeepsLock(s.lock, s.calls, id, c');
  }

  lemma StoreLimitKeepsInv(cfg: Config, s: State, id: nat)
    requires Inv(cfg, s) && Enabled(cfg, s, StoreLimit(id))
    ensures Inv(cfg, Apply(cfg, s, StoreLimit(id)))
  {
    var c := s.calls[id];
    assert CallOk(cfg, s.now, s.fetchedAt, c) && s.lock == Some(id);
    var c' := LookingUp(c.kid, c.clock, c.force);
    ReplaceCall(cfg, s.now, s.fetchedAt, s.calls, id, c');
    HolderKeepsLock(s.lock, s.calls, id, c');
  }

  lemma StepKeepsInv(cfg: Config, s: State, step: Step)
    requires Inv(cfg, s) && Enabled(cfg, s, step)
    ensures Inv(cfg, Apply(cfg, s, step))
  {
    match step
    case Tick(elapsed) => TimePasses(cfg, s.now, s.now + elapsed, s.fetchedAt, s.calls);
    case Enter(id, kid) => ReaderStepKeepsInv(cfg, s, id, Entering(kid));
    case ReadClock(id) => ReaderStepKeepsInv(cfg, s, id, Comparing(s.calls[id].kid, s.now));
    case Compare(id) => CompareKeepsInv(cfg, s, id);
    case Acquire(id) => AcquireKeepsInv(cfg, s, id);
    case Decide(id) => DecideKeepsInv(cfg, s, id);
    case Receive(id, fetch) => ReceiveKeepsInv(cfg, s, id, fetch);
    case StoreKeys(id) => StoreKeysKeepsInv(cfg, s, id);
    case StoreExpiry(id) => StoreExpiryKeepsInv(cfg, s, id);
    case StoreLimit(id) => StoreLimitKeepsInv(cfg, s, id);
    case LookUp(id) => LookUpKeepsInv(cfg, s, id);
  }

  lemma {:induction false} RunKeepsInv(cfg: Config, s: State, steps: seq<Step>)
    requires Inv(cfg, s) && Execute(cfg, s, steps).Some?
    ensures Inv(cfg, Execute(cfg, s, steps).value)
    decreases |steps|
  {
    if steps != [] {
      StepKeepsInv(cfg, s, steps[0]);
      RunKeepsInv(cfg, Apply(cfg, s, steps[0]), steps[1..]);
    }
  }

  lemma ReachableStatesHaveInv(cfg: Config, s: State)
    requires Reachable(cfg, s)
    ensures Inv(cfg, s)
  {
    var start, steps :| Initial(start) && Execute(cfg, start, steps) == Some(s);
    InitHasInv(cfg, start);
    RunKeepsInv(cfg, start, steps);
  }

  // -------------------------------------------------------------------- where a returned key comes from

  ghost predicate FromSnapshot(snapshots: set<(int, KeySet)>, fetchedAt: int, kid: string, jwk: Jwk) {
    exists keys :: (fetchedAt, keys) in snapshots && kid in keys && keys[kid] == jwk
  }

  /** Cached keys, keys about to be stored and returned keys are of a snapshot taken at that moment. */
  ghost predicate SnapshotsOk(snapshots: set<(int, KeySet)>, keys: KeySet, fetchedAt: Option<int>,
                              calls: map<nat, Call>) {
    && (fetchedAt.Some? ==> (fetchedAt.value, keys) in snapshots)
    && (forall id :: id in calls && calls[id].Storing? ==> (calls[id].fetchedAt, calls[id].keys) in snapshots)
    && (forall id ::
        id in calls && calls[id].Found? ==> FromSnapshot(snapshots, calls[id].fetchedAt, calls[id].kid, calls[id].jwk))
  }

  lemma LookUpKeepsSnapshots(cfg: Config, s: State, id: nat)
    requires Inv(cfg, s) && SnapshotsOk(s.snapshots, s.cache.keys, s.fetchedAt, s.calls) && Enabled(cfg, s, LookUp(id))
    ensures SnapshotsOk(s.snapshots, s.cache.keys, s.fetchedAt, Apply(cfg, s, LookUp(id)).calls)
  {
    assert CallOk(cfg, s.now, s.fetchedAt, s.calls[id]);
    assert s.calls[id].kid in s.cache.keys
           ==> FromSnapshot(s.snapshots, s.fetchedAt.value, s.calls[id].kid, s.cache.keys[s.calls[id].kid]);
  }

  lemma StoreKeepsSnapshots(cfg: Config, s: State, step: Step)
    requires SnapshotsOk(s.snapshots, s.cache.keys, s.fetchedAt, s.calls) && Enabled(cfg, s, step)
    requires step.StoreKeys? || step.StoreExpiry? || step.StoreLimit?
    ensures var s' := Apply(cfg, s, step); SnapshotsOk(s'.snapshots, s'.cache.keys, s'.fetchedAt, s'.calls)
  {
  }

  /** A step after which the call neither holds new keys nor returns any. */
  lemma QuietStepKeepsSnapshots(snapshots: set<(int, KeySet)>, keys: KeySet, fetchedAt: Option<int>,
                                calls: map<nat, Call>, id: nat, c: Call)
    requires SnapshotsOk(snapshots, keys, fetchedAt, calls) && !c.Storing? && !c.Found?
    ensures SnapshotsOk(snapshots, keys, fetchedAt, calls[id := c])
  {
  }

  lemma StepKeepsSnapshots(cfg: Config, s: State, step: Step)
    requires Inv(cfg, s) && SnapshotsOk(s.snapshots, s.cache.keys, s.fetchedAt, s.calls) && Enabled(cfg, s, step)
    ensures var s' := Apply(cfg, s, step); SnapshotsOk(s'.snapshots, s'.cache.keys, s'.fetchedAt, s'.calls)
  {
    var s' := Apply(cfg, s, step);
    match step
    case Tick(_) =>
    case LookUp(id) => LookUpKeepsSnapshots(cfg, s, id);
    case Receive(id, fetch) => SnapshotsGrow(s.snapshots, s'.snapshots, s.cache.keys, s.fetchedAt, s.calls);
    case StoreKeys(_) => StoreKeepsSnapshots(cfg, s, step);
    case StoreExpiry(_) => StoreKeepsSnapshots(cfg, s, step);
    case StoreLimit(_) => StoreKeepsSnapshots(cfg, s, step);
    case _ => QuietStepKeepsSnapshots(s.snapshots, s.cache.keys, s.fetchedAt, s.calls, step.id, s'.calls[step.id]);
  }

  lemma SnapshotsGrow(before: set<(int, KeySet)>, after: set<(int, KeySet)>, keys: KeySet, fetchedAt: Option<int>,
                      calls: map<nat, Call>)
    requires SnapshotsOk(before, keys, fetchedAt, calls) && before <= after
    ensures SnapshotsOk(after, keys, fetchedAt, calls)
  {
    forall id | id in calls && calls[id].Found?
      ensures FromSnapshot(after, calls[id].fetchedAt, calls[id].kid, calls[id].jwk)
    {
      assert FromSnapshot(before, calls[id].fetchedAt, calls[id].kid, calls[id].jwk);
    }
  }

  /** Every key set was in an answer received at that moment. */
  ghost predicate WasReceived(received: set<(int, Fetch)>, issuer: string, at: int, keys: KeySet) {
    exists f :: (at, f) in received && UsableKeys(f, issuer) == Ok(keys)
  }

  ghost predicate SnapshotsReceived(snapshots: set<(int, KeySet)>, received: set<(int, Fetch)>, issuer: string) {
    forall at, keys :: (at, keys) in snapshots ==> WasReceived(received, issuer, at, keys)
  }

  lemma StepKeepsReceived(cfg: Config, s: State, step: Step)
    requires SnapshotsReceived(s.snapshots, s.received, cfg.settings.issuer) && Enabled(cfg, s, step)
    ensures var s' := Apply(cfg, s, step); SnapshotsReceived(s'.snapshots, s'.received, cfg.settings.issuer)
  {
    if step.Receive? {
      AnswerKeepsReceived(s.snapshots, s.received, cfg.settings.issuer, s.now, step.fetch);
    }
  }

  lemma AnswerKeepsReceived(snapshots: set<(int, KeySet)>, received: set<(int, Fetch)>, issuer: string, now: int,
                            f: Fetch)
    requires SnapshotsReceived(snapshots, received, issuer)
    ensures SnapshotsReceived(snapshots, received + {(now, f)}, issuer)
    ensures UsableKeys(f, issuer).Ok? ==>
              SnapshotsReceived(snapshots + {(now, UsableKeys(f, issuer).value)}, received + {(now, f)}, issuer)
  {
    forall at, keys | (at, keys) in snapshots ensures WasReceived(received + {(now, f)}, issuer, at, keys) {
      assert WasReceived(received, issuer, at, keys);
    }
    if UsableKeys(f, issuer).Ok? {
      assert WasReceived(received + {(now, f)}, issuer, now, UsableKeys(f, issuer).value);
    }
  }

  lemma {:induction false} RunKeepsReceived(cfg: Config, s: State, steps: seq<Step>)
    requires SnapshotsReceived(s.snapshots, s.received, cfg.settings.issuer) && Execute(cfg, s, steps).Some?
    ensures var s' := Execute(cfg, s, steps).value; SnapshotsReceived(s'.snapshots, s'.received, cfg.settings.issuer)
    decreases |steps|
  {
    if steps != [] {
      StepKeepsReceived(cfg, s, steps[0]);
      RunKeepsReceived(cfg, Apply(cfg, s, steps[0]), steps[1..]);
    }
  }

  lemma {:induction false} RunKeepsSnapshots(cfg: Config, s: State, steps: seq<Step>)
    requires Inv(cfg, s) && SnapshotsOk(s.snapshots, s.cache.keys, s.fetchedAt, s.calls) && Execute(cfg, s, steps).Some?
    ensures var s' := Execute(cfg, s, steps).value; SnapshotsOk(s'.snapshots, s'.cache.keys, s'.fetchedAt, s'.calls)
    decreases |steps|
  {
    if steps != [] {
      StepKeepsInv(cfg, s, steps[0]);
      StepKeepsSnapshots(cfg, s, steps[0]);
      RunKeepsSnapshots(cfg, Apply(cfg, s, steps[0]), steps[1..]);
    }
  }

  // ----------------------------------------------------------------------------------------- theorems

  /** An answer received at that moment, from the configured issuer, publishes the key under that name. */
  ghost predicate WasPublished(received: set<(int, Fetch)>, issuer: string, at: int, kid: string, jwk: Jwk) {
    exists f :: (at, f) in received && Publishes(f, issuer, kid, jwk)
  }

  lemma ReachableSnapshots(cfg: Config, s: State)
    requires Reachable(cfg, s)
    ensures SnapshotsOk(s.snapshots, s.cache.keys, s.fetchedAt, s.calls)
    ensures SnapshotsReceived(s.snapshots, s.received, cfg.settings.issuer)
  {
    var start, steps :| Initial(start) && Execute(cfg, start, steps) == Some(s);
    RunKeepsSnapshots(cfg, start, steps);
    RunKeepsReceived(cfg, start, steps);
  }

  lemma ReceivedSnapshotPublishes(s: State, issuer: string, at: int, kid: string, jwk: Jwk)
    requires SnapshotsReceived(s.snapshots, s.received, issuer) && FromSnapshot(s.snapshots, at, kid, jwk)
    ensures WasPublished(s.received, issuer, at, kid, jwk)
  {
    var keys :| (at, keys) in s.snapshots && kid in keys && keys[kid] == jwk;
    assert WasReceived(s.received, issuer, at, keys);
    var f :| (at, f) in s.received && UsableKeys(f, issuer) == Ok(keys);
    FetchYieldsWhatItPublishes(f, issuer, kid, jwk);
  }

  /** Any key a call returns is of a key set fetched from the configured issuer less than the cache
    * lifetime before the call read the clock, or after it: for every interleaving of lock-free readers
    * with the writer, whatever is published. */
  lemma ReturnedKeysAreFresh(cfg: Config, s: State, id: nat)
    requires Reachable(cfg, s) && id in s.calls && s.calls[id].Found?
    ensures var c := s.calls[id];
            && FromSnapshot(s.snapshots, c.fetchedAt, c.kid, c.jwk)
            && WasPublished(s.received, cfg.settings.issuer, c.fetchedAt, c.kid, c.jwk)
            && (c.clock < c.fetchedAt + cfg.settings.ttl || c.clock <= c.fetchedAt)
  {
    var c := s.calls[id];
    ReachableSnapshots(cfg, s);
    ReceivedSnapshotPublishes(s, cfg.settings.issuer, c.fetchedAt, c.kid, c.jwk);
    ReachableStatesHaveInv(cfg, s);
    assert CallOk(cfg, s.now, s.fetchedAt, s.calls[id]);
  }

  /** The refresh limiter: whatever key names callers send, successful fetches number `i` and `k` lie at
    * least `k - i` times the smaller of the two intervals apart. */
  lemma {:induction false} SuccessesAreSpaced(cfg: Config, s: State, i: nat, k: nat)
    requires Reachable(cfg, s) && i <= k < |s.successes|
    ensures s.successes[k] - s.successes[i] >= (k - i) * Gap(cfg.settings)
    decreases k
  {
    ReachableStatesHaveInv(cfg, s);
    if i < k {
      SuccessesAreSpaced(cfg, s, i, k - 1);
      assert (k - i) * Gap(cfg.settings) == (k - 1 - i) * Gap(cfg.settings) + Gap(cfg.settings);
    }
  }

  /** Hence a window of length `w` holds at most `1 + w / gap` of them. */
  lemma SuccessesInWindow(cfg: Config, s: State, i: nat, k: nat, w: nat)
    requires Reachable(cfg, s) && i <= k < |s.successes| && Gap(cfg.settings) > 0
    requires s.successes[k] - s.successes[i] <= w
    ensures k - i + 1 <= 1 + w / Gap(cfg.settings)
  {
    SuccessesAreSpaced(cfg, s, i, k);
    AtMostQuotient(k - i, Gap(cfg.settings), w);
  }

  lemma NegativeFactor(x: int, gap: int)
    requires gap > 0 && x * gap < 0
    ensures x < 0
  {
  }

  lemma AtMostQuotient(n: nat, gap: int, w: nat)
    requires gap > 0 && n * gap <= w
    ensures n <= w / gap
  {
    var q := w / gap;
    assert w < q * gap + gap;
    assert (n - q - 1) * gap == n * gap - q * gap - gap;
    NegativeFactor(n - q - 1, gap);
  }
}
