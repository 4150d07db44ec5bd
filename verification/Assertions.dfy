/** `private_key_jwt` client assertions (sections 2.2 and 3 of RFC 7523) and their replay table. */
module Assertions {
  import opened Outcomes
  import opened Json
  import opened Tokens
  import opened Repositories

  const MAXIMUM_LIFETIME := 300 * SECOND

  const ASSERTION_CLAIMS: set<Name> := {ISS, SUB, AUD, EXP, JTI}

  datatype Endpoint = Endpoint(issuer: string, tokenEndpoint: string)

  /** (client, kid) to the registered public key. */
  type KeyTable = map<(string, string), Key>

  /** What remains of an assertion that passed every check but the replay table. */
  datatype Checked = Checked(jti: string, exp: int)

  predicate NamesThisServer(aud: Value, e: Endpoint) {
    match aud
    case List(items) => Str(e.issuer) in items || Str(e.tokenEndpoint) in items
    case v => v == Str(e.issuer) || v == Str(e.tokenEndpoint)
  }

  /** Python can put the audience in a set: a member of a list, or a single value, that is a list or an
    * object cannot be hashed. */
  predicate Hashable(aud: Value) {
    match aud
    case List(items) => forall i :: 0 <= i < |items| ==> !items[i].List? && !items[i].Object?
    case Object(_) => false
    case _ => true
  }

  predicate IsIssuedBy(claims: Claims, client: string) {
    Get(claims, ISS) == Str(client) && Get(claims, SUB) == Str(client)
  }

  predicate ClaimsAcceptable(claims: Claims, client: string, e: Endpoint, now: int) {
    && IsIssuedBy(claims, client)
    && Hashable(Get(claims, AUD)) && NamesThisServer(Get(claims, AUD), e)
    && Get(claims, EXP).Int?
    && Get(claims, EXP).n * SECOND - now <= MAXIMUM_LIFETIME
  }

  /** `verify` up to the replay table. A client with no registered key of that name, known or not,
    * is refused. An audience that cannot be hashed raises an exception instead. */
  function Check(t: Token, client: string, keys: KeyTable, e: Endpoint, now: int): Result<Checked> {
    var _ :- Need(t.Jwt? && Get(t.header, ALG) == Str(ALGORITHM) && IsNonEmptyText(Get(t.header, KID)), INVALID_CLIENT);
    var kid := Get(t.header, KID).s;
    var _ :- Need((client, kid) in keys, INVALID_CLIENT);
    var _ :- Need(Decodes(t, keys[(client, kid)], ASSERTION_CLAIMS, None, None, now), INVALID_CLIENT);
    var _ :- Need(IsIssuedBy(t.payload, client), INVALID_CLIENT);
    var _ :- Need(Hashable(Get(t.payload, AUD)), Unhandled);
    var _ :- Need(ClaimsAcceptable(t.payload, client, e, now) && Get(t.payload, JTI).Str?, INVALID_CLIENT);
    Ok(Checked(Get(t.payload, JTI).s, Get(t.payload, EXP).n * SECOND))
  }

  // --------------------------------------------------------------------------- what an assertion must be

  /** The audience is this server's issuer or token endpoint, or a list of simple values with one of the
    * two among them. */
  ghost predicate IsAddressedTo(aud: Value, e: Endpoint) {
    || aud == Str(e.issuer) || aud == Str(e.tokenEndpoint)
    || (aud.List? && (forall v :: v in aud.items ==> !v.List? && !v.Object?)
        && exists i :: 0 <= i < |aud.items| && (aud.items[i] == Str(e.issuer) || aud.items[i] == Str(e.tokenEndpoint)))
  }

  /** A proof of this client, for this server, made for at most five minutes: signed with the key registered
    * to the client under the name in the header, naming the client as issuer and subject. */
  ghost predicate IsProofOf(t: Token, client: string, keys: KeyTable, e: Endpoint, now: int) {
    && t.Jwt? && Get(t.header, ALG) == Str("ES256") && IsNonEmptyText(Get(t.header, KID))
    && (client, Get(t.header, KID).s) in keys && t.signer == keys[(client, Get(t.header, KID).s)]
    && Get(t.payload, ISS) == Str(client) && Get(t.payload, SUB) == Str(client)
    && IsAddressedTo(Get(t.payload, AUD), e)
    && Get(t.payload, JTI).Str?
    && Get(t.payload, EXP).Int? && now < Get(t.payload, EXP).n * SECOND <= now + 300 * SECOND
    && (IAT in t.payload ==> t.payload[IAT].Int? && t.payload[IAT].n * SECOND <= now)
    && (NBF in t.payload ==> t.payload[NBF].Int? && t.payload[NBF].n * SECOND <= now)
  }

  lemma AddressIsChecked(aud: Value, e: Endpoint)
    ensures Hashable(aud) && NamesThisServer(aud, e) <==> IsAddressedTo(aud, e)
  {
  }

  lemma ProofDecodes(t: Token, key: Key, now: int)
    requires t.Jwt? && Get(t.header, ALG) == Str("ES256")
    ensures Decodes(t, key, ASSERTION_CLAIMS, None, None, now) <==>
              && t.signer == key
              && Get(t.payload, ISS) != Null && Get(t.payload, SUB).Str? && Get(t.payload, AUD) != Null
              && Get(t.payload, JTI).Str?
              && Get(t.payload, EXP).Int? && now < Get(t.payload, EXP).n * SECOND
              && (IAT in t.payload ==> t.payload[IAT].Int? && t.payload[IAT].n * SECOND <= now)
              && (NBF in t.payload ==> t.payload[NBF].Int? && t.payload[NBF].n * SECOND <= now)
  {
    assert forall name :: name in ASSERTION_CLAIMS <==> name in [ISS, SUB, AUD, EXP, JTI];
  }

  /** The checks pass exactly for such a proof, and what they pass on is its identifier and expiry. */
  lemma ChecksPassExactlyWhen(t: Token, client: string, keys: KeyTable, e: Endpoint, now: int)
    ensures var c := Check(t, client, keys, e, now);
            && (c.Ok? <==> IsProofOf(t, client, keys, e, now))
            && (c.Ok? ==> c.value == Checked(Get(t.payload, JTI).s, Get(t.payload, EXP).n * SECOND))
  {
    if t.Jwt? {
      AddressIsChecked(Get(t.payload, AUD), e);
      if Get(t.header, ALG) == Str("ES256") && IsNonEmptyText(Get(t.header, KID))
        && (client, Get(t.header, KID).s) in keys {
        ProofDecodes(t, keys[(client, Get(t.header, KID).s)], now);
      }
    }
  }

  class PrivateKeyJwt {
    const endpoint: Endpoint
    const replays: AssertionReplayRepository

    constructor (endpoint: Endpoint, replays: AssertionReplayRepository)
      ensures this.endpoint == endpoint && this.replays == replays
    {
      this.endpoint := endpoint;
      this.replays := replays;
    }

    /** `verify` undisturbed: true exactly when the assertion is a proof of this client for this server and
      * its identifier has no row yet for this client; only then is a row written, with its expiry. */
    method Verify(assertion: Token, client: string, keys: KeyTable, now: int) returns (r: Result<bool>)
      modifies replays
      ensures r == Ok(true) <==>
                && IsProofOf(assertion, client, keys, endpoint, now)
                && (client, Get(assertion.payload, JTI).s) !in old(replays.rows)
      ensures replays.rows
           == if r == Ok(true)
              then old(replays.rows)[(client, Get(assertion.payload, JTI).s) := Get(assertion.payload, EXP).n * SECOND]
              else old(replays.rows)
      ensures r.Err? <==> Check(assertion, client, keys, endpoint, now) == Err(Unhandled)
    {
      ChecksPassExactlyWhen(assertion, client, keys, endpoint, now);
      var c := Check(assertion, client, keys, endpoint, now);
      match c
      case Ok(checked) =>
        var first := replays.Claim(client, checked.jti, checked.exp);
        return Ok(first);
      case Err(failure) =>
        return if failure == INVALID_CLIENT then Ok(false) else Err(failure);
    }
  }

  /** When the checks raise: for an assertion that is otherwise genuine, exactly when its audience cannot
    * be hashed, even if this server is named beside. */
  lemma RaisesExactlyWhen(t: Token, client: string, keys: KeyTable, e: Endpoint, now: int)
    ensures Check(t, client, keys, e, now) == Err(Unhandled) <==>
              && t.Jwt? && Get(t.header, ALG) == Str(ALGORITHM) && IsNonEmptyText(Get(t.header, KID))
              && (client, Get(t.header, KID).s) in keys
              && Decodes(t, keys[(client, Get(t.header, KID).s)], ASSERTION_CLAIMS, None, None, now)
              && IsIssuedBy(t.payload, client) && !Hashable(Get(t.payload, AUD))
  {
  }

  // ------------------------------------------------------------------------- many requests, one table

  /** A request between its checks and its claim. */
  datatype Pending = Pending(assertion: Token, checked: Checked, checkedAt: int)

  datatype Event =
    | Accepted(client: string, jti: string, exp: int, at: int, assertion: Token, checkedAt: int)
    | Purged(at: int)

  /** `registered` and `log` are history: every key ever registered, and what happened, in order. */
  datatype State = State(
    keys: KeyTable,
    registered: set<(string, string, Key)>,
    rows: ReplayTable,
    clock: int,
    pending: map<(string, nat), Pending>,
    log: seq<Event>)

  datatype Step =
    | Tick(elapsed: nat)
    | Purge
    | AddKey(client: string, kid: string, key: Key)
    | Present(client: string, n: nat, assertion: Token)
    | Claim(client: string, n: nat)
    | Crash(client: string, n: nat)

  /** The client of a request is the one its assertion names as subject. */
  predicate Enabled(s: State, step: Step) {
    match step
    case Present(client, n, assertion) =>
      (client, n) !in s.pending && assertion.Jwt? && client != "" && Get(assertion.payload, SUB) == Str(client)
    case Claim(client, n) => (client, n) in s.pending
    case Crash(client, n) => (client, n) in s.pending
    case _ => true
  }

  function Claimed(s: State, client: string, n: nat): State
    requires (client, n) in s.pending
  {
    var p := s.pending[(client, n)];
    var s1 := s.(pending := s.pending - {(client, n)});
    if (client, p.checked.jti) in s.rows then s1
    else s1.(
      rows := s.rows[(client, p.checked.jti) := p.checked.exp],
      log := s.log + [Accepted(client, p.checked.jti, p.checked.exp, s.clock, p.assertion, p.checkedAt)])
  }

  function Apply(e: Endpoint, s: State, step: Step): State
    requires Enabled(s, step)
  {
    match step
    case Tick(elapsed) => s.(clock := s.clock + elapsed)
    case Purge => s.(rows := Unexpired(s.rows, s.clock), log := s.log + [Purged(s.clock)])
    case AddKey(client, kid, key) => s.(keys := s.keys[(client, kid) := key],
                                        registered := s.registered + {(client, kid, key)})
    case Present(client, n, assertion) =>
      (match Check(assertion, client, s.keys, e, s.clock)
       case Ok(c) => s.(pending := s.pending[(client, n) := Pending(assertion, c, s.clock)])
       case Err(_) => s)
    case Claim(client, n) => Claimed(s, client, n)
    case Crash(client, n) => s.(pending := s.pending - {(client, n)})
  }

  predicate Initial(s: State) {
    s.keys == map[] && s.registered == {} && s.rows == map[] && s.pending == map[] && s.log == []
  }

  function Execute(e: Endpoint, s: State, steps: seq<Step>): Option<State>
    decreases |steps|
  {
    if steps == [] then Some(s)
    else if Enabled(s, steps[0]) then Execute(e, Apply(e, s, steps[0]), steps[1..])
    else None
  }

  ghost predicate Reachable(e: Endpoint, s: State) {
    exists start, steps :: Initial(start) && Execute(e, start, steps) == Some(s)
  }

  // -------------------------------------------------------------------------------------- invariant

  ghost predicate AcceptedFor(ev: Event, client: string, jti: string) {
    ev.Accepted? && ev.client == client && ev.jti == jti
  }

  /** The acceptance at `i` has not been purged by the end of the log. */
  ghost predicate Outstanding(log: seq<Event>, i: int, client: string, jti: string) {
    && 0 <= i < |log| && AcceptedFor(log[i], client, jti)
    && forall m :: i < m < |log| && log[m].Purged? ==> log[m].at <= log[i].exp
  }

  ghost predicate HasOutstanding(log: seq<Event>, client: string, jti: string) {
    exists i :: Outstanding(log, i, client, jti)
  }

  /** A row is there exactly while an acceptance of its identifier is not purged, and holds its expiry. */
  ghost predicate RowsMatchLog(rows: ReplayTable, log: seq<Event>) {
    && (forall c, j {:trigger HasOutstanding(log, c, j)} :: (c, j) in rows <==> HasOutstanding(log, c, j))
    && (forall i, c, j {:trigger Outstanding(log, i, c, j)} ::
        Outstanding(log, i, c, j) ==> (c, j) in rows && rows[(c, j)] == log[i].exp)
  }

  /** Every acceptance was of an identifier with none outstanding. */
  ghost predicate FirstUses(log: seq<Event>) {
    forall k :: 0 <= k < |log| && log[k].Accepted? ==> !HasOutstanding(log[..k], log[k].client, log[k].jti)
  }

  ghost predicate InOrder(log: seq<Event>, clock: int) {
    && (forall k :: 0 <= k < |log| ==> log[k].at <= clock)
    && (forall i, k :: 0 <= i < k < |log| ==> log[i].at <= log[k].at)
  }

  /** The assertion passed every check at that moment: signed with a key registered to the client, with
    * issuer and subject the client, unexpired and no further than the maximum from expiry. */
  ghost predicate Vetted(registered: set<(string, string, Key)>, e: Endpoint, client: string, t: Token, c: Checked,
                         at: int) {
    && t.Jwt? && Get(t.header, KID).Str? && (client, Get(t.header, KID).s, t.signer) in registered
    && Get(t.payload, ISS) == Str(client) && Get(t.payload, SUB) == Str(client)
    && IsAddressedTo(Get(t.payload, AUD), e)
    && Get(t.payload, JTI) == Str(c.jti) && Get(t.payload, EXP).Int? && Get(t.payload, EXP).n * SECOND == c.exp
    && at < c.exp <= at + 300 * SECOND
  }

  ghost predicate PendingOk(e: Endpoint, s: State) {
    forall k :: k in s.pending ==>
      Vetted(s.registered, e, k.0, s.pending[k].assertion, s.pending[k].checked, s.pending[k].checkedAt)
        && s.pending[k].checkedAt <= s.clock
  }

  ghost predicate EventOk(registered: set<(string, string, Key)>, e: Endpoint, ev: Event) {
    ev.Accepted? ==>
      && Vetted(registered, e, ev.client, ev.assertion, Checked(ev.jti, ev.exp), ev.checkedAt)
      && ev.checkedAt <= ev.at
  }

  ghost predicate LogOk(registered: set<(string, string, Key)>, e: Endpoint, log: seq<Event>) {
    forall k :: 0 <= k < |log| ==> EventOk(registered, e, log[k])
  }

  ghost predicate KeysOk(keys: KeyTable, registered: set<(string, string, Key)>) {
    forall k :: k in keys ==> (k.0, k.1, keys[k]) in registered
  }

  ghost predicate Inv(e: Endpoint, s: State) {
    && KeysOk(s.keys, s.registered)
    && RowsMatchLog(s.rows, s.log) && FirstUses(s.log) && InOrder(s.log, s.clock)
    && PendingOk(e, s) && LogOk(s.registered, e, s.log)
  }

  lemma OutstandingAfterPurge(log: seq<Event>, at: int, i: int, client: string, jti: string)
    ensures Outstanding(log + [Purged(at)], i, client, jti) <==> Outstanding(log, i, client, jti) && at <= log[i].exp
  {
    var after := log + [Purged(at)];
    if Outstanding(log, i, client, jti) && at <= log[i].exp {
      assert forall m :: i < m < |after| && after[m].Purged? ==> m == |log| || (m < |log| && log[m].Purged?);
    }
    if Outstanding(after, i, client, jti) {
      assert after[|log|].Purged?;
      assert forall m :: i < m < |log| ==> log[m] == after[m];
    }
  }

  lemma PurgeKeepsRows(rows: ReplayTable, log: seq<Event>, at: int)
    requires RowsMatchLog(rows, log)
    ensures RowsMatchLog(Unexpired(rows, at), log + [Purged(at)])
  {
    var rows', after := Unexpired(rows, at), log + [Purged(at)];
    forall i, c, j | Outstanding(after, i, c, j)
      ensures (c, j) in rows' && rows'[(c, j)] == after[i].exp
    {
      OutstandingAfterPurge(log, at, i, c, j);
    }
    forall c, j
      ensures (c, j) in rows' <==> HasOutstanding(after, c, j)
    {
      if (c, j) in rows' {
        assert HasOutstanding(log, c, j);
        var i :| Outstanding(log, i, c, j);
        OutstandingAfterPurge(log, at, i, c, j);
      }
    }
  }

  lemma OutstandingAfterAccept(log: seq<Event>, ev: Event, i: int, client: string, jti: string)
    requires ev.Accepted?
    ensures Outstanding(log + [ev], i, client, jti)
       <==> Outstanding(log, i, client, jti) || (i == |log| && AcceptedFor(ev, client, jti))
  {
    var after := log + [ev];
    if Outstanding(after, i, client, jti) && i < |log| {
      assert forall m :: i < m < |log| ==> log[m] == after[m];
    }
    if Outstanding(log, i, client, jti) {
      assert forall m :: i < m < |after| && after[m].Purged? ==> m < |log| && log[m].Purged?;
    }
  }

  lemma AcceptKeepsRows(rows: ReplayTable, log: seq<Event>, ev: Event)
    requires RowsMatchLog(rows, log) && ev.Accepted? && (ev.client, ev.jti) !in rows
    ensures RowsMatchLog(rows[(ev.client, ev.jti) := ev.exp], log + [ev])
  {
    var rows', after := rows[(ev.client, ev.jti) := ev.exp], log + [ev];
    assert !HasOutstanding(log, ev.client, ev.jti);
    forall i, c, j | Outstanding(after, i, c, j)
      ensures (c, j) in rows' && rows'[(c, j)] == after[i].exp
    {
      OutstandingAfterAccept(log, ev, i, c, j);
      if Outstanding(log, i, c, j) {
        assert HasOutstanding(log, c, j);
      }
    }
    forall c, j
      ensures (c, j) in rows' <==> HasOutstanding(after, c, j)
    {
      if c == ev.client && j == ev.jti {
        OutstandingAfterAccept(log, ev, |log|, c, j);
      } else if (c, j) in rows' {
        assert HasOutstanding(log, c, j);
        var i :| Outstanding(log, i, c, j);
        OutstandingAfterAccept(log, ev, i, c, j);
      }
    }
  }

  lemma AppendKeepsFirstUses(log: seq<Event>, ev: Event)
    requires FirstUses(log) && (ev.Accepted? ==> !HasOutstanding(log, ev.client, ev.jti))
    ensures FirstUses(log + [ev])
  {
    var after := log + [ev];
    forall k | 0 <= k < |after| && after[k].Accepted?
      ensures !HasOutstanding(after[..k], after[k].client, after[k].jti)
    {
      assert after[..k] == log[..k] && log[..|log|] == log;
    }
  }

  lemma PresentKeepsInv(e: Endpoint, s: State, client: string, n: nat, assertion: Token)
    requires Inv(e, s) && Enabled(s, Present(client, n, assertion))
    ensures Inv(e, Apply(e, s, Present(client, n, assertion)))
  {
    var c := Check(assertion, client, s.keys, e, s.clock);
    if c.Ok? {
      CheckVets(assertion, client, s.keys, s.registered, e, s.clock);
      VettedCanWait(e, s, (client, n), Pending(assertion, c.value, s.clock));
    }
  }

  lemma VettedCanWait(e: Endpoint, s: State, k: (string, nat), p: Pending)
    requires PendingOk(e, s) && Vetted(s.registered, e, k.0, p.assertion, p.checked, p.checkedAt)
    requires p.checkedAt <= s.clock
    ensures PendingOk(e, s.(pending := s.pending[k := p]))
  {
  }

  lemma CheckVets(t: Token, client: string, keys: KeyTable, registered: set<(string, string, Key)>, e: Endpoint,
                  now: int)
    requires KeysOk(keys, registered) && Check(t, client, keys, e, now).Ok?
    ensures Vetted(registered, e, client, t, Check(t, client, keys, e, now).value, now)
  {
    ChecksPassExactlyWhen(t, client, keys, e, now);
  }

  lemma ClaimKeepsInv(e: Endpoint, s: State, client: string, n: nat)
    requires Inv(e, s) && Enabled(s, Claim(client, n))
    ensures Inv(e, Claimed(s, client, n))
  {
    var p := s.pending[(client, n)];
    if (client, p.checked.jti) !in s.rows {
      var ev := Accepted(client, p.checked.jti, p.checked.exp, s.clock, p.assertion, p.checkedAt);
      assert !HasOutstanding(s.log, client, p.checked.jti);
      AcceptKeepsRows(s.rows, s.log, ev);
      AppendKeepsFirstUses(s.log, ev);
    }
  }

  lemma StepKeepsInv(e: Endpoint, s: State, step: Step)
    requires Inv(e, s) && Enabled(s, step)
    ensures Inv(e, Apply(e, s, step))
  {
    match step
    case Present(client, n, assertion) => PresentKeepsInv(e, s, client, n, assertion);
    case Claim(client, n) => ClaimKeepsInv(e, s, client, n);
    case Purge =>
      PurgeKeepsRows(s.rows, s.log, s.clock);
      AppendKeepsFirstUses(s.log, Purged(s.clock));
    case _ =>
  }

  lemma {:induction false} RunKeepsInv(e: Endpoint, s: State, steps: seq<Step>)
    requires Inv(e, s) && Execute(e, s, steps).Some?
    ensures Inv(e, Execute(e, s, steps).value)
    decreases |steps|
  {
    if steps != [] {
      StepKeepsInv(e, s, steps[0]);
      RunKeepsInv(e, Apply(e, s, steps[0]), steps[1..]);
    }
  }

  lemma ReachableStatesHaveInv(e: Endpoint, s: State)
    requires Reachable(e, s)
    ensures Inv(e, s)
  {
    var start, steps :| Initial(start) && Execute(e, start, steps) == Some(s);
    RunKeepsInv(e, start, steps);
  }
}
