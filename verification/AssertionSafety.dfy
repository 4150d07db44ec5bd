/** What the replay table guarantees, and exactly where its guarantee ends. */
module AssertionSafety {
  import opened Outcomes
  import opened Json
  import opened Tokens
  import opened Assertions

  // -------------------------------------------------------------------------------------- single use

  /** A claim is accepted exactly when every earlier acceptance of its identifier, if any, was since
    * purged, which takes a purge later than that acceptance's expiry. */
  lemma ClaimSucceedsExactlyWhen(e: Endpoint, s: State, client: string, n: nat)
    requires Reachable(e, s) && Enabled(s, Claim(client, n))
    ensures var jti := s.pending[(client, n)].checked.jti;
            (|Apply(e, s, Claim(client, n)).log| == |s.log| + 1
             <==> forall i :: 0 <= i < |s.log| && AcceptedFor(s.log[i], client, jti) ==> PurgedSince(s.log, i))
  {
    ReachableStatesHaveInv(e, s);
    var jti := s.pending[(client, n)].checked.jti;
    assert (client, jti) in s.rows <==> HasOutstanding(s.log, client, jti);
    forall i | 0 <= i < |s.log| && AcceptedFor(s.log[i], client, jti)
      ensures Outstanding(s.log, i, client, jti) <==> !PurgedSince(s.log, i)
    {
      if !PurgedSince(s.log, i) {
        assert forall m :: i < m < |s.log| && s.log[m].Purged? ==> s.log[m].at <= s.log[i].exp;
      }
    }
  }

  ghost predicate PurgedSince(log: seq<Event>, i: int)
    requires 0 <= i < |log| && log[i].Accepted?
  {
    exists m :: i < m < |log| && log[m].Purged? && log[m].at > log[i].exp
  }

  ghost predicate SameAssertion(a: Event, b: Event) {
    a.Accepted? && b.Accepted? && a.client == b.client && a.jti == b.jti && a.exp == b.exp
  }

  /** An assertion accepted a second time was claimed after it had expired, behind a purge that also ran
    * after it had expired. */
  lemma SecondAcceptanceIsLate(e: Endpoint, s: State, i: int, k: int)
    requires Reachable(e, s) && 0 <= i < k < |s.log| && SameAssertion(s.log[i], s.log[k])
    ensures s.log[k].at > s.log[k].exp
    ensures exists m :: i < m < k && s.log[m].Purged? && s.log[m].at > s.log[i].exp
  {
    ReachableStatesHaveInv(e, s);
    var client, jti := s.log[i].client, s.log[i].jti;
    var before := s.log[..k];
    assert !HasOutstanding(before, client, jti);
    assert !Outstanding(before, i, client, jti);
    assert before[i] == s.log[i];
    var m :| i < m < |before| && before[m].Purged? && before[m].at > before[i].exp;
    assert before[m] == s.log[m];
  }

  /** Single use: in any run mixing requests, purges and clock ticks, an assertion whose claims are all
    * made by its expiry is accepted at most once. */
  lemma OnTimeClaimsAreSingleUse(e: Endpoint, s: State, i: int, k: int)
    requires Reachable(e, s) && 0 <= i < |s.log| && 0 <= k < |s.log| && SameAssertion(s.log[i], s.log[k])
    requires s.log[i].at <= s.log[i].exp && s.log[k].at <= s.log[k].exp
    ensures i == k
  {
    if i < k {
      SecondAcceptanceIsLate(e, s, i, k);
    } else if k < i {
      SecondAcceptanceIsLate(e, s, k, i);
    }
  }

  /** Without the claims being on time single use fails: the check of one request and its claim can
    * straddle the expiry of the assertion and a purge. Here the same assertion is accepted twice. */
  lemma LateClaimIsAcceptedAgain(e: Endpoint)
    ensures exists s :: Reachable(e, s) && |s.log| == 3 && SameAssertion(s.log[0], s.log[2])
  {
    var key := Key(1);
    var claims: Claims := map[ISS := Str("c"), SUB := Str("c"), AUD := Str(e.issuer), EXP := Int(10), JTI := Str("j")];
    var t := Jwt(map[ALG := Str(ALGORITHM), KID := Str("k")], claims, key);
    var s0 := State(map[], {}, map[], 0, map[], []);
    var s1 := Apply(e, s0, AddKey("c", "k", key));
    var checked := Checked("j", 10 * SECOND);
    assert Check(t, "c", s1.keys, e, 0) == Ok(checked);
    var waiting := Pending(t, checked, 0);
    var s2 := s1.(pending := map[("c", 0) := waiting]);
    var s3 := s1.(pending := map[("c", 0) := waiting, ("c", 1) := waiting]);
    assert Apply(e, s1, Present("c", 0, t)) == s2;
    assert Apply(e, s2, Present("c", 1, t)) == s3;
    var opening := [] + [AddKey("c", "k", key)] + [Present("c", 0, t)] + [Present("c", 1, t)];
    ExecuteAppend(e, s0, [], AddKey("c", "k", key));
    ExecuteAppend(e, s0, [] + [AddKey("c", "k", key)], Present("c", 0, t));
    ExecuteAppend(e, s0, [] + [AddKey("c", "k", key)] + [Present("c", 0, t)], Present("c", 1, t));
    LateClaim(e, s0, s3, opening, t, checked);
  }

  lemma LateClaim(e: Endpoint, s0: State, s3: State, opening: seq<Step>, t: Token, checked: Checked)
    requires Initial(s0) && Execute(e, s0, opening) == Some(s3)
    requires checked == Checked("j", 10 * SECOND) && s3.rows == map[] && s3.clock == 0 && s3.log == []
    requires s3.pending == map[("c", 0) := Pending(t, checked, 0), ("c", 1) := Pending(t, checked, 0)]
    ensures exists s :: Reachable(e, s) && |s.log| == 3 && SameAssertion(s.log[0], s.log[2])
  {
    var s4 := Apply(e, s3, Claim("c", 0));
    assert s4.rows == map[("c", "j") := 10 * SECOND];
    var s5 := Apply(e, s4, Tick(11 * SECOND));
    var s6 := Apply(e, s5, Purge);
    assert s6.rows == map[];
    var s7 := Apply(e, s6, Claim("c", 1));
    ExecuteAppend(e, s0, opening, Claim("c", 0));
    ExecuteAppend(e, s0, opening + [Claim("c", 0)], Tick(11 * SECOND));
    ExecuteAppend(e, s0, opening + [Claim("c", 0)] + [Tick(11 * SECOND)], Purge);
    ExecuteAppend(e, s0, opening + [Claim("c", 0)] + [Tick(11 * SECOND)] + [Purge], Claim("c", 1));
    assert Reachable(e, s7);
  }

  lemma {:induction false} ExecuteAppend(e: Endpoint, s: State, steps: seq<Step>, last: Step)
    requires Execute(e, s, steps).Some? && Enabled(Execute(e, s, steps).value, last)
    ensures Execute(e, s, steps + [last]) == Some(Apply(e, Execute(e, s, steps).value, last))
    decreases |steps|
  {
    var all := steps + [last];
    if steps == [] {
      assert all == [last] && all[1..] == [];
      assert Execute(e, Apply(e, s, last), []) == Some(Apply(e, s, last));
    } else {
      assert all[0] == steps[0] && all[1..] == steps[1..] + [last];
      ExecuteAppend(e, Apply(e, s, steps[0]), steps[1..], last);
    }
  }

  // --------------------------------------------------------------------------------- what a row means

  /** A row for a client is there only because that client was authenticated: by an assertion signed with
    * a key registered to it, naming it as issuer and subject, that had passed every other check. */
  lemma RowsComeFromTheClient(e: Endpoint, s: State, client: string, jti: string)
    requires Reachable(e, s) && (client, jti) in s.rows
    ensures exists i :: 0 <= i < |s.log| && AcceptedFor(s.log[i], client, jti) && s.log[i].exp == s.rows[(client, jti)]
                        && Vetted(s.registered, e, client, s.log[i].assertion, Checked(jti, s.log[i].exp),
                                  s.log[i].checkedAt)
  {
    ReachableStatesHaveInv(e, s);
    assert HasOutstanding(s.log, client, jti);
    var i :| Outstanding(s.log, i, client, jti);
    assert EventOk(s.registered, e, s.log[i]);
  }

  /** The table stays small: after a purge, every surviving row was written, and its assertion checked,
    * within the last 300 seconds. */
  lemma PurgeLeavesRecentRows(e: Endpoint, s: State, client: string, jti: string)
    requires Reachable(e, s) && (client, jti) in Apply(e, s, Purge).rows
    ensures exists i :: 0 <= i < |s.log| && AcceptedFor(s.log[i], client, jti)
                        && s.clock - 300 * SECOND <= s.log[i].checkedAt <= s.log[i].at <= s.clock
  {
    ReachableStatesHaveInv(e, s);
    assert HasOutstanding(s.log, client, jti);
    var i :| Outstanding(s.log, i, client, jti);
    assert EventOk(s.registered, e, s.log[i]);
  }

  // ------------------------------------------------------------- one client never changes another's outcomes

  /** The acceptances of one client, in order. */
  function AcceptedOf(log: seq<Event>, client: string): seq<Event> {
    if log == [] then []
    else
      var ev := log[|log| - 1];
      AcceptedOf(log[..|log| - 1], client) + (if ev.Accepted? && ev.client == client then [ev] else [])
  }

  /** Two states look the same to a client: its keys, its rows, its requests, its acceptances, the time. */
  ghost predicate SameFor(client: string, s: State, t: State) {
    && s.clock == t.clock
    && (forall kid {:trigger (client, kid) in s.keys} {:trigger (client, kid) in t.keys} ::
          ((client, kid) in s.keys <==> (client, kid) in t.keys)
            && ((client, kid) in s.keys ==> s.keys[(client, kid)] == t.keys[(client, kid)]))
    && (forall j {:trigger (client, j) in s.rows} {:trigger (client, j) in t.rows} ::
          ((client, j) in s.rows <==> (client, j) in t.rows)
            && ((client, j) in s.rows ==> s.rows[(client, j)] == t.rows[(client, j)]))
    && (forall n: nat {:trigger (client, n) in s.pending} {:trigger (client, n) in t.pending} ::
          ((client, n) in s.pending <==> (client, n) in t.pending)
            && ((client, n) in s.pending ==> s.pending[(client, n)] == t.pending[(client, n)]))
    && AcceptedOf(s.log, client) == AcceptedOf(t.log, client)
  }

  predicate Concerns(step: Step, client: string) {
    match step
    case Tick(_) => true
    case Purge => true
    case AddKey(c, _, _) => c == client
    case Present(c, _, _) => c == client
    case Claim(c, _) => c == client
    case Crash(c, _) => c == client
  }

  function Only(steps: seq<Step>, client: string): seq<Step> {
    if steps == [] then []
    else (if Concerns(steps[0], client) then [steps[0]] else []) + Only(steps[1..], client)
  }

  lemma AppendAccepted(log: seq<Event>, ev: Event, client: string)
    ensures AcceptedOf(log + [ev], client) == AcceptedOf(log, client)
            + (if ev.Accepted? && ev.client == client then [ev] else [])
  {
    assert (log + [ev])[..|log|] == log;
  }

  /** A step of another client is invisible. */
  lemma OthersAreInvisible(e: Endpoint, client: string, s: State, t: State, step: Step)
    requires SameFor(client, s, t) && Enabled(s, step) && !Concerns(step, client)
    ensures SameFor(client, Apply(e, s, step), t)
  {
    if step.Claim? {
      var p := s.pending[(step.client, step.n)];
      AppendAccepted(s.log, Accepted(step.client, p.checked.jti, p.checked.exp, s.clock, p.assertion, p.checkedAt),
                     client);
    }
  }

  lemma CheckLooksAtOwnKeys(a: Token, client: string, keys: KeyTable, others: KeyTable, e: Endpoint, now: int)
    requires forall kid ::
        ((client, kid) in keys <==> (client, kid) in others)
        && ((client, kid) in keys ==> keys[(client, kid)] == others[(client, kid)])
    ensures Check(a, client, keys, e, now) == Check(a, client, others, e, now)
  {
  }

  /** A step of the client, of time or of the purge does the same in states that look the same to it. */
  lemma OwnStepsAreAlike(e: Endpoint, client: string, s: State, t: State, step: Step)
    requires SameFor(client, s, t) && Enabled(s, step) && Concerns(step, client)
    ensures Enabled(t, step) && SameFor(client, Apply(e, s, step), Apply(e, t, step))
  {
    match step
    case Present(_, _, assertion) => CheckLooksAtOwnKeys(assertion, client, s.keys, t.keys, e, s.clock);
    case Claim(_, n) => ClaimsAreAlike(client, s, t, n);
    case Purge =>
      AppendAccepted(s.log, Purged(s.clock), client);
      AppendAccepted(t.log, Purged(t.clock), client);
    case _ =>
  }

  lemma ClaimsAreAlike(client: string, s: State, t: State, n: nat)
    requires SameFor(client, s, t) && (client, n) in s.pending
    ensures (client, n) in t.pending && SameFor(client, Claimed(s, client, n), Claimed(t, client, n))
  {
    var p := s.pending[(client, n)];
    var ev := Accepted(client, p.checked.jti, p.checked.exp, s.clock, p.assertion, p.checkedAt);
    AppendAccepted(s.log, ev, client);
    AppendAccepted(t.log, ev, client);
  }

  /** Removing every step of the other clients from a run changes nothing for this one: not its rows, not
    * which of its assertions are accepted, not when. */
  lemma {:induction false} ClientsDoNotInterfere(e: Endpoint, client: string, s: State, t: State, steps: seq<Step>)
    requires SameFor(client, s, t) && Execute(e, s, steps).Some?
    ensures Execute(e, t, Only(steps, client)).Some?
    ensures SameFor(client, Execute(e, s, steps).value, Execute(e, t, Only(steps, client)).value)
    decreases |steps|
  {
    if steps != [] {
      var s1 := Apply(e, s, steps[0]);
      if Concerns(steps[0], client) {
        OwnStepsAreAlike(e, client, s, t, steps[0]);
        ClientsDoNotInterfere(e, client, s1, Apply(e, t, steps[0]), steps[1..]);
        assert Only(steps, client)[0] == steps[0] && Only(steps, client)[1..] == Only(steps[1..], client);
      } else {
        OthersAreInvisible(e, client, s, t, steps[0]);
        ClientsDoNotInterfere(e, client, s1, t, steps[1..]);
        assert Only(steps, client) == Only(steps[1..], client);
      }
    }
  }
}
