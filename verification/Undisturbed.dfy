/** Each operation as one undisturbed run of its state machine: what a request, a login or a first start
  * does alone is what the corresponding method or function says, so the theorems about all interleavings
  * and those about single calls speak of the same program. */
module Undisturbed {
  import opened Outcomes
  import opened Tokens
  import opened Repositories
  import Grants
  import Server
  import ServerInvariant
  import ServerSafety
  import A = Assertions
  import K = KeyStore

  // ----------------------------------------------------------------------------------- token exchange

  /** The three steps of an exchange, run together, resolve exactly what `ResolveExchange` does, and change
    * nothing else. */
  lemma ExchangeAlone(cfg: Server.Config, s: Server.State, id: nat, clientId: string, form: Grants.ExchangeForm)
    requires Server.Enabled(cfg, s, Server.BeginExchange(id, clientId, form))
    ensures var caller := s.clients[clientId];
            var r := Grants.ResolveExchange(form, caller, s.clients, cfg.settings.issuer, cfg.key,
                                            cfg.settings.maxDepth, s.clock);
            var run := Server.Execute(cfg, s,
                                      [Server.BeginExchange(id, clientId, form), Server.VerifyTokens(id),
                                       Server.ReadActor(id)]);
            && (r.Ok? ==>
                  && Grants.CheckForm(form, caller).Ok?
                  && Resolves(s, id, Grants.CheckForm(form, caller).value, caller, r.value, run))
            && (r.Err? ==> run.None? || id !in run.value.requests)
  {
    var caller := s.clients[clientId];
    var form1 := Grants.CheckForm(form, caller);
    ServerSafety.ExecuteFirst(cfg, s, Server.BeginExchange(id, clientId, form),
                              [Server.VerifyTokens(id), Server.ReadActor(id)]);
    if form1.Ok? {
      var s1 := Server.Advance(s, id, Server.Authenticated(form1.value, caller));
      ReadAlone(cfg, s1, id, form1.value, caller);
      AdvanceTwice(s, id, Server.Authenticated(form1.value, caller));
    } else {
      ServerSafety.ExecuteFirst(cfg, s, Server.VerifyTokens(id), [Server.ReadActor(id)]);
    }
  }

  /** The run ends with the request resolved, remembering what it was resolved from. */
  ghost predicate Resolves(s: Server.State, id: nat, x: Grants.Exchange, caller: Client, result: Grants.GrantResult,
                           run: Option<Server.State>) {
    && x.actorToken.Jwt? && Grants.ActorClient(x.actorToken.payload, s.clients).Ok?
    && var actor := Grants.ActorClient(x.actorToken.payload, s.clients).value;
    var origin := Server.HopFrom(
                    Server.JtiOf(x.subjectToken), Server.JtiOf(x.actorToken), caller, actor, x.audience, x.scope);
    run == Some(Server.Advance(s, id, Server.Resolved(result, origin)))
  }

  lemma AdvanceTwice(s: Server.State, id: nat, r: Server.Request)
    ensures forall q :: Server.Advance(Server.Advance(s, id, r), id, q) == Server.Advance(s, id, q)
  {
    assert forall q: Server.Request {:trigger s.requests[id := q]} ::
        s.requests[id := r][id := q] == s.requests[id := q];
  }

  lemma ReadAlone(cfg: Server.Config, s: Server.State, id: nat, x: Grants.Exchange, caller: Client)
    requires id in s.requests && s.requests[id] == Server.Authenticated(x, caller)
    ensures var r := Grants.ResolveChecked(x, caller, s.clients, cfg.settings.issuer, cfg.key, cfg.settings.maxDepth,
                                           s.clock);
            var run := Server.Execute(cfg, s, [Server.VerifyTokens(id), Server.ReadActor(id)]);
            && (r.Ok? ==> Resolves(s, id, x, caller, r.value, run))
            && (r.Err? ==> run.None? || id !in run.value.requests)
  {
    var subject := Grants.VerifyPresented(x.subjectToken, cfg.settings.issuer, cfg.key, s.clock);
    var actor := Grants.VerifyPresented(x.actorToken, cfg.settings.issuer, cfg.key, s.clock);
    VerifyTokensAlone(cfg, s, id, x, caller);
    ResolvesWhen(x, caller, s.clients, cfg.settings.issuer, cfg.key, cfg.settings.maxDepth, s.clock);
    if subject.Ok? && actor.Ok? {
      ServerInvariant.VerifiedTokensAreOurs(x.subjectToken, cfg.settings.issuer, cfg.key, s.clock);
      ServerInvariant.VerifiedTokensAreOurs(x.actorToken, cfg.settings.issuer, cfg.key, s.clock);
      DecideAlone(cfg, Server.Advance(s, id, Server.Verified(x, caller)), id, x, caller);
      AdvanceTwice(s, id, Server.Verified(x, caller));
    }
  }

  lemma VerifyTokensAlone(cfg: Server.Config, s: Server.State, id: nat, x: Grants.Exchange, caller: Client)
    requires id in s.requests && s.requests[id] == Server.Authenticated(x, caller)
    ensures Server.Execute(cfg, s, [Server.VerifyTokens(id), Server.ReadActor(id)])
         == if Grants.VerifyPresented(x.subjectToken, cfg.settings.issuer, cfg.key, s.clock).Ok?
           && Grants.VerifyPresented(x.actorToken, cfg.settings.issuer, cfg.key, s.clock).Ok?
            then Server.Execute(cfg, Server.Advance(s, id, Server.Verified(x, caller)), [Server.ReadActor(id)])
              else None
  {
    ServerSafety.ExecuteFirst(cfg, s, Server.VerifyTokens(id), [Server.ReadActor(id)]);
    var s2 := Server.AfterVerify(cfg, s, id, x, caller);
    ServerSafety.ExecuteFirst(cfg, s2, Server.ReadActor(id), []);
    assert [Server.ReadActor(id)] + [] == [Server.ReadActor(id)];
  }

  lemma ResolvesWhen(x: Grants.Exchange, caller: Client, clients: ClientTable, issuer: string, key: SigningKey,
                     maxDepth: int, now: int)
    ensures var r := Grants.ResolveChecked(x, caller, clients, issuer, key, maxDepth, now);
            var subject := Grants.VerifyPresented(x.subjectToken, issuer, key, now);
            var actor := Grants.VerifyPresented(x.actorToken, issuer, key, now);
            var client := if actor.Ok? then Grants.ActorClient(actor.value, clients) else Err(Grants.REFUSED);
            if subject.Ok? && client.Ok?
              then r == Grants.Policy(x, caller, subject.value, actor.value, client.value, maxDepth) else r.Err?
  {
  }

  lemma DecideAlone(cfg: Server.Config, s: Server.State, id: nat, x: Grants.Exchange, caller: Client)
    requires id in s.requests && s.requests[id] == Server.Verified(x, caller) && x.subjectToken.Jwt?
    requires x.actorToken.Jwt?
    ensures var actor := Grants.ActorClient(x.actorToken.payload, s.clients);
            var r := if actor.Ok? then Grants.Policy(x, caller, x.subjectToken.payload, x.actorToken.payload,
                                                     actor.value, cfg.settings.maxDepth)
                     else Err(actor.failure);
            var run := Server.Execute(cfg, s, [Server.ReadActor(id)]);
            && (r.Ok? ==> Resolves(s, id, x, caller, r.value, run))
            && (r.Err? ==> run.Some? && id !in run.value.requests)
  {
    ServerSafety.ExecuteFirst(cfg, s, Server.ReadActor(id), []);
    assert [Server.ReadActor(id)] + [] == [Server.ReadActor(id)];
  }

  // --------------------------------------------------------------------------------- client assertions

  /** Checking and claiming, run together, are `PrivateKeyJwt.Verify`: accepted exactly when the checks
    * pass and the identifier has no row, and then the same row is written. */
  lemma VerifyAlone(e: A.Endpoint, s: A.State, client: string, n: nat, t: Token)
    requires A.Enabled(s, A.Present(client, n, t))
    ensures var c := A.Check(t, client, s.keys, e, s.clock);
            var ok := c.Ok? && (client, c.value.jti) !in s.rows;
            var run := A.Execute(e, s, [A.Present(client, n, t), A.Claim(client, n)]);
            && (run.Some? <==> A.IsProofOf(t, client, s.keys, e, s.clock))
            && (run.Some? ==> run.value.rows == (if ok then s.rows[(client, c.value.jti) := c.value.exp] else s.rows)
                              && |run.value.log| == |s.log| + (if ok then 1 else 0) && run.value.pending == s.pending)
  {
    var c := A.Check(t, client, s.keys, e, s.clock);
    A.ChecksPassExactlyWhen(t, client, s.keys, e, s.clock);
    AssertionStep(e, s, A.Present(client, n, t), [A.Claim(client, n)]);
    var s1 := A.Apply(e, s, A.Present(client, n, t));
    AssertionStep(e, s1, A.Claim(client, n), []);
    assert [A.Claim(client, n)] + [] == [A.Claim(client, n)];
    if c.Ok? {
      assert s1.pending - {(client, n)} == s.pending;
    }
  }

  lemma AssertionStep(e: A.Endpoint, s: A.State, first: A.Step, rest: seq<A.Step>)
    ensures A.Execute(e, s, [first] + rest) == if A.Enabled(s, first) then A.Execute(e, A.Apply(e, s, first), rest)
            else None
  {
    assert ([first] + rest)[1..] == rest;
  }

  // ---------------------------------------------------------------------------------------- first start

  /** A process that starts alone, with no key there and nothing failing, publishes its key and returns
    * it, with the disk as `KeyDirectory.LoadOrCreate` leaves it. */
  lemma FirstStartAlone(crypto: K.Crypto, s: K.Store, id: nat, key: Key, temp: nat, file: nat)
    requires id !in s.processes && K.Published !in s.disk.names && K.Temp(temp) !in s.disk.names && file !in s.disk.data
    ensures var n := |crypto.encode(key)|;
            var creating := [K.Start(id), K.Load(id, false), K.Generate(id, key), K.OpenTemp(id, temp, file)];
            var publishing := [K.Write(id, n, false), K.Sync(id, false), K.Link(id, false), K.CleanUp(id, false)];
            var half := K.Execute(crypto, s, creating);
            && half.Some?
            && K.Execute(crypto, half.value, publishing)
               == Some(K.Store(
                         K.Disk(s.disk.names[K.Published := file], s.disk.data[file := crypto.encode(key)]),
                         s.processes[id := K.Returned(crypto.Sign(key))]))
  {
    CreateAlone(crypto, s, id, key, temp, file);
    var half := K.Store(K.Created(s.disk, temp, file), s.processes[id := K.Writing(key, temp, file, 0)]);
    PublishAlone(crypto, half, id, key, temp, file);
    assert half.processes[id := K.Returned(crypto.Sign(key))] == s.processes[id := K.Returned(crypto.Sign(key))];
    DroppedTemp(s.disk.names, temp, file);
    assert half.disk.data[file := crypto.encode(key)] == s.disk.data[file := crypto.encode(key)];
  }

  lemma DroppedTemp(names: map<K.FileName, nat>, temp: nat, file: nat)
    requires K.Temp(temp) !in names
    ensures (names[K.Temp(temp) := file] - {K.Temp(temp)})[K.Published := file] == names[K.Published := file]
  {
  }

  lemma CreateAlone(crypto: K.Crypto, s: K.Store, id: nat, key: Key, temp: nat, file: nat)
    requires id !in s.processes && K.Published !in s.disk.names && K.Temp(temp) !in s.disk.names && file !in s.disk.data
    ensures K.Execute(crypto, s, [K.Start(id), K.Load(id, false), K.Generate(id, key), K.OpenTemp(id, temp, file)])
         == Some(K.Store(K.Created(s.disk, temp, file), s.processes[id := K.Writing(key, temp, file, 0)]))
  {
    var s1 := K.Become(s, id, K.Starting);
    var s2 := K.Become(s, id, K.Absent);
    var s3 := K.Become(s, id, K.Generated(key));
    KeyStep(crypto, s, K.Start(id), [K.Load(id, false), K.Generate(id, key), K.OpenTemp(id, temp, file)]);
    KeyStep(crypto, s1, K.Load(id, false), [K.Generate(id, key), K.OpenTemp(id, temp, file)]);
    assert K.Apply(crypto, s1, K.Load(id, false)) == s2;
    KeyStep(crypto, s2, K.Generate(id, key), [K.OpenTemp(id, temp, file)]);
    assert K.Apply(crypto, s2, K.Generate(id, key)) == s3;
    KeyStep(crypto, s3, K.OpenTemp(id, temp, file), []);
    assert [K.OpenTemp(id, temp, file)] + [] == [K.OpenTemp(id, temp, file)];
    assert K.Apply(crypto, s3, K.OpenTemp(id, temp, file)).processes
           == s.processes[id := K.Writing(key, temp, file, 0)];
  }

  lemma PublishAlone(crypto: K.Crypto, s: K.Store, id: nat, key: Key, temp: nat, file: nat)
    requires id in s.processes && s.processes[id] == K.Writing(key, temp, file, 0)
    requires K.Published !in s.disk.names && K.Temp(temp) in s.disk.names && s.disk.names[K.Temp(temp)] == file
    ensures K.Execute(crypto, s,
                      [K.Write(id, |crypto.encode(key)|, false), K.Sync(id, false), K.Link(id, false),
                       K.CleanUp(id, false)])
         == Some(K.Store(
                   K.Disk((s.disk.names - {K.Temp(temp)})[K.Published := file],
                          s.disk.data[file := crypto.encode(key)]),
                   s.processes[id := K.Returned(crypto.Sign(key))]))
  {
    var pem := crypto.encode(key);
    assert pem[..|pem|] == pem;
    var s1 := K.Become(s, id, K.Writing(key, temp, file, |pem|)).(disk := K.Wrote(s.disk, file, pem));
    var s2 := K.Become(s1, id, K.Synced(key, temp));
    KeyStep(crypto, s, K.Write(id, |pem|, false), [K.Sync(id, false), K.Link(id, false), K.CleanUp(id, false)]);
    assert K.Apply(crypto, s, K.Write(id, |pem|, false)) == s1;
    KeyStep(crypto, s1, K.Sync(id, false), [K.Link(id, false), K.CleanUp(id, false)]);
    LinkAlone(crypto, s2, id, key, temp, file);
    assert s2.processes[id := K.Returned(crypto.Sign(key))] == s.processes[id := K.Returned(crypto.Sign(key))];
  }

  lemma LinkAlone(crypto: K.Crypto, s: K.Store, id: nat, key: Key, temp: nat, file: nat)
    requires id in s.processes && s.processes[id] == K.Synced(key, temp)
    requires K.Published !in s.disk.names && K.Temp(temp) in s.disk.names && s.disk.names[K.Temp(temp)] == file
    ensures K.Execute(crypto, s, [K.Link(id, false), K.CleanUp(id, false)])
         == Some(K.Store(
                   K.Disk((s.disk.names - {K.Temp(temp)})[K.Published := file], s.disk.data),
                   s.processes[id := K.Returned(crypto.Sign(key))]))
  {
    var s1 := K.Become(s, id, K.CleaningUp(temp, Some(key))).(disk := K.LinkedTo(s.disk, temp));
    KeyStep(crypto, s, K.Link(id, false), [K.CleanUp(id, false)]);
    assert K.Apply(crypto, s, K.Link(id, false)) == s1;
    KeyStep(crypto, s1, K.CleanUp(id, false), []);
    assert [K.CleanUp(id, false)] + [] == [K.CleanUp(id, false)];
    assert K.Apply(crypto, s1, K.CleanUp(id, false)).processes == s.processes[id := K.Returned(crypto.Sign(key))];
    assert s.disk.names[K.Published := file] - {K.Temp(temp)} == (s.disk.names - {K.Temp(temp)})[K.Published := file];
  }

  /** A process that finds a key loads it, and writes nothing. */
  lemma LateStartAlone(crypto: K.Crypto, s: K.Store, id: nat)
    requires id !in s.processes && K.Published in s.disk.names
    ensures var k := K.LoadedKey(crypto, s.disk);
            K.Execute(crypto, s, [K.Start(id), K.Load(id, false)])
            == Some(s.(processes := s.processes[id := if k.Some? then K.Returned(crypto.Sign(k.value)) else K.Failed]))
  {
    var s1 := K.Become(s, id, K.Starting);
    KeyStep(crypto, s, K.Start(id), [K.Load(id, false)]);
    KeyStep(crypto, s1, K.Load(id, false), []);
    assert [K.Load(id, false)] + [] == [K.Load(id, false)];
    assert K.Apply(crypto, s1, K.Load(id, false)).processes
           == K.Become(s, id, K.Apply(crypto, s1, K.Load(id, false)).processes[id]).processes;
  }

  /** A process that has its key ready and finds another published reads that one, drops its own file and
    * returns the published key. */
  lemma LosingAlone(crypto: K.Crypto, s: K.Store, id: nat, key: Key, temp: nat)
    requires id in s.processes && s.processes[id] == K.Synced(key, temp)
    requires K.Published in s.disk.names && K.Temp(temp) in s.disk.names
    ensures var k := K.LoadedKey(crypto, s.disk);
            K.Execute(crypto, s, [K.Link(id, false), K.Reload(id, false), K.CleanUp(id, false)])
            == Some(K.Store(
                      K.Disk(s.disk.names - {K.Temp(temp)}, s.disk.data),
                      s.processes[id := if k.Some? then K.Returned(crypto.Sign(k.value)) else K.Failed]))
  {
    var k := K.LoadedKey(crypto, s.disk);
    var s1 := K.Become(s, id, K.Lost(temp));
    var s2 := K.Become(s, id, K.CleaningUp(temp, k));
    KeyStep(crypto, s, K.Link(id, false), [K.Reload(id, false), K.CleanUp(id, false)]);
    KeyStep(crypto, s1, K.Reload(id, false), [K.CleanUp(id, false)]);
    assert K.Apply(crypto, s1, K.Reload(id, false)).processes == s2.processes;
    KeyStep(crypto, s2, K.CleanUp(id, false), []);
    assert [K.CleanUp(id, false)] + [] == [K.CleanUp(id, false)];
    assert K.Apply(crypto, s2, K.CleanUp(id, false)).processes
        == s.processes[id := if k.Some? then K.Returned(crypto.Sign(k.value)) else K.Failed];
  }

  /** On a first run the loser of the race therefore always returns the key that won. */
  lemma LoserReturnsThePublishedKey(crypto: K.Crypto, start: K.Store, steps: seq<K.Step>, s: K.Store, id: nat)
    requires crypto.Sound() && K.Runs(crypto, start, steps, s) && K.Published !in start.disk.names
    requires id in s.processes && s.processes[id].Synced? && K.Published in s.disk.names
    ensures var run := K.Execute(crypto, s, [K.Link(id, false), K.Reload(id, false), K.CleanUp(id, false)]);
            exists winner :: K.PublishedBytes(s.disk) == Some(crypto.encode(winner))
                             && run.Some? && run.value.processes[id := K.Failed] == s.processes[id := K.Failed]
                             && id in run.value.processes && run.value.processes[id] == K.Returned(crypto.Sign(winner))
  {
    K.OnlyCompleteKeysAreLoaded(crypto, start, steps, s);
    K.RunKeepsInv(crypto, start, steps, K.PublishedBytes(start.disk));
    assert K.FileOk(crypto, s.disk, s.processes[id]);
    var p := s.processes[id];
    LosingAlone(crypto, s, id, p.key, p.temp);
    var winner :| K.PublishedBytes(s.disk) == Some(crypto.encode(winner));
    assert K.LoadedKey(crypto, s.disk) == Some(winner);
    var q := K.Returned(crypto.Sign(winner));
    assert s.processes[id := q][id := K.Failed] == s.processes[id := K.Failed];
  }

  lemma KeyStep(crypto: K.Crypto, s: K.Store, first: K.Step, rest: seq<K.Step>)
    ensures K.Execute(crypto, s, [first] + rest) == if K.Enabled(crypto, s, first)
            then K.Execute(crypto, K.Apply(crypto, s, first), rest) else None
  {
    assert ([first] + rest)[1..] == rest;
  }
}
