# Agent OAuth authorization server: a verified model

The server issues access tokens and lets agents exchange them for narrower ones. What it promises is
not held by any one function: that the signed `act` chain of a token is the true history of how it was
issued, that scope, lifetime and depth only shrink, that nothing reaches a caller unrecorded. These are
properties of a long-lived server with many requests in flight, and they are proved of one here,
together with three smaller protocols: the creation of the signing key at the first start, the
single-use client assertion, and the key cache of the resource server.

## How the model is built

| File | What it models |
|---|---|
| `Outcomes.dfy`, `Json.dfy`, `StringOrder.dfy` | results and failures; decoded JSON; Python's `sorted` on strings |
| `Scopes.dfy`, `ScopeHops.dfy` | splitting, printing and attenuating scope strings; what a chain of hops leaves |
| `Delegation.dfy`, `ObjectGraph.dfy` | the reader and the writer of `act`, on decoded claims and on a heap of possibly cyclic dictionaries |
| `Tokens.dfy` | minting (lifetime arithmetic) and verification |
| `Repositories.dfy` | the stored tables and the operations that change them |
| `Grants.dfy`, `Pipeline.dfy` | the two grants; attenuate, fill the claims, mint, record, release |
| `Server.dfy`, `ServerInvariant.dfy`, `ServerSafety.dfy` | the server as a state machine, its invariant, and what holds in every reachable state |
| `ServerRuns.dfy` | whole requests, exactly when each releases a token, and runs that do |
| `KeyStore.dfy` | first-run key creation by many processes |
| `Assertions.dfy`, `AssertionSafety.dfy` | client assertions and the replay table |
| `Jwks.dfy`, `JwksConcurrency.dfy`, `Parity.dfy` | the key cache alone, under concurrency, and against the server's own verifier |
| `EndToEnd.dfy` | which released tokens the resource server accepts |
| `Undisturbed.dfy`, `UndisturbedCache.dfy` | an exchange, an assertion, a first start, a key look-up and a validation, each alone as a run of its state machine |

Functions give the meaning of an operation. The decisions have a partner that says what must hold without
naming the function, a predicate such as `IsGenuine`, `IsProofOf`, `IsInOrder`, `IsHopPermitted`,
`IsSignable`, `IsRootRow` or `IsHopRow`, and a lemma that the two agree on every input. The parts the
program writes as loops or as updates in place (`parse_scope`, `chain`, `nest`, `issue`, the repositories,
key creation, the key cache) are methods proved against those functions. The state machines use the same
functions, and the two `Undisturbed` files close the remaining gap: for issuing, exchanging, verifying an
assertion, starting first, losing the race or starting late, `_refresh`, `_key_for` and `validate`, steps
that nothing interrupts have exactly the effect of the method or function.

Each state machine splits an operation wherever the program waits, reads shared state or could die, and
lets the steps of any number of requests, processes or threads interleave freely. A theorem whose
premise is `Reachable` holds after every run. The token server splits a request into authentication,
verification of the presented tokens, the policy decision on the actor's registration as read at that
moment, signing, recording, and the response; in between, registrations are edited, time passes, and a
request may crash. The key cache splits every read and write of a field.

## Assumptions

- Signatures are ideal. A token carrying the server's signature that a caller presents is one that the
  server released.
- Task identifiers are drawn fresh. Token identifiers (`jti`) are not assumed fresh: the ledger's
  primary key decides, as in the program.
- Time is in whole microseconds, with one clock for the process and the database. Signed `iat` and `exp`
  are whole seconds, rounded down; the ledger keeps the full value. The resource server's monotonic clock
  is never negative.
- The complete encoding of a key decodes to that key (`Crypto.Sound`); nothing is assumed about what an
  incomplete file decodes to. A key identifier is never empty.
- The configuration is within the bounds its loader checks: a lifetime of 1 to 3600 seconds and a depth
  cap of 1 to 10.

## Where the code differs from what is said about it

- **Single use of client assertions fails** for an assertion whose check and claim straddle its expiry
  with a purge in between: the purged row no longer stops the second claim. `LateClaimIsAcceptedAgain`
  gives the run; `ClaimSucceedsExactlyWhen` says exactly when a claim is accepted, and
  `OnTimeClaimsAreSingleUse` proves single use for claims made by the expiry. Nothing in the repository
  calls `purge_expired`, so the failing run needs a deployment that purges the table itself.
- **An assertion whose audience cannot be put in a set** (a list that holds an object or a list, or an
  object) raises an exception instead of being refused, even when it also names this server. No row is
  written.
- **An empty tenant** can be registered, and a token carrying it released (`EmptyTenantIsIssued` gives the
  run), but such a token is readable at no next hop and cannot be exchanged. `ReadersAccept` and
  `ExchangeResolvesExactlyWhen` say exactly when one can.
- The current holder is in `sub` and earlier holders are in `act`, which is not the layout of section 4.1
  of RFC 8693.
- A suspended client is refused for `client_credentials` only. Exchange never looks at a client's status,
  neither the caller's nor the actor's.
- The actor's ceiling is that of the client named by the actor token's `client_id`, which need not be a
  client whose subject is the token's `sub`.
- The repository's README and `docs/` describe a server without token exchange and without a database.
  The model follows the code.

## Model

| member | source | states |
|---|---|---|
| `Scopes.ParseScope` | src/services/scopes.py:8-17 | the parsing loop returns the words of the string, each at its first occurrence; absent and blank strings give nothing |
| `Scopes.WordsAreTheRunsInOrder` | src/services/scopes.py:14 | splitting lists the maximal runs of characters that are not white space: all of them, once each, from left to right, whatever separates them |
| `Scopes.WordsAreTheMaximalRuns` | src/services/scopes.py:8-17 | so a word can be in a parsed scope exactly when it is such a run |
| `Scopes.ParsedIsScopeList` | src/services/scopes.py:8-17 | a parsed scope lists every word of the string once, and nothing else |
| `Scopes.DistinctAreFirstOccurrences` | src/services/scopes.py:13-17 | parsing keeps exactly the positions of first occurrences, in their order |
| `Scopes.KeptInOrder` | src/services/scopes.py:37 | what is granted is the request with exactly the positions left out that some ceiling does not allow |
| `Scopes.AttenuateGrantsTheIntersection` | src/services/scopes.py:20-41 | a non-empty request is refused exactly when none of it lies in every ceiling; otherwise what does is granted in the order asked. The early refusal of an empty ceiling changes no outcome |
| `Scopes.PrintedScopesParseBack` | src/services/pipeline.py:59-60 | joining a scope list and parsing it gives back the same list, and it prints as the empty string only when empty |
| `Scopes.GrantedScopesRoundTrip` | src/services/scopes.py:8-41 | for every input string and all ceilings, what is granted is read back identically at the next hop |
| `StringOrder.SortedListsTheSet` | src/grants/token_exchange.py:85 | the default request lists exactly the held scopes, once each, in ascending code-point order |
| `ScopeHops.HopShrinks` | src/grants/token_exchange.py:84-94 | one hop leaves at most what was held and the actor's registration allows, and all of that when no scope was asked for |
| `ScopeHops.HopsClosedForm` | src/grants/token_exchange.py:84-94 | over any number of hops without a scope parameter, the result is the root's scopes intersected with every registration; some hop refuses exactly when the root held scopes and none survives |
| `ScopeHops.HopOrderDoesNotMatter` | src/services/scopes.py:20-41 | permuting the hops changes neither the refusal nor the resulting scope string |
| `Delegation.ChainReads` | src/services/delegation.py:57-83 | on decoded claims `chain` returns a list exactly when the claims spell it, holder first, and it has at most 32 entries |
| `Delegation.BuildAct` | src/services/delegation.py:109-125 | the dictionary filled in place is the nested claim, or the same refusal |
| `Delegation.NestPrependsHolder` | src/services/delegation.py:109-125 | the chain of a token that nests its parent is the new subject followed by the parent's whole chain |
| `Delegation.DepthIsCrossChecked` | src/services/delegation.py:158-172 | a declared depth is accepted exactly when it is one less than the number of identities the claims spell |
| `Delegation.MayActNamesTheActor` | src/services/delegation.py:128-145 | `may_act` permits exactly when absent or naming the actor, alone or in a list; anything else than an object or a list is refused |
| `Delegation.TaskAndTenantAreTheClaims` | src/services/delegation.py:148-182 | the task and the tenant are the claims: absent, or a text that is not empty |
| `Delegation.UnreadableChainIsInvalidGrant` | src/services/delegation.py:50-83 | a chain that cannot be read, on any claims, is refused as an invalid grant with status 400 |
| `Delegation.UnreadableDepthIsInvalidGrant` | src/services/delegation.py:158-172 | so is a depth that is missing or disagrees |
| `Delegation.UnreadableClaimsAreInvalidGrants` | src/services/delegation.py:109-182 | and so are an `act`, `may_act`, task or tenant of the wrong shape |
| `Delegation.ReadableCanBeNested` | src/services/delegation.py:109-125 | whatever `chain` can read, `nest` accepts |
| `ObjectGraph.Chain` | src/services/delegation.py:57-83 | on any object graph, cyclic or not, the loop runs at most 32 times, succeeds exactly when there is a plain reading of at most 32 entries, and returns it; the self-reference error means there is no reading of any length |
| `ObjectGraph.RevisitHasNoReading` | src/services/delegation.py:70-72 | an object that meets itself has no reading, so the seen-set only chooses the error |
| `ObjectGraph.DecodedClaimsReadAlike` | src/services/delegation.py:57-83 | on the objects a JSON text decodes to, the heap reading and the reading of the claims agree |
| `Tokens.MintSucceedsExactlyWhen` | src/crypto/tokens.py:73-86 | a mint is refused exactly when it would set an owned claim or has less than a whole second to live |
| `Tokens.MintArithmetic` | src/crypto/tokens.py:77-101 | the expiry is the full lifetime after now, or the ceiling when that comes first, exactly; `expires_in` is that in whole seconds; 1 <= `expires_in` <= signed lifetime <= min(`expires_in` + 1, the configured lifetime) |
| `Tokens.MintFailureIsNoProtocolError` | src/crypto/tokens.py:73-86 | a refused mint is a token error, never a protocol error |
| `Tokens.VerifyAcceptsExactlyWhen` | src/crypto/tokens.py:132-161 | the verifier accepts exactly the genuine: header, key, issuer, required claims, times, and an audience that is the one asked for or a list of texts holding it; refusals are token errors |
| `Tokens.MintedTokenVerifies` | src/crypto/tokens.py:60-161 | a minted token verifies with its claims unchanged until its signed expiry, and not after |
| `Tokens.VerifiesUntilExpiry` | src/crypto/tokens.py:132-161 | any token with the server's header, key and claims verifies exactly while its expiry is ahead |
| `Grants.FormPassesExactlyWhen` | src/grants/token_exchange.py:61-64 | an exchange form passes exactly when the audience is given and permitted, both tokens are there and the type fields are the access-token URN; then what is exchanged is what the form says; the error for each refusal |
| `Grants.PolicyGrantsOnlyPermitted` | src/grants/token_exchange.py:73-106 | on any claims whatever, a hop is granted only when the actor is permitted, the tenants agree and the depth counts the chain within the cap; and the grant is that of the hop, field by field |
| `Grants.PolicyGrantsEveryPermitted` | src/grants/token_exchange.py:73-106 | every permitted hop is granted |
| `Repositories.ClientRepository.Get` | src/storage/repositories.py:36-49 | returns the registration under that identifier, or nothing |
| `Repositories.ClientRepository.Upsert` | src/storage/repositories.py:65-93 | replaces or adds that one registration and touches no other |
| `Repositories.IssuedCredentialRepository.Record` | src/storage/repositories.py:100-123 | inserts a row, or fails on a taken key or an unreachable database and changes nothing |
| `Repositories.AssertionReplayRepository.Claim` | src/storage/repositories.py:198-212 | true exactly for the first to present the identifier, whose row it writes; otherwise nothing changes |
| `Repositories.AssertionReplayRepository.PurgeExpired` | src/storage/repositories.py:214-221 | keeps exactly the rows not yet expired, and counts the rest |
| `Pipeline.FillClaims` | src/services/pipeline.py:62-78 | the claims dictionary, filled step by step, is the body of the row it will be recorded as |
| `Pipeline.SignedClaimsRead` | src/services/pipeline.py:62-102 | every member of the signed claims is what the row says, and there is no other |
| `Pipeline.PreparedTokenMatchesRow` | src/services/pipeline.py:55-102 | the signed token and the row to record agree on every claim, and the expiry respects the lifetime and the ceiling |
| `Pipeline.PrepareSucceedsExactlyWhen` | src/services/pipeline.py:55-83 | a grant is signed exactly when its principal is active, its scopes survive, and a whole second is left |
| `Pipeline.SignedExactlyWhenSignable` | src/services/pipeline.py:55-83 | the same in terms of the grant: active, nothing asked for or some requested scope inside every ceiling, a second left |
| `Pipeline.UnsignedBecause` | src/services/pipeline.py:116-124 | which refusal: an inactive principal first, then no scope allowed, and last an elapsed lifetime, which is no protocol error |
| `Pipeline.IssuancePipeline.Sign` | src/services/pipeline.py:55-83 | steps 2 to 5 and the signature, nothing recorded |
| `Pipeline.IssuancePipeline.Issue` | src/services/pipeline.py:55-109 | a token is returned exactly when the grant is signable and its row can be written; then the row is in the ledger and says what the token says, and the response names its scope, its whole seconds to live and the declared type; any failure leaves the ledger as it was |
| `ServerInvariant.PolicyOnIssuedTokens` | src/grants/token_exchange.py:73-106 | the policy on tokens this server issued, decided completely: refused for a tenant that cannot be agreed or for depth, and otherwise this exact grant |
| `ServerInvariant.ReadersAccept` | src/services/delegation.py:148-182 | depth, chain, task, scope and `may_act` of every issued token are readable at the next hop; the tenant exactly when it is not empty |
| `ServerInvariant.StepKeepsInv` | src/services/pipeline.py:80-109 | every step of the server, crashes and edits included, keeps the invariant |
| `ServerInvariant.ReachableStatesHaveInv` | src/services/pipeline.py:55-109 | so it holds after every run |
| `ServerSafety.RecordedRowsAreExact` | src/services/pipeline.py:62-103 | after every run each recorded row and the token behind it are exactly what was asked for and read: subject, caller, audience, task, depth, tenant, the scope string to the letter, and the expiry to the microsecond |
| `ServerSafety.SignedChainIsIssuanceHistory` | src/services/delegation.py:57-125 | the signed chain of a recorded token is the subjects of its issuance ancestors down to its root; declared depth, ledger depth and number of ancestors agree, and the recorded root subject is the root's |
| `ServerSafety.LineageIsIssuanceHistory` | src/grants/token_exchange.py:80-106 | those ancestors are the tokens really exchanged, one by one, ending in a `client_credentials` token |
| `ServerSafety.NothingDeeperThanTheCapIsSigned` | src/grants/token_exchange.py:77-82 | no token beyond the depth cap is ever signed, released or not |
| `ServerSafety.ReleasedTokensAreRecorded` | src/services/pipeline.py:85-109 | every released token has a ledger row of its own, which says what the token says |
| `ServerSafety.ReleaseFollowsRecord` | src/services/pipeline.py:85-109 | only a response releases a token, and its row is written by then; a failed write and a crash release nothing |
| `ServerSafety.LedgerOnlyGrows` | src/storage/repositories.py:100-123 | over any run no row, once written, changes or disappears |
| `ServerSafety.UninterruptedIssue` | src/services/pipeline.py:55-109 | sign, record and respond without interruption are the pipeline's `issue`, with the whole state afterwards; when it fails, the request is over with nothing recorded or released |
| `ServerSafety.TaskSelectsOneTree` | src/grants/token_exchange.py:97-99 | the rows of a task are exactly one delegation tree, with exactly one row of depth 0 |
| `ServerSafety.TreeExpiresWithItsRoot` | src/grants/token_exchange.py:103-104 | every token of a tree stops verifying by the root's signed `iat` plus the configured lifetime |
| `ServerSafety.DerivedTokensOnlyShrink` | src/grants/token_exchange.py:80-106 | against every ancestor: expiry no later, ledger expiry within the signed one, scopes within the ancestor's and within the registration read for it, same task, tenant and root, although clients are edited between hops |
| `ServerSafety.PlainScopesClosedForm` | src/grants/token_exchange.py:84-94 | in every run, a token of hops without a scope parameter holds exactly the root's scopes that every registration on the way, as read, allows |
| `ServerSafety.VerifiesExactlyWhenLive` | src/grants/token_exchange.py:110-119 | a presented token verifies exactly when it was released and its signed expiry is ahead |
| `ServerSafety.ExchangeResolvesExactlyWhen` | src/grants/token_exchange.py:58-106 | in every reachable state, exactly when an exchange is resolved: the form in order field by field, both tokens live, actor client registered, one non-empty tenant, depth below the cap |
| `ServerRuns.RootReleasesExactlyWhen` | src/grants/client_credentials.py:18-36 | a whole `client_credentials` request releases a token exactly when the client is active, something it asks for is allowed, the identifier is new and the database can be reached; the row and token then are for exactly the scopes asked for and allowed, in the order asked, for the configured time |
| `ServerRuns.ExchangeReleasesExactlyWhen` | src/grants/token_exchange.py:58-106 | a whole exchange, from any reachable state, releases a token exactly when: the form is in order, both tokens are live, the registrations and the cap allow it, some scope survives, a whole second is left before the subject token's signed expiry, the identifier is new and the database can be reached; the row and token then are for the audience and scopes of the form, exactly |
| `ServerRuns.EditedClientCounts` | src/storage/repositories.py:65-93 | right after a registration is edited, a root request is decided by the new scopes and status, and no other registration has changed |
| `ServerRuns.EmptyTenantIsIssued` | src/services/delegation.py:175-182 | a run that releases a token whose tenant no reader accepts |
| `ServerRuns.HopIsIssued` | src/services/pipeline.py:55-109 | under every configuration, a run that releases and records a token of depth 1, exchanged from one of depth 0 |
| `KeyStore.KeyDirectory.LoadOrCreate` | src/crypto/keys.py:72-143 | an existing key is loaded and nothing written; otherwise the new key is published complete and the temporary name is gone |
| `Undisturbed.LosingAlone` | src/crypto/keys.py:132-141 | a process that loses the link reads the published key, drops its own file and returns that key |
| `Undisturbed.LoserReturnsThePublishedKey` | src/crypto/keys.py:132-141 | on a first run it always can: the loser returns the key that won |
| `Undisturbed.LateStartAlone` | src/crypto/keys.py:82-87 | a process that finds a key loads it and writes nothing |
| `KeyStore.ProcessesAgree` | src/crypto/keys.py:72-143 | all processes that return, at any two moments of any run, hold the same key and key identifier |
| `KeyStore.PublishedFileIsNeverReplaced` | src/crypto/keys.py:132-137 | once published, the file and its content never change |
| `KeyStore.OnlyCompleteKeysAreLoaded` | src/crypto/keys.py:94-137 | what can be loaded is the file of an earlier start or one key's complete encoding, which on a first run always decodes |
| `Assertions.PrivateKeyJwt.Verify` | src/auth/private_key_jwt.py:95-160 | true exactly for a proof of this client for this server whose identifier has no row yet; only then a row is written, with its expiry; an audience that cannot be hashed raises, and writes nothing |
| `Assertions.ChecksPassExactlyWhen` | src/auth/private_key_jwt.py:98-152 | the checks pass exactly for a proof of this client for this server: algorithm, the key registered under its name, signature, issuer, subject, times, at most 300 seconds to expiry, and an audience that is or holds the issuer or the token endpoint |
| `Assertions.RaisesExactlyWhen` | src/auth/private_key_jwt.py:137-149 | the checks raise exactly for a genuine assertion of the client's own whose audience cannot be put in a set |
| `AssertionSafety.ClaimSucceedsExactlyWhen` | src/storage/repositories.py:198-221 | a claim is accepted exactly when every earlier acceptance of its identifier was purged after its own expiry |
| `AssertionSafety.SecondAcceptanceIsLate` | src/storage/repositories.py:214-221 | an assertion accepted again was claimed after its expiry, behind a purge that also ran after it |
| `AssertionSafety.OnTimeClaimsAreSingleUse` | src/auth/private_key_jwt.py:154-160 | claims made by the expiry are single use in any run of requests, purges and clock ticks |
| `AssertionSafety.LateClaimIsAcceptedAgain` | src/auth/private_key_jwt.py:124-160 | without that, a run accepts one assertion twice |
| `AssertionSafety.RowsComeFromTheClient` | src/auth/private_key_jwt.py:119-160 | a row exists only for an assertion signed by a key registered to that client, naming it as issuer and subject and addressed to this server, at most 300 seconds from expiry when checked |
| `AssertionSafety.PurgeLeavesRecentRows` | src/auth/private_key_jwt.py:151-152 | after a purge every surviving row was written, and its assertion checked, within the last 300 seconds |
| `AssertionSafety.ClientsDoNotInterfere` | src/storage/migrations/002_client_assertions.sql:6-14 | removing all steps of other clients from a run changes none of this client's rows or outcomes |
| `Jwks.ParseKeys` | tests/resource_server/verifier.py:121-132 | the loop collects the usable keys by name |
| `Jwks.ParsedHoldsTheLastOfEachName` | tests/resource_server/verifier.py:121-132 | a name is known exactly when a usable entry has it, and then with the last such entry |
| `Jwks.FetchYieldsWhatItPublishes` | tests/resource_server/verifier.py:98-135 | a fetch yields exactly the last usable key of each name in the answer of the configured issuer; of another issuer, nothing |
| `Jwks.ServedKeysAreTheKey` | src/api/routes.py:81-83 | what the server publishes is read by the resource server as exactly its one key |
| `Jwks.AuthorizationServerVerifier.Refresh` | tests/resource_server/verifier.py:91-139 | the limiter's decision, each refusal, and the three fields afterwards; a failed fetch leaves them alone |
| `Jwks.AuthorizationServerVerifier.KeyFor` | tests/resource_server/verifier.py:71-89 | undisturbed, the cache afterwards and the key or refusal of `LookedUp`, which `LookUpMeans` and `KeyForAlone` characterise |
| `Jwks.LookUpMeans` | tests/resource_server/verifier.py:71-89 | a cached key costs no fetch; a returned key is cached under its name afterwards and one refused as unpublished is not; the cache is as before or what an attempt stored; any other refusal is a failed fetch's |
| `Jwks.LimiterHoldsBack` | tests/resource_server/verifier.py:91-97 | with a current cache, an unknown name is refused without a fetch while the limiter holds |
| `Jwks.AuthorizationServerVerifier.Validate` | tests/resource_server/verifier.py:42-69 | only a genuine token for the configured audience is accepted; undisturbed, the cache and answer of `Validated`, decided by `ValidatedExactlyWhen` |
| `Jwks.ValidatedExactlyWhen` | tests/resource_server/verifier.py:42-69 | whatever the keys, exactly the genuine tokens of the configured issuer and audience are accepted that are signed with the key looked up under their name |
| `JwksConcurrency.ReturnedKeysAreFresh` | tests/resource_server/verifier.py:71-139 | a returned key was published under its name in an answer of the configured issuer, received less than the cache lifetime before the call read its clock, or after that, in every interleaving of lock-free readers with the writer |
| `JwksConcurrency.SuccessesAreSpaced` | tests/resource_server/verifier.py:91-139 | successful fetches lie at least the smaller of the two intervals apart, each from the next |
| `JwksConcurrency.SuccessesInWindow` | tests/resource_server/verifier.py:91-139 | so a window of length w holds at most 1 + w / interval of them |
| `Parity.VerifiersAgree` | tests/resource_server/verifier.py:42-85 | in every reachable cache state the resource server accepts a token exactly when the local verifier does and the key fetch did not fail, with the same claims; both accept only tokens that are genuine for the configured audience |
| `Parity.CacheHoldsOnlyTheServedKey` | tests/resource_server/verifier.py:121-139 | the cache never holds anything but the published key |
| `EndToEnd.ReleasedIsAcceptedExactlyWhen` | tests/resource_server/verifier.py:42-85 | in every reachable state of both servers, a released token is accepted exactly when its row names the resource server's audience, the moment is within the signed lifetime and no fetch failed |
| `EndToEnd.ValidateAcceptsReleasedExactlyWhen` | tests/resource_server/verifier.py:42-89 | the same of `validate` undisturbed |
| `Undisturbed.ExchangeAlone` | src/grants/token_exchange.py:58-106 | the steps of an exchange, run together, resolve exactly what the whole `resolve` does |
| `Undisturbed.VerifyAlone` | src/auth/private_key_jwt.py:95-160 | check and claim, run together, are `verify`: they pass exactly for a proof of the client |
| `Undisturbed.FirstStartAlone` | src/crypto/keys.py:72-143 | a process that starts alone publishes and returns its key, with the disk as the method leaves it |
| `UndisturbedCache.RefreshAlone` | tests/resource_server/verifier.py:91-139 | the steps of one refresh, run together, are `_refresh`, and the lock is free afterwards |
| `UndisturbedCache.KeyForAlone` | tests/resource_server/verifier.py:71-89 | the steps of one call, run together, end in the cache and with the key or refusal that the method gives; no other call is touched |
| `UndisturbedCache.ValidateAlone` | tests/resource_server/verifier.py:42-69 | what the method answers is the verdict on that call |
| `UndisturbedCache.ValidateAgreesWithLocal` | tests/resource_server/verifier.py:42-89 | from any reachable state with the lock free, the method accepts only what the local verifier accepts, with the same claims, and refuses what that accepts only when a fetch it needed failed |

## Left out

- HTTP routing, response bodies, OpenAPI and the metadata document: plumbing and constants.
- Form parsing, credential extraction, the secret check and the timing equalisation: short checks, or not functional. Authentication appears as the choice of a registered client; the secret hash and the authentication method are not fields of it.
- ECDSA, SHA-256, PEM and base64: an ideal signature, an abstract codec and an abstract thumbprint stand for them. In published keys one coordinate stands for the identity of the key, and the `use` member is not kept.
- SQL, connection pools and migrations: tables are maps by primary key, a statement is atomic, and the database may be unreachable.
- `GrantResult.extra_claims` and the `ttl_seconds` argument of `mint`: no grant and no caller sets them.
- Fractional or textual time claims: `exp`, `iat` and `nbf` are whole numbers of seconds, and anything else is refused. An expiry beyond what Python's `datetime` can hold is refused as too far away, where the program raises.
- `may_act` beyond its check in the exchange: no grant writes it.
- The listing and counting of stored rows, and `root`, `holder`, `depth` and `describe`: one-line readers of the same state.
- Claim names are a datatype with one constructor per name the program reads; all other names are carried as text.
- Discovery and the key-set request are one fetch: the lock is held over both. A discovery document that is not a JSON object is not modelled.
- A failure to create the temporary key file is modelled as the process stopping there.
- Key rotation, revocation, the authorization code grant and DPoP: the repository describes them but has no code for them.
