/** The delegation chain of a signed token: one reader and one writer of `act`. */
module Delegation {
  import opened Outcomes
  import opened Json

  const MAXIMUM_CHAIN_DEPTH := 32

  function Malformed(description: string): Failure {
    OAuthError("invalid_grant", description, 400)
  }

  /** The plain reading of a chain: `ids` lists the subjects from the holder inwards, all of them. */
  ghost predicate Spells(claims: Claims, ids: seq<string>)
    decreases |ids|
  {
    && ids != []
    && ids[0] != ""
    && Get(claims, SUB) == Str(ids[0])
    && match Get(claims, ACT)
       case Null => |ids| == 1
       case Object(inner) => Spells(inner, ids[1..])
       case _ => false
  }

  /** The walk along `act`, with the identities met so far. */
  function ChainFrom(met: seq<string>, node: Value): Result<seq<string>>
    decreases node
  {
    match node
    case Null => Ok(met)
    case Object(inner) =>
      var _ :- Need(IsNonEmptyText(Get(inner, SUB)), Malformed("an act entry has no subject"));
      var ids := met + [inner[SUB].s];
      var _ :- Need(|ids| <= MAXIMUM_CHAIN_DEPTH, Malformed("act chain is too deep to read"));
      if ACT in inner then ChainFrom(ids, inner[ACT]) else Ok(ids)
    case _ => Err(Malformed("act must be an object"))
  }

  /** `chain`, on claims decoded from JSON (which cannot be cyclic). */
  function Chain(claims: Claims): Result<seq<string>> {
    var _ :- Need(IsNonEmptyText(Get(claims, SUB)), Malformed("token has no subject"));
    ChainFrom([claims[SUB].s], Get(claims, ACT))
  }

  function Nest(claims: Claims): Result<Value> {
    var _ :- Need(IsNonEmptyText(Get(claims, SUB)), Malformed("subject token has no subject"));
    var act := map[SUB := claims[SUB]];
    match Get(claims, ACT)
    case Null => Ok(Object(act))
    case Object(inner) => Ok(Object(act[ACT := Object(inner)]))
    case _ => Err(Malformed("act must be an object"))
  }

  /** `nest` as it is written: a dictionary filled in place. */
  method BuildAct(claims: Claims) returns (r: Result<Value>)
    ensures r == Nest(claims)
  {
    var subject := Get(claims, SUB);
    if !IsNonEmptyText(subject) {
      return Err(Malformed("subject token has no subject"));
    }
    var newAct: Claims := map[SUB := subject];
    var existing := Get(claims, ACT);
    if existing != Null {
      if !existing.Object? {
        return Err(Malformed("act must be an object"));
      }
      newAct := newAct[ACT := existing];
    }
    return Ok(Object(newAct));
  }

  function MayActPermits(claims: Claims, actor: string): Result<bool> {
    match Get(claims, MAY_ACT)
    case Null => Ok(true)
    case Object(m) => Ok(Get(m, SUB) == Str(actor))
    case List(entries) => Ok(exists i ::
      0 <= i < |entries| && entries[i].Object? && Get(entries[i].members, SUB) == Str(actor))
    case _ => Err(Malformed("may_act must be an object or a list of objects"))
  }

  function TextOrNone(v: Value, description: string): Result<Option<string>> {
    match v
    case Null => Ok(None)
    case Str(s) => if s != "" then Ok(Some(s)) else Err(Malformed(description))
    case _ => Err(Malformed(description))
  }

  function TaskOf(claims: Claims): Result<Option<string>> {
    TextOrNone(Get(claims, TASK_ID), "task_id must be a non-empty string")
  }

  function TenantOf(claims: Claims): Result<Option<string>> {
    TextOrNone(Get(claims, TENANT), "tenant must be a non-empty string")
  }

  function DeclaredDepth(claims: Claims): Result<nat> {
    var declared := Get(claims, DELEGATION_DEPTH);
    var _ :- Need(declared.Int? && declared.n >= 0, Malformed("token does not declare a delegation depth"));
    var ids :- Chain(claims);
    var _ :- Need(declared.n == |ids| - 1, Malformed("delegation depth disagrees with the act chain"));
    Ok(declared.n)
  }

  // ------------------------------------------------------------------------------- properties

  /** The walk from any point reads what the plain reading reads, as long as it fits. */
  lemma {:induction false} ChainFromReads(met: seq<string>, node: Value, ids: seq<string>)
    requires node.Object?
    ensures ChainFrom(met, node) == Ok(met + ids) && ids != []
       <==> Spells(node.members, ids) && |met| + |ids| <= MAXIMUM_CHAIN_DEPTH
    decreases node
  {
    var inner := node.members;
    if IsNonEmptyText(Get(inner, SUB)) && |met| < MAXIMUM_CHAIN_DEPTH {
      var met' := met + [inner[SUB].s];
      if ids != [] {
        assert met + ids == met + [ids[0]] + ids[1..];
      }
      if ACT in inner && inner[ACT].Object? {
        ChainFromGrows(met', inner[ACT]);
        if ids != [] {
          ChainFromReads(met', inner[ACT], ids[1..]);
          if ids[0] == inner[SUB].s {
            assert met + ids == met' + ids[1..];
          } else {
            assert (met + ids)[|met|] == ids[0] && met'[|met|] == inner[SUB].s;
          }
        }
      } else if ids != [] {
        assert (met + ids)[|met|] == ids[0];
        assert |ids| == 1 ==> ids == [ids[0]];
      }
    } else if ids != [] {
      assert |met| + |ids| > |met|;
    }
  }

  /** Walking only ever adds identities after those already met. */
  lemma {:induction false} ChainFromGrows(met: seq<string>, node: Value)
    ensures ChainFrom(met, node).Ok? ==>
              var ids := ChainFrom(met, node).value;
              |met| <= |ids| && ids[..|met|] == met && (node.Object? ==> |met| < |ids|)
    decreases node
  {
    if node.Object? && ChainFrom(met, node).Ok? && ACT in node.members {
      var met' := met + [node.members[SUB].s];
      ChainFromGrows(met', node.members[ACT]);
      var ids := ChainFrom(met, node).value;
      assert ids[..|met|] == ids[..|met'|][..|met|];
    }
  }

  /** `chain` succeeds exactly on the claims that spell at most 32 identities, and returns them. */
  lemma ChainReads(claims: Claims, ids: seq<string>)
    ensures Chain(claims) == Ok(ids) <==> Spells(claims, ids) && |ids| <= MAXIMUM_CHAIN_DEPTH
  {
    if IsNonEmptyText(Get(claims, SUB)) {
      var met := [claims[SUB].s];
      match Get(claims, ACT)
      case Null =>
        assert |ids| == 1 ==> ids == [ids[0]];
      case Object(inner) =>
        ChainFromGrows(met, Get(claims, ACT));
        if ids != [] {
          ChainFromReads(met, Get(claims, ACT), ids[1..]);
          assert ids == [ids[0]] + ids[1..];
        }
      case _ =>
    }
  }

  /** A token whose `act` is the nested subject token spells its own subject before that token's
    * whole chain: nothing added, dropped or reordered. */
  lemma NestPrependsHolder(parent: Claims, child: Claims, holder: string, ids: seq<string>)
    requires Chain(parent) == Ok(ids) && |ids| < MAXIMUM_CHAIN_DEPTH
    requires Nest(parent).Ok? && Get(child, ACT) == Nest(parent).value
    requires holder != "" && Get(child, SUB) == Str(holder)
    ensures Chain(child) == Ok([holder] + ids)
  {
    ChainReads(parent, ids);
    var act := Nest(parent).value.members;
    assert Get(act, SUB) == Get(parent, SUB) && Get(act, ACT) == Get(parent, ACT);
    assert Spells(act, ids);
    assert ([holder] + ids)[1..] == ids;
    ChainReads(child, [holder] + ids);
  }

  /** A declared depth is accepted exactly when it is one less than the number of identities spelled. */
  lemma DepthIsCrossChecked(claims: Claims, n: int)
    ensures DeclaredDepth(claims).Ok? && DeclaredDepth(claims).value == n
       <==> exists ids :: Spells(claims, ids) && |ids| <= MAXIMUM_CHAIN_DEPTH && n == |ids| - 1
                          && Get(claims, DELEGATION_DEPTH) == Int(n)
  {
    forall ids ensures Chain(claims) == Ok(ids) <==> Spells(claims, ids) && |ids| <= MAXIMUM_CHAIN_DEPTH {
      ChainReads(claims, ids);
    }
    if Chain(claims).Ok? {
      assert Spells(claims, Chain(claims).value);
    }
  }

  /** `may_act` permits an actor exactly when it is absent or names it, alone or in a list; anything that
    * is neither an object nor a list is refused. */
  lemma MayActNamesTheActor(claims: Claims, actor: string)
    ensures MayActPermits(claims, actor) == Ok(true) <==>
              || Get(claims, MAY_ACT) == Null
              || IsNamed(Get(claims, MAY_ACT), actor)
              || (Get(claims, MAY_ACT).List?
                  && exists i :: 0 <= i < |Get(claims, MAY_ACT).items| && IsNamed(Get(claims, MAY_ACT).items[i], actor))
    ensures MayActPermits(claims, actor).Err? <==>
              !(Get(claims, MAY_ACT).Null? || Get(claims, MAY_ACT).Object? || Get(claims, MAY_ACT).List?)
  {
  }

  predicate IsNamed(entry: Value, actor: string) {
    entry.Object? && SUB in entry.members && entry.members[SUB] == Str(actor)
  }

  /** The task and the tenant of a token are its claims: absent, or a text that is not empty. */
  lemma TaskAndTenantAreTheClaims(claims: Claims, s: string)
    ensures TaskOf(claims) == Ok(Some(s)) <==> Get(claims, TASK_ID) == Str(s) && s != ""
    ensures TaskOf(claims) == Ok(None) <==> Get(claims, TASK_ID) == Null
    ensures TenantOf(claims) == Ok(Some(s)) <==> Get(claims, TENANT) == Str(s) && s != ""
    ensures TenantOf(claims) == Ok(None) <==> Get(claims, TENANT) == Null
  {
  }

  predicate IsInvalidGrant(f: Failure) {
    f.OAuthError? && f.error == "invalid_grant" && f.status == 400
  }

  lemma {:induction false} WalkFailsAsInvalidGrant(met: seq<string>, node: Value)
    ensures ChainFrom(met, node).Err? ==> IsInvalidGrant(ChainFrom(met, node).failure)
    decreases node
  {
    if node.Object? && IsNonEmptyText(Get(node.members, SUB)) && ACT in node.members {
      WalkFailsAsInvalidGrant(met + [node.members[SUB].s], node.members[ACT]);
    }
  }

  /** A chain that cannot be read is always an invalid grant, never a crash. */
  lemma UnreadableChainIsInvalidGrant(claims: Claims)
    ensures Chain(claims).Err? ==> IsInvalidGrant(Chain(claims).failure)
  {
    if IsNonEmptyText(Get(claims, SUB)) {
      WalkFailsAsInvalidGrant([claims[SUB].s], Get(claims, ACT));
    }
  }

  lemma UnreadableDepthIsInvalidGrant(claims: Claims)
    ensures DeclaredDepth(claims).Err? ==> IsInvalidGrant(DeclaredDepth(claims).failure)
  {
    UnreadableChainIsInvalidGrant(claims);
  }

  /** And so are the other claims a hop reads. */
  lemma UnreadableClaimsAreInvalidGrants(claims: Claims, actor: string)
    ensures Nest(claims).Err? ==> IsInvalidGrant(Nest(claims).failure)
    ensures TaskOf(claims).Err? ==> IsInvalidGrant(TaskOf(claims).failure)
    ensures TenantOf(claims).Err? ==> IsInvalidGrant(TenantOf(claims).failure)
    ensures MayActPermits(claims, actor).Err? ==> IsInvalidGrant(MayActPermits(claims, actor).failure)
  {
  }

  /** Whatever can be read as a chain can be nested. */
  lemma ReadableCanBeNested(claims: Claims)
    requires Chain(claims).Ok?
    ensures Nest(claims).Ok? && Nest(claims).value.Object?
  {
  }
}
