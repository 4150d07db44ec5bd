/** `chain` as it is written: a loop over Python dictionaries, which may share entries or be cyclic. */
module ObjectGraph {
  import opened Outcomes
  import opened Json
  import opened Delegation

  /** What a dictionary entry can hold, as far as `chain` tells values apart. */
  datatype Field = Nothing | Text(s: string) | Ref(dict: Dict) | Other

  /** A Python dictionary. Two dictionaries are the same when they are the same object. */
  class Dict {
    var members: map<Name, Field>

    constructor (members: map<Name, Field>)
      ensures this.members == members
    {
      this.members := members;
    }

    function Get(name: Name): Field
      reads this
    {
      if name in members then members[name] else Nothing
    }
  }

  /** `ids` is the plain reading of the object: its subject, then the plain reading of its `act`. */
  ghost predicate Reads(d: Dict, ids: seq<string>)
    reads *
    decreases |ids|
  {
    && ids != []
    && ids[0] != ""
    && d.Get(SUB) == Text(ids[0])
    && match d.Get(ACT)
       case Nothing => |ids| == 1
       case Ref(inner) => Reads(inner, ids[1..])
       case _ => false
  }

  lemma {:induction false} ReadingIsUnique(d: Dict, ids: seq<string>, others: seq<string>)
    requires Reads(d, ids) && Reads(d, others)
    ensures ids == others
    decreases |ids|
  {
    match d.Get(ACT)
    case Nothing =>
    case Ref(inner) =>
      ReadingIsUnique(inner, ids[1..], others[1..]);
      assert ids == [ids[0]] + ids[1..] && others == [others[0]] + others[1..];
    case _ =>
  }

  /** The walk has reached `node` (nothing, or an object) having met `ids`, one per object in `path`. */
  ghost predicate Walked(claims: Dict, path: seq<Dict>, ids: seq<string>, node: Field)
    reads *
  {
    && |path| == |ids| > 0
    && path[0] == claims
    && node == path[|path| - 1].Get(ACT)
    && (forall i :: 0 <= i < |path| ==> ids[i] != "" && path[i].Get(SUB) == Text(ids[i]))
    && (forall i :: 0 < i < |path| ==> path[i - 1].Get(ACT) == Ref(path[i]))
  }

  lemma PrefixStep(ids: seq<string>, i: nat, all: seq<string>)
    requires i < |ids| && all != []
    ensures |ids| - i <= |all| && ids[i..] == all[..|ids| - i]
       <==> ids[i] == all[0] && |ids| - i - 1 <= |all[1..]| && ids[i + 1..] == all[1..][..|ids| - i - 1]
    ensures |ids| - i <= |all| ==> all[1..][|ids| - i - 1..] == all[|ids| - i..]
  {
    var n := |ids| - i;
    assert ids[i..] == [ids[i]] + ids[i + 1..];
    if n <= |all| {
      assert all[..n] == [all[0]] + all[1..][..n - 1];
    }
  }

  /** A reading of the start, if there is one, is what was met followed by a reading of the rest. */
  lemma {:induction false} ReadingFollowsWalk(claims: Dict, path: seq<Dict>, ids: seq<string>, node: Field, i: nat,
                                              all: seq<string>)
    requires Walked(claims, path, ids, node) && i < |path|
    ensures Reads(path[i], all) <==>
              && |path| - i <= |all|
              && ids[i..] == all[..|path| - i]
              && (if node.Ref? then Reads(node.dict, all[|path| - i..]) else node.Nothing? && |all| == |path| - i)
    decreases |path| - i
  {
    if all != [] {
      PrefixStep(ids, i, all);
      if i + 1 < |path| {
        ReadingFollowsWalk(claims, path, ids, node, i + 1, all[1..]);
      }
    }
  }

  /** An object that the walk meets twice has no plain reading, however long. */
  lemma RevisitHasNoReading(claims: Dict, path: seq<Dict>, ids: seq<string>, node: Field, i: nat)
    requires Walked(claims, path, ids, node) && i < |path| && node == Ref(path[i])
    ensures forall all :: !Reads(claims, all)
  {
    forall all | Reads(claims, all)
      ensures false
    {
      ReadingFollowsWalk(claims, path, ids, node, 0, all);
      var rest := all[|path|..];
      ReadingFollowsWalk(claims, path, ids, node, i, rest);
      ReadingIsUnique(path[i], rest, rest[|path| - i..]);
    }
  }

  /** Every reading of the start is at least as long as the walk. Where the walk cannot go on there is
    * none. */
  lemma ReadingsGoOn(claims: Dict, path: seq<Dict>, ids: seq<string>, node: Field)
    requires Walked(claims, path, ids, node)
    ensures forall all :: Reads(claims, all) ==> |all| >= |path|
    ensures !node.Nothing? && (!node.Ref? || !HasSubject(node.dict)) ==> forall all :: !Reads(claims, all)
    ensures node.Nothing? ==> Reads(claims, ids)
  {
    forall all | Reads(claims, all)
      ensures |all| >= |path|
      ensures node.Nothing? || (node.Ref? && HasSubject(node.dict))
    {
      ReadingFollowsWalk(claims, path, ids, node, 0, all);
    }
    if node.Nothing? {
      ReadingFollowsWalk(claims, path, ids, node, 0, ids);
      assert ids[0..] == ids[..|path|];
    }
  }

  predicate HasSubject(d: Dict)
    reads d
  {
    d.Get(SUB).Text? && d.Get(SUB).s != ""
  }

  lemma WalkExtends(claims: Dict, path: seq<Dict>, ids: seq<string>, next: Dict)
    requires Walked(claims, path, ids, Ref(next)) && HasSubject(next)
    ensures Walked(claims, path + [next], ids + [next.Get(SUB).s], next.Get(ACT))
  {
  }

  /** `chain`. It succeeds exactly when the object has a plain reading of at most 32 identities, and
    * then returns that reading. The set of objects already seen appears nowhere in that condition: it
    * only decides which error a cyclic object gets. The loop runs at most 32 times. */
  method Chain(claims: Dict) returns (r: Result<seq<string>>, ghost iterations: nat)
    ensures r.Ok? ==> Reads(claims, r.value) && |r.value| <= MAXIMUM_CHAIN_DEPTH
    ensures r.Err? ==> forall all :: Reads(claims, all) ==> |all| > MAXIMUM_CHAIN_DEPTH
    ensures r == Err(Malformed("act chain refers to itself")) ==> forall all :: !Reads(claims, all)
    ensures iterations <= MAXIMUM_CHAIN_DEPTH
  {
    iterations := 0;
    var subject := claims.Get(SUB);
    if !subject.Text? || subject.s == "" {
      return Err(Malformed("token has no subject")), iterations;
    }
    var identities := [subject.s];
    var seen := {claims};
    var node := claims.Get(ACT);
    ghost var path := [claims];

    while node != Nothing
      invariant Walked(claims, path, identities, node)
      invariant iterations == |identities| - 1 < MAXIMUM_CHAIN_DEPTH
      invariant forall d :: d in seen <==> d in path
      decreases MAXIMUM_CHAIN_DEPTH - iterations
    {
      iterations := iterations + 1;
      ReadingsGoOn(claims, path, identities, node);
      if !node.Ref? {
        return Err(Malformed("act must be an object")), iterations;
      }
      if node.dict in seen {
        ghost var i :| 0 <= i < |path| && path[i] == node.dict;
        RevisitHasNoReading(claims, path, identities, node, i);
        return Err(Malformed("act chain refers to itself")), iterations;
      }
      seen := seen + {node.dict};
      var actor := node.dict.Get(SUB);
      if !actor.Text? || actor.s == "" {
        return Err(Malformed("an act entry has no subject")), iterations;
      }
      WalkExtends(claims, path, identities, node.dict);
      identities := identities + [actor.s];
      path := path + [node.dict];
      ReadingsGoOn(claims, path, identities, node.dict.Get(ACT));
      if |identities| > MAXIMUM_CHAIN_DEPTH {
        return Err(Malformed("act chain is too deep to read")), iterations;
      }
      node := node.dict.Get(ACT);
    }
    ReadingsGoOn(claims, path, identities, node);
    return Ok(identities), iterations;
  }

  /** The objects that decoding a JSON text leaves behind: a tree, entry by entry. */
  ghost predicate Decoded(f: Field, v: Value)
    reads *
    decreases v
  {
    match v
    case Null => f == Nothing
    case Str(s) => f == Text(s)
    case Object(m) =>
      && f.Ref?
      && (if SUB in m then Decoded(f.dict.Get(SUB), m[SUB]) else f.dict.Get(SUB) == Nothing)
      && (if ACT in m then Decoded(f.dict.Get(ACT), m[ACT]) else f.dict.Get(ACT) == Nothing)
    case _ => f == Other
  }

  /** On decoded claims the two readings agree, so the loop and `Delegation.Chain` accept the same
    * tokens with the same identities. */
  lemma {:induction false} DecodedClaimsReadAlike(d: Dict, claims: Claims, ids: seq<string>)
    requires Decoded(Ref(d), Object(claims))
    ensures Reads(d, ids) <==> Spells(claims, ids)
    decreases |ids|
  {
    if ids != [] && ACT in claims && claims[ACT].Object? {
      DecodedClaimsReadAlike(d.Get(ACT).dict, claims[ACT].members, ids[1..]);
    }
  }
}
