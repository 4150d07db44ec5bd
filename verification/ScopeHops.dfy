/** What a chain of exchanges does to a scope, when no hop asks for less than it could have. */
module ScopeHops {
  import opened Outcomes
  import opened StringOrder
  import opened Scopes

  /** `parse_scope(form.get("scope")) or tuple(sorted(subject_scopes))`. */
  function Requested(asked: Option<string>, held: set<string>): seq<string> {
    if Parsed(asked) != [] then Parsed(asked) else Sorted(held)
  }

  /** One exchange, seen from its scopes alone: the scope string of the new token. */
  function Hop(held: string, asked: Option<string>, allowed: set<string>): Result<string> {
    var granted :- Attenuate(Requested(asked, ScopeSet(held)), [ScopeSet(held), allowed]);
    Ok(Joined(granted))
  }

  /** Successive exchanges without a scope parameter, by clients with the given registrations. */
  function Hops(held: string, allowed: seq<set<string>>): Result<string>
    decreases |allowed|
  {
    if allowed == [] then Ok(held) else
      var next :- Hop(held, None, allowed[0]);
      Hops(next, allowed[1..])
  }

  /** The scopes that every listed registration also allows. */
  function Surviving(s: set<string>, allowed: seq<set<string>>): set<string> {
    set w | w in s && WithinAll(w, allowed)
  }

  lemma RequestIsScopeList(asked: Option<string>, held: string)
    ensures IsScopeList(Requested(asked, ScopeSet(held)))
    ensures Parsed(asked) == [] ==> forall w :: w in Requested(asked, ScopeSet(held)) <==> w in ScopeSet(held)
  {
    ParsedIsScopeList(asked);
    ParsedIsScopeList(Some(held));
    SortedListsTheSet(ScopeSet(held));
  }

  lemma HopGrants(held: string, asked: Option<string>, allowed: set<string>)
    ensures var s := ScopeSet(held);
            var requested := Requested(asked, s);
            var granted := Kept(requested, [s, allowed]);
            && Hop(held, asked, allowed)
            == (if requested != [] && granted == [] then Err(NO_SCOPE_ALLOWED) else Ok(Joined(granted)))
            && ScopeSet(Joined(granted)) == Elements(granted)
            && (forall w :: w in granted <==> w in requested && w in s && w in allowed)
            && IsScopeList(granted)
  {
    var s := ScopeSet(held);
    var requested := Requested(asked, s);
    var granted := Kept(requested, [s, allowed]);
    RequestIsScopeList(asked, held);
    AttenuateGrantsTheIntersection(requested, [s, allowed]);
    KeptIsIntersection(requested, [s, allowed]);
    PrintedScopesParseBack(granted);
    assert forall w :: WithinAll(w, [s, allowed]) <==> w in s && w in allowed by {
      assert [s, allowed][0] == s && [s, allowed][1] == allowed;
    }
    if granted != [] { assert granted[0] in granted; }
  }

  /** What one hop leaves, for any request: no more than the held scopes and the registration both
    * allow, and all of that when nothing narrower was asked for. */
  lemma HopShrinks(held: string, asked: Option<string>, allowed: set<string>)
    ensures var h := Hop(held, asked, allowed);
            h.Ok? ==> ScopeSet(h.value) <= ScopeSet(held) * allowed
    ensures var h := Hop(held, asked, allowed);
            h.Ok? && Parsed(asked) == [] ==> ScopeSet(h.value) == ScopeSet(held) * allowed
  {
    HopGrants(held, asked, allowed);
    RequestIsScopeList(asked, held);
  }

  /** The scope string of a hop, exactly: of what was asked for, or else of all that is held in ascending
    * order, the part that is held and allowed, in that order. */
  ghost predicate IsHopScope(scope: string, held: set<string>, asked: Option<string>, allowed: set<string>) {
    var wanted := if Parsed(asked) != [] then Parsed(asked) else Sorted(held);
    && scope == Joined(Kept(wanted, [held, allowed]))
    && ScopeSet(scope) == Elements(wanted) * held * allowed
  }

  /** The scope string of a root, exactly: the part of what was asked for that is allowed, in that order. */
  ghost predicate IsRootScope(scope: string, asked: Option<string>, allowed: set<string>) {
    && scope == Joined(Kept(Parsed(asked), [allowed]))
    && ScopeSet(scope) == Elements(Parsed(asked)) * allowed
  }

  lemma HopScopeIsExact(held: string, asked: Option<string>, allowed: set<string>)
    ensures var s := ScopeSet(held);
            IsHopScope(Joined(Kept(Requested(asked, s), [s, allowed])), s, asked, allowed)
  {
    HopGrants(held, asked, allowed);
  }

  /** Without a scope parameter that is all that is held and allowed. */
  lemma PlainHopScope(scope: string, held: set<string>, asked: Option<string>, allowed: set<string>)
    requires IsHopScope(scope, held, asked, allowed)
    ensures ScopeSet(scope) <= held * allowed
    ensures Parsed(asked) == [] ==> ScopeSet(scope) == held * allowed
  {
    SortedHasElements(held);
  }

  lemma RootScopeIsExact(asked: Option<string>, allowed: set<string>)
    ensures IsRootScope(Joined(Kept(Parsed(asked), [allowed])), asked, allowed)
  {
    var requested := Parsed(asked);
    ParsedIsScopeList(asked);
    KeptIsIntersection(requested, [allowed]);
    PrintedScopesParseBack(Kept(requested, [allowed]));
    assert forall w :: WithinAll(w, [allowed]) <==> w in allowed by {
      assert [allowed][0] == allowed;
    }
  }

  lemma {:induction false} KeptOfSorted(s: set<string>, ceilings: seq<set<string>>)
    ensures Kept(Sorted(s), ceilings) == Sorted(Surviving(s, ceilings))
    decreases |s|
  {
    if s == {} {
      assert Surviving(s, ceilings) == {};
    } else {
      var m := Least(s);
      assert |s - {m}| < |s|;
      KeptOfSorted(s - {m}, ceilings);
      var t, u := Surviving(s, ceilings), Surviving(s - {m}, ceilings);
      assert Sorted(s)[0] == m && Sorted(s)[1..] == Sorted(s - {m});
      if WithinAll(m, ceilings) {
        assert IsLeast(m, t);
        LeastIsUnique(t);
        assert u == t - {m};
      } else {
        assert u == t;
      }
    }
  }

  lemma PairSurvives(s: set<string>, allowed: set<string>)
    ensures Surviving(s, [s, allowed]) == s * allowed
  {
    assert [s, allowed][0] == s && [s, allowed][1] == allowed;
    assert forall w :: WithinAll(w, [s, allowed]) <==> w in s && w in allowed;
  }

  lemma SortedHasElements(s: set<string>)
    ensures Elements(Sorted(s)) == s
    ensures Sorted(s) == [] <==> s == {}
  {
    SortedListsTheSet(s);
    if s != {} {
      assert Least(s) in s;
    }
  }

  /** One hop without a scope parameter, in closed form. */
  lemma PlainHop(held: string, allowed: set<string>)
    ensures var s := ScopeSet(held);
            Hop(held, None, allowed)
            == if s != {} && s * allowed == {} then Err(NO_SCOPE_ALLOWED) else Ok(Joined(Sorted(s * allowed)))
    ensures ScopeSet(Joined(Sorted(ScopeSet(held) * allowed))) == ScopeSet(held) * allowed
  {
    var s := ScopeSet(held);
    HopGrants(held, None, allowed);
    KeptOfSorted(s, [s, allowed]);
    PairSurvives(s, allowed);
    SortedHasElements(s);
    SortedHasElements(s * allowed);
  }

  /** Closed form over any number of hops: the surviving scopes are the root's intersected with every
    * registration on the way. Some hop refuses exactly when the root holds scopes and none survives. */
  lemma {:induction false} HopsClosedForm(held: string, allowed: seq<set<string>>)
    requires allowed != []
    ensures var s := ScopeSet(held);
            var left := Surviving(s, allowed);
            && Hops(held, allowed)
            == (if s != {} && left == {} then Err(NO_SCOPE_ALLOWED) else Ok(Joined(Sorted(left))))
            && ScopeSet(Joined(Sorted(left))) == left
    decreases |allowed|
  {
    var s := ScopeSet(held);
    var next := s * allowed[0];
    PlainHop(held, allowed[0]);
    assert allowed == [allowed[0]] + allowed[1..];
    assert forall w :: WithinAll(w, allowed) <==> w in allowed[0] && WithinAll(w, allowed[1..]);
    assert Surviving(s, allowed) == Surviving(next, allowed[1..]);
    if |allowed| == 1 {
      assert Surviving(s, allowed) == next;
    } else {
      HopsClosedForm(Joined(Sorted(next)), allowed[1..]);
    }
  }

  /** The outcome, down to the scope string, does not depend on the order of the hops. */
  lemma HopOrderDoesNotMatter(held: string, first: seq<set<string>>, second: seq<set<string>>)
    requires multiset(first) == multiset(second)
    ensures Hops(held, first) == Hops(held, second)
  {
    assert |first| == |multiset(first)| == |multiset(second)| == |second|;
    if first != [] {
      HopsClosedForm(held, first);
      HopsClosedForm(held, second);
      forall w
        ensures WithinAll(w, first) <==> WithinAll(w, second)
      {
        assert forall i :: 0 <= i < |first| ==> first[i] in multiset(second);
        assert forall i :: 0 <= i < |second| ==> second[i] in multiset(first);
      }
      assert Surviving(ScopeSet(held), first) == Surviving(ScopeSet(held), second);
    }
  }
}
