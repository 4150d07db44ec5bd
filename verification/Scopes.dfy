/** Scope strings (section 3.3 of RFC 6749): parsing, printing, and the one attenuation step. */
module Scopes {
  import opened Outcomes

  /** The characters `str.split()` separates words at. */
  predicate IsSpace(c: char) {
    || '\U{0009}' <= c <= '\U{000D}'
    || '\U{001C}' <= c <= '\U{0020}'
    || c == '\U{0085}' || c == '\U{00A0}' || c == '\U{1680}'
    || '\U{2000}' <= c <= '\U{200A}'
    || c == '\U{2028}' || c == '\U{2029}' || c == '\U{202F}' || c == '\U{205F}' || c == '\U{3000}'
  }

  predicate IsWord(w: string) {
    w != "" && forall k :: 0 <= k < |w| ==> !IsSpace(w[k])
  }

  /** Where the next word starts, at or after `i`. */
  function WordStart(s: string, i: nat): (n: nat)
    requires i <= |s|
    ensures i <= n <= |s|
    ensures forall k :: i <= k < n ==> IsSpace(s[k])
    ensures n < |s| ==> !IsSpace(s[n])
    decreases |s| - i
  {
    if i == |s| || !IsSpace(s[i]) then i else WordStart(s, i + 1)
  }

  /** Where the word that starts at `i` ends. */
  function WordEnd(s: string, i: nat): (n: nat)
    requires i <= |s|
    ensures i <= n <= |s|
    ensures forall k :: i <= k < n ==> !IsSpace(s[k])
    ensures n < |s| ==> IsSpace(s[n])
    decreases |s| - i
  {
    if i == |s| || IsSpace(s[i]) then i else WordEnd(s, i + 1)
  }

  /** `value.split()`. */
  function Words(s: string): seq<string>
    decreases |s|
  {
    var i := WordStart(s, 0);
    if i == |s| then [] else
      var k := WordEnd(s, i);
      [s[i..k]] + Words(s[k..])
  }

  /** The words already met are dropped; the first occurrence keeps its place. */
  function Distinct(ws: seq<string>): seq<string> {
    if ws == [] then [] else
      var w, r := ws[|ws| - 1], Distinct(ws[..|ws| - 1]);
      if w in r then r else r + [w]
  }

  predicate NoRepeats(r: seq<string>) {
    forall i, j :: 0 <= i < j < |r| ==> r[i] != r[j]
  }

  /** What `parse_scope` returns. */
  function Parsed(value: Option<string>): seq<string> {
    match value
    case None => []
    case Some(v) => Distinct(Words(v))
  }

  /** A list `parse_scope` can return, and so one that survives printing. */
  predicate IsScopeList(r: seq<string>) {
    NoRepeats(r) && forall w :: w in r ==> IsWord(w)
  }

  function Elements(r: seq<string>): set<string> {
    set w | w in r
  }

  /** The scopes a stored or signed scope string stands for. */
  function ScopeSet(scope: string): set<string> {
    Elements(Parsed(Some(scope)))
  }

  method ParseScope(value: Option<string>) returns (scopes: seq<string>)
    ensures scopes == Parsed(value)
  {
    if value.None? || WordStart(value.value, 0) == |value.value| {
      return [];
    }
    var words := Words(value.value);
    scopes := [];
    for i := 0 to |words|
      invariant scopes == Distinct(words[..i])
    {
      assert words[..i + 1][..i] == words[..i];
      if words[i] !in scopes {
        scopes := scopes + [words[i]];
      }
    }
    assert words[..|words|] == words;
  }

  /** `" ".join(scopes)`. */
  function Joined(ws: seq<string>): string {
    if ws == [] then "" else if |ws| == 1 then ws[0] else ws[0] + " " + Joined(ws[1..])
  }

  // ---------------------------------------------------------------- splitting finds the runs

  /** `s[i..j]` is a maximal run of characters that are not white space. */
  predicate IsRun(s: string, i: int, j: int) {
    && 0 <= i < j <= |s|
    && !IsSpace(s[i])
    && (forall k :: i <= k < j ==> !IsSpace(s[k]))
    && (i == 0 || IsSpace(s[i - 1]))
    && (j == |s| || IsSpace(s[j]))
  }

  ghost predicate HasRun(s: string, w: string) {
    exists i, j :: IsRun(s, i, j) && s[i..j] == w
  }

  lemma RunIsHeadOrLater(s: string, i0: nat, k: nat, i: int, j: int)
    requires IsRun(s, i0, k) && IsRun(s, i, j)
    requires forall m :: 0 <= m < i0 ==> IsSpace(s[m])
    ensures (i == i0 && j == k) || (IsRun(s[k..], i - k, j - k) && s[i..j] == s[k..][i - k..j - k])
  {
    assert !IsSpace(s[i]);
    assert i >= i0;
    if i > k {
      var rest := s[k..];
      assert forall m :: 0 <= m < |rest| ==> rest[m] == s[m + k];
      assert IsRun(rest, i - k, j - k);
    } else {
      assert i == i0;
    }
  }

  lemma RunAfterHead(s: string, k: nat, i: int, j: int)
    requires 0 < k <= |s| && (k < |s| ==> IsSpace(s[k])) && IsRun(s[k..], i, j)
    ensures IsRun(s, i + k, j + k) && s[i + k..j + k] == s[k..][i..j]
  {
    var rest := s[k..];
    assert forall m :: 0 <= m < |rest| ==> rest[m] == s[m + k];
    assert !IsSpace(rest[i]);
    forall m | i + k <= m < j + k ensures !IsSpace(s[m]) {
      assert rest[m - k] == s[m];
    }
  }

  ghost predicate RunAt(s: string, run: (int, int), w: string) {
    IsRun(s, run.0, run.1) && s[run.0..run.1] == w
  }

  ghost predicate AllRunsIn(s: string, at: seq<(int, int)>) {
    forall i, j :: IsRun(s, i, j) ==> (i, j) in at
  }

  predicate LeftToRight(at: seq<(int, int)>) {
    forall k, m :: 0 <= k < m < |at| ==> at[k].1 <= at[m].0
  }

  /** `ws` lists the maximal runs of the string, all of them, once each, from left to right; `at` says
    * where each is. */
  ghost predicate ListsRuns(s: string, ws: seq<string>, at: seq<(int, int)>) {
    && |ws| == |at|
    && (forall k :: 0 <= k < |at| ==> RunAt(s, at[k], ws[k]))
    && LeftToRight(at)
    && AllRunsIn(s, at)
  }

  function Shifted(at: seq<(int, int)>, n: int): seq<(int, int)> {
    seq(|at|, k requires 0 <= k < |at| => (at[k].0 + n, at[k].1 + n))
  }

  lemma ShiftedRunsAreRuns(s: string, n: nat, ws: seq<string>, at: seq<(int, int)>)
    requires 0 < n <= |s| && (n < |s| ==> IsSpace(s[n])) && |ws| == |at|
    requires forall k :: 0 <= k < |at| ==> RunAt(s[n..], at[k], ws[k])
    ensures forall k :: 0 <= k < |at| ==> RunAt(s, Shifted(at, n)[k], ws[k]) && n <= Shifted(at, n)[k].0
  {
    forall k | 0 <= k < |at|
      ensures RunAt(s, Shifted(at, n)[k], ws[k]) && n <= Shifted(at, n)[k].0
    {
      assert RunAt(s[n..], at[k], ws[k]);
      RunAfterHead(s, n, at[k].0, at[k].1);
    }
  }

  lemma AllRunsAreHeadOrLater(s: string, i0: nat, k0: nat, at: seq<(int, int)>)
    requires IsRun(s, i0, k0) && AllRunsIn(s[k0..], at)
    requires forall m :: 0 <= m < i0 ==> IsSpace(s[m])
    ensures AllRunsIn(s, [(i0, k0)] + Shifted(at, k0))
  {
    forall i, j | IsRun(s, i, j)
      ensures (i, j) in [(i0, k0)] + Shifted(at, k0)
    {
      RunIsHeadOrLater(s, i0, k0, i, j);
      if !(i == i0 && j == k0) {
        ShiftedHas(at, k0, i - k0, j - k0);
      }
    }
  }

  lemma ShiftedHas(at: seq<(int, int)>, n: int, i: int, j: int)
    requires (i, j) in at
    ensures (i + n, j + n) in Shifted(at, n)
  {
    var m :| 0 <= m < |at| && at[m] == (i, j);
    assert Shifted(at, n)[m] == (i + n, j + n);
  }

  lemma HeadThenLater(s: string, head: (int, int), w: string, later: seq<(int, int)>, ws: seq<string>)
    requires |ws| == |later| && RunAt(s, head, w) && LeftToRight(later)
    requires forall k :: 0 <= k < |later| ==> RunAt(s, later[k], ws[k]) && head.1 <= later[k].0
    ensures LeftToRight([head] + later)
    ensures forall k :: 0 <= k < |later| + 1 ==> RunAt(s, ([head] + later)[k], ([w] + ws)[k])
  {
    forall k | 0 <= k < |later| + 1
      ensures RunAt(s, ([head] + later)[k], ([w] + ws)[k])
    {
      if k > 0 {
        assert RunAt(s, later[k - 1], ws[k - 1]);
      }
    }
  }

  lemma FirstRunThenRest(s: string, i0: nat, k0: nat, ws: seq<string>, at: seq<(int, int)>)
    requires IsRun(s, i0, k0) && ListsRuns(s[k0..], ws, at)
    requires forall m :: 0 <= m < i0 ==> IsSpace(s[m])
    ensures ListsRuns(s, [s[i0..k0]] + ws, [(i0, k0)] + Shifted(at, k0))
  {
    ShiftedRunsAreRuns(s, k0, ws, at);
    HeadThenLater(s, (i0, k0), s[i0..k0], Shifted(at, k0), ws);
    AllRunsAreHeadOrLater(s, i0, k0, at);
  }

  /** Splitting lists exactly the maximal runs, in order, whatever white space separates them. */
  lemma {:induction false} WordsAreTheRunsInOrder(s: string)
    ensures exists at :: ListsRuns(s, Words(s), at)
    decreases |s|
  {
    var i := WordStart(s, 0);
    if i < |s| {
      var k := WordEnd(s, i);
      WordsAreTheRunsInOrder(s[k..]);
      var at :| ListsRuns(s[k..], Words(s[k..]), at);
      FirstRunThenRest(s, i, k, Words(s[k..]), at);
      assert ListsRuns(s, Words(s), [(i, k)] + Shifted(at, k));
    } else {
      var none: seq<(int, int)> := [];
      assert ListsRuns(s, Words(s), none);
    }
  }

  /** In particular a word is in the result exactly when it is such a run. */
  lemma WordsAreTheMaximalRuns(s: string, w: string)
    ensures w in Words(s) <==> HasRun(s, w)
  {
    WordsAreTheRunsInOrder(s);
    var at: seq<(int, int)> :| ListsRuns(s, Words(s), at);
    if w in Words(s) {
      var k :| 0 <= k < |at| && Words(s)[k] == w;
      assert RunAt(s, at[k], Words(s)[k]);
    }
  }

  // ------------------------------------------------------------------- printing and parsing back

  lemma {:induction false} WordStartIs(s: string, i: nat, n: nat)
    requires i <= n <= |s|
    requires forall k :: i <= k < n ==> IsSpace(s[k])
    requires n < |s| ==> !IsSpace(s[n])
    ensures WordStart(s, i) == n
    decreases n - i
  {
    if i < n { WordStartIs(s, i + 1, n); }
  }

  lemma {:induction false} WordEndIs(s: string, i: nat, n: nat)
    requires i <= n <= |s|
    requires forall k :: i <= k < n ==> !IsSpace(s[k])
    requires n < |s| ==> IsSpace(s[n])
    ensures WordEnd(s, i) == n
    decreases n - i
  {
    if i < n { WordEndIs(s, i + 1, n); }
  }

  lemma WordsFirst(s: string, i: nat, k: nat, w: string, rest: string)
    requires IsRun(s, i, k) && w == s[i..k] && rest == s[k..]
    requires forall m :: 0 <= m < i ==> IsSpace(s[m])
    ensures Words(s) == [w] + Words(rest)
  {
    WordStartIs(s, 0, i);
    WordEndIs(s, i, k);
  }

  lemma WordsOfWordThen(w: string, rest: string)
    requires IsWord(w)
    requires rest == "" || IsSpace(rest[0])
    ensures Words(w + rest) == [w] + Words(rest)
  {
    var s := w + rest;
    assert s[0] == w[0] && s[0..|w|] == w && s[|w|..] == rest;
    WordsFirst(s, 0, |w|, w, rest);
  }

  lemma RunBehindBlank(t: string, i: int, k: int)
    requires t != "" && IsSpace(t[0]) && IsRun(t[1..], i, k)
    ensures IsRun(t, i + 1, k + 1) && t[1..][i..k] == t[i + 1..k + 1] && t[1..][k..] == t[k + 1..]
  {
    var s := t[1..];
    assert !IsSpace(s[i]);
    forall m | i + 1 <= m < k + 1 ensures !IsSpace(t[m]) {
      assert t[m] == s[m - 1];
    }
  }

  lemma BlankPrefix(t: string, n: int)
    requires t != "" && IsSpace(t[0]) && 0 <= n < |t|
    requires forall m :: 0 <= m < n ==> IsSpace(t[1..][m])
    ensures forall m :: 0 <= m < n + 1 ==> IsSpace(t[m])
  {
    forall m | 0 <= m < n + 1 ensures IsSpace(t[m]) {
      if m > 0 { assert t[m] == t[1..][m - 1]; }
    }
  }

  lemma BlankThenRun(t: string, i: int, k: int)
    requires t != "" && IsSpace(t[0]) && IsRun(t[1..], i, k)
    requires forall m :: 0 <= m < i ==> IsSpace(t[1..][m])
    ensures Words(t) == [t[1..][i..k]] + Words(t[1..][k..])
  {
    RunBehindBlank(t, i, k);
    BlankPrefix(t, i);
    WordsFirst(t, i + 1, k + 1, t[1..][i..k], t[1..][k..]);
  }

  lemma BlankThenNothing(t: string)
    requires t != "" && IsSpace(t[0])
    requires forall m :: 0 <= m < |t| - 1 ==> IsSpace(t[1..][m])
    ensures Words(t) == []
  {
    BlankPrefix(t, |t| - 1);
    WordStartIs(t, 0, |t|);
  }

  lemma WordsBehindBlank(t: string)
    requires t != "" && IsSpace(t[0])
    ensures Words(t) == Words(t[1..])
  {
    var s := t[1..];
    var i := WordStart(s, 0);
    if i < |s| {
      var k := WordEnd(s, i);
      assert IsRun(s, i, k);
      WordsFirst(s, i, k, s[i..k], s[k..]);
      BlankThenRun(t, i, k);
    } else {
      BlankThenNothing(t);
    }
  }

  lemma JoinedOneStep(ws: seq<string>)
    requires |ws| > 1
    ensures Joined(ws) == ws[0] + (" " + Joined(ws[1..]))
  {
    assert ws[0] + " " + Joined(ws[1..]) == ws[0] + (" " + Joined(ws[1..]));
  }

  lemma {:induction false} WordsOfJoined(ws: seq<string>)
    requires forall w :: w in ws ==> IsWord(w)
    ensures Words(Joined(ws)) == ws
  {
    if |ws| == 1 {
      assert ws[0] + "" == ws[0];
      WordsOfWordThen(ws[0], "");
    } else if |ws| > 1 {
      var tail := Joined(ws[1..]);
      WordsOfJoined(ws[1..]);
      assert (" " + tail)[1..] == tail;
      WordsBehindBlank(" " + tail);
      WordsOfWordThen(ws[0], " " + tail);
      JoinedOneStep(ws);
    }
  }

  lemma {:induction false} DistinctOfNoRepeats(ws: seq<string>)
    requires NoRepeats(ws)
    ensures Distinct(ws) == ws
  {
    if ws != [] {
      DistinctOfNoRepeats(ws[..|ws| - 1]);
      assert ws == ws[..|ws| - 1] + [ws[|ws| - 1]];
    }
  }

  lemma {:induction false} WordsAreWords(s: string)
    ensures forall w :: w in Words(s) ==> IsWord(w)
    decreases |s|
  {
    var i := WordStart(s, 0);
    if i < |s| {
      var k := WordEnd(s, i);
      assert IsWord(s[i..k]);
      WordsAreWords(s[k..]);
    }
  }

  lemma {:induction false} DistinctKeepsElements(ws: seq<string>)
    ensures forall w :: w in Distinct(ws) <==> w in ws
    ensures NoRepeats(Distinct(ws))
  {
    if ws != [] {
      DistinctKeepsElements(ws[..|ws| - 1]);
      assert ws == ws[..|ws| - 1] + [ws[|ws| - 1]];
    }
  }

  /** The parsed list has the words of the string, each once. */
  lemma ParsedIsScopeList(value: Option<string>)
    ensures IsScopeList(Parsed(value))
    ensures value.Some? ==> forall w :: w in Parsed(value) <==> w in Words(value.value)
  {
    if value.Some? {
      WordsAreWords(value.value);
      DistinctKeepsElements(Words(value.value));
    }
  }

  /** Any list of scopes that `parse_scope` could return is read back exactly. */
  lemma PrintedScopesParseBack(ws: seq<string>)
    requires IsScopeList(ws)
    ensures Parsed(Some(Joined(ws))) == ws
    ensures ScopeSet(Joined(ws)) == Elements(ws)
    ensures Joined(ws) == "" <==> ws == []
  {
    WordsOfJoined(ws);
    DistinctOfNoRepeats(ws);
    if ws != [] {
      assert ws[0] in ws;
    }
  }

  // --------------------------------------------------------------------------- attenuation

  predicate WithinAll(w: string, ceilings: seq<set<string>>) {
    forall i :: 0 <= i < |ceilings| ==> w in ceilings[i]
  }

  /** The requested scopes inside every ceiling, in the order they were requested. */
  function Kept(requested: seq<string>, ceilings: seq<set<string>>): seq<string> {
    if requested == [] then []
    else if WithinAll(requested[0], ceilings) then [requested[0]] + Kept(requested[1..], ceilings)
    else Kept(requested[1..], ceilings)
  }

  lemma {:induction false} KeptIsIntersection(requested: seq<string>, ceilings: seq<set<string>>)
    ensures forall w :: w in Kept(requested, ceilings) <==> w in requested && WithinAll(w, ceilings)
    ensures IsScopeList(requested) ==> IsScopeList(Kept(requested, ceilings))
  {
    if requested != [] {
      var tail := requested[1..];
      KeptIsIntersection(tail, ceilings);
      assert requested == [requested[0]] + tail;
      if IsScopeList(requested) {
        assert forall i :: 0 <= i < |tail| ==> tail[i] == requested[i + 1];
        assert IsScopeList(tail) && requested[0] !in tail;
      }
    }
  }

  /** `r` is `from` with some positions left out: those not in `at`. */
  ghost predicate Selects(r: seq<string>, from: seq<string>, at: seq<nat>) {
    && |at| == |r|
    && (forall k :: 0 <= k < |at| ==> at[k] < |from| && r[k] == from[at[k]])
    && (forall k, m :: 0 <= k < m < |at| ==> at[k] < at[m])
  }

  /** Positions of a tail, as positions of the whole. */
  function OneLater(at: seq<nat>): seq<nat> {
    seq(|at|, k requires 0 <= k < |at| => at[k] + 1)
  }

  ghost predicate PicksAllowed(requested: seq<string>, ceilings: seq<set<string>>, at: seq<nat>) {
    forall i :: 0 <= i < |requested| ==> (i in at <==> WithinAll(requested[i], ceilings))
  }

  /** What is granted is the request with exactly the positions left out that some ceiling does not allow:
    * the order asked is kept. */
  lemma {:induction false} KeptInOrder(requested: seq<string>, ceilings: seq<set<string>>)
    ensures exists at :: Selects(Kept(requested, ceilings), requested, at) && PicksAllowed(requested, ceilings, at)
  {
    if requested == [] {
      var none: seq<nat> := [];
      assert Selects([], requested, none) && PicksAllowed(requested, ceilings, none);
    } else {
      var tail := requested[1..];
      KeptInOrder(tail, ceilings);
      var at :| Selects(Kept(tail, ceilings), tail, at) && PicksAllowed(tail, ceilings, at);
      LaterPositions(requested, Kept(tail, ceilings), ceilings, at);
    }
  }

  lemma SelectsFromTail(requested: seq<string>, r: seq<string>, at: seq<nat>)
    requires requested != [] && Selects(r, requested[1..], at)
    ensures Selects(r, requested, OneLater(at))
    ensures Selects([requested[0]] + r, requested, [0] + OneLater(at))
  {
    var later := OneLater(at);
    forall k | 0 <= k < |at| ensures later[k] < |requested| && r[k] == requested[later[k]] {
      assert requested[1..][at[k]] == requested[at[k] + 1];
    }
  }

  lemma TailPositions(requested: seq<string>, ceilings: seq<set<string>>, at: seq<nat>, i: nat)
    requires requested != [] && PicksAllowed(requested[1..], ceilings, at) && 0 < i < |requested|
    ensures i in OneLater(at) <==> WithinAll(requested[i], ceilings)
  {
    assert requested[i] == requested[1..][i - 1];
    if i - 1 in at {
      var k :| 0 <= k < |at| && at[k] == i - 1;
      assert OneLater(at)[k] == i;
    }
  }

  lemma LaterPositions(requested: seq<string>, r: seq<string>, ceilings: seq<set<string>>, at: seq<nat>)
    requires requested != [] && Selects(r, requested[1..], at) && PicksAllowed(requested[1..], ceilings, at)
    ensures var first := WithinAll(requested[0], ceilings);
            var after := if first then [0] + OneLater(at) else OneLater(at);
            Selects(if first then [requested[0]] + r else r, requested, after)
              && PicksAllowed(requested, ceilings, after)
  {
    SelectsFromTail(requested, r, at);
    var after := if WithinAll(requested[0], ceilings) then [0] + OneLater(at) else OneLater(at);
    forall i | 0 <= i < |requested| ensures i in after <==> WithinAll(requested[i], ceilings) {
      if i > 0 { TailPositions(requested, ceilings, at, i); }
    }
  }

  /** Parsing keeps each word at its first occurrence, and nothing else. */
  lemma {:induction false} DistinctAreFirstOccurrences(ws: seq<string>)
    ensures exists at :: Selects(Distinct(ws), ws, at) && PicksFirst(ws, at)
  {
    if ws == [] {
      var none: seq<nat> := [];
      assert Selects(Distinct(ws), ws, none) && PicksFirst(ws, none);
    } else {
      var n := |ws| - 1;
      var front := ws[..n];
      DistinctAreFirstOccurrences(front);
      DistinctKeepsElements(front);
      var at :| Selects(Distinct(front), front, at) && PicksFirst(front, at);
      AppendedOccurrence(ws, Distinct(front), Distinct(ws), at);
    }
  }

  lemma AppendedOccurrence(ws: seq<string>, r: seq<string>, all: seq<string>, at: seq<nat>)
    requires ws != [] && Selects(r, ws[..|ws| - 1], at) && PicksFirst(ws[..|ws| - 1], at)
    requires forall w :: w in r <==> w in ws[..|ws| - 1]
    requires all == if ws[|ws| - 1] in r then r else r + [ws[|ws| - 1]]
    ensures exists after :: Selects(all, ws, after) && PicksFirst(ws, after)
  {
    LastPosition(ws, r, at);
  }

  ghost predicate PicksFirst(ws: seq<string>, at: seq<nat>) {
    forall i :: 0 <= i < |ws| ==> (i in at <==> ws[i] !in ws[..i])
  }

  lemma LastPosition(ws: seq<string>, r: seq<string>, at: seq<nat>)
    requires ws != [] && Selects(r, ws[..|ws| - 1], at) && PicksFirst(ws[..|ws| - 1], at)
    requires forall w :: w in r <==> w in ws[..|ws| - 1]
    ensures var n := |ws| - 1;
            var isNew := ws[n] !in r;
            var after := if isNew then at + [n] else at;
            Selects(if isNew then r + [ws[n]] else r, ws, after) && PicksFirst(ws, after)
  {
    var n := |ws| - 1;
    forall i | 0 <= i < n ensures i in at <==> ws[i] !in ws[..i] {
      assert ws[..n][..i] == ws[..i] && ws[..n][i] == ws[i];
    }
    assert n !in at;
  }

  const NO_SCOPE_ALLOWED := OAuthError("invalid_scope", "none of the requested scopes are allowed", 400)

  predicate AnyEmpty(ceilings: seq<set<string>>) {
    exists i :: 0 <= i < |ceilings| && ceilings[i] == {}
  }

  function Attenuate(requested: seq<string>, ceilings: seq<set<string>>): Result<seq<string>> {
    if requested == [] then Ok([])
    else if AnyEmpty(ceilings) then Err(NO_SCOPE_ALLOWED)
    else
      var granted := Kept(requested, ceilings);
      if granted == [] then Err(NO_SCOPE_ALLOWED) else Ok(granted)
  }

  /** Nothing asked for gives nothing. Otherwise the request is refused exactly when no requested
    * scope lies inside every ceiling, and what is granted is exactly those that do, in the order
    * asked. In particular the refusal of an empty ceiling, which comes first, decides nothing that
    * the intersection would not. */
  lemma AttenuateGrantsTheIntersection(requested: seq<string>, ceilings: seq<set<string>>)
    ensures Attenuate(requested, ceilings).Err?
       <==> requested != [] && forall w :: w in requested ==> !WithinAll(w, ceilings)
    ensures Attenuate(requested, ceilings).Ok? ==> Attenuate(requested, ceilings).value == Kept(requested, ceilings)
  {
    KeptIsIntersection(requested, ceilings);
    var granted := Kept(requested, ceilings);
    if granted != [] {
      assert granted[0] in granted;
    } else {
      assert forall w :: w in requested ==> !WithinAll(w, ceilings);
    }
    if AnyEmpty(ceilings) {
      var i :| 0 <= i < |ceilings| && ceilings[i] == {};
      assert forall w :: WithinAll(w, ceilings) ==> w in ceilings[i];
    }
  }

  /** Each hop reads precisely the scopes the previous hop granted: for every scope string and all
    * ceilings, printing what was granted and parsing it again gives the same tuple. */
  lemma GrantedScopesRoundTrip(value: Option<string>, ceilings: seq<set<string>>)
    ensures var granted := Kept(Parsed(value), ceilings);
            Parsed(Some(Joined(granted))) == granted
  {
    ParsedIsScopeList(value);
    KeptIsIntersection(Parsed(value), ceilings);
    PrintedScopesParseBack(Kept(Parsed(value), ceilings));
  }
}
