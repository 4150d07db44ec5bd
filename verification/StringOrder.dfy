/** Python's `sorted` on a set of strings: code-point lexicographic order. */
module StringOrder {

  predicate AtMost(a: string, b: string) {
    if a == "" then true
    else if b == "" then false
    else if a[0] == b[0] then AtMost(a[1..], b[1..])
    else a[0] < b[0]
  }

  lemma {:induction false} AtMostTotal(a: string, b: string)
    ensures AtMost(a, b) || AtMost(b, a)
  {
    if a != "" && b != "" && a[0] == b[0] {
      AtMostTotal(a[1..], b[1..]);
    }
  }

  lemma {:induction false} AtMostAntisymmetric(a: string, b: string)
    requires AtMost(a, b) && AtMost(b, a)
    ensures a == b
  {
    if a != "" && b != "" {
      AtMostAntisymmetric(a[1..], b[1..]);
      assert a == [a[0]] + a[1..] && b == [b[0]] + b[1..];
    }
  }

  lemma {:induction false} AtMostTransitive(a: string, b: string, c: string)
    requires AtMost(a, b) && AtMost(b, c)
    ensures AtMost(a, c)
  {
    if a != "" && b != "" && c != "" && a[0] == b[0] == c[0] {
      AtMostTransitive(a[1..], b[1..], c[1..]);
    }
  }

  predicate IsLeast(m: string, s: set<string>) {
    m in s && forall x | x in s :: AtMost(m, x)
  }

  lemma {:induction false} LeastExists(s: set<string>)
    requires s != {}
    ensures exists m :: IsLeast(m, s)
    decreases |s|
  {
    var m :| m in s;
    AtMostTotal(m, m);
    if s == {m} {
      assert IsLeast(m, s);
    } else {
      assert |s - {m}| < |s|;
      LeastExists(s - {m});
      var n :| IsLeast(n, s - {m});
      AtMostTotal(m, n);
      forall x | x in s
        ensures AtMost(m, n) ==> AtMost(m, x)
        ensures AtMost(n, m) ==> AtMost(n, x)
      {
        if x != m {
          assert x in s - {m};
          if AtMost(m, n) { AtMostTransitive(m, n, x); }
        }
      }
      assert IsLeast(if AtMost(m, n) then m else n, s);
    }
  }

  lemma LeastIsUnique(s: set<string>)
    ensures forall m, n :: IsLeast(m, s) && IsLeast(n, s) ==> m == n
  {
    forall m, n | IsLeast(m, s) && IsLeast(n, s)
      ensures m == n
    {
      AtMostAntisymmetric(m, n);
    }
  }

  function Least(s: set<string>): (m: string)
    requires s != {}
    ensures IsLeast(m, s)
  {
    LeastExists(s);
    LeastIsUnique(s);
    var m :| IsLeast(m, s);
    m
  }

  /** `tuple(sorted(s))`. */
  function Sorted(s: set<string>): seq<string>
    decreases |s|
  {
    if s == {} then [] else
      var m := Least(s);
      assert |s - {m}| < |s|;
      [m] + Sorted(s - {m})
  }

  ghost predicate Ascending(r: seq<string>) {
    forall i, j :: 0 <= i < j < |r| ==> AtMost(r[i], r[j]) && r[i] != r[j]
  }

  /** `sorted` lists exactly the members of the set, each once, in ascending order. */
  lemma {:induction false} SortedListsTheSet(s: set<string>)
    ensures forall x :: x in Sorted(s) <==> x in s
    ensures Ascending(Sorted(s))
    decreases |s|
  {
    if s != {} {
      var m := Least(s);
      assert |s - {m}| < |s|;
      SortedListsTheSet(s - {m});
      var rest := Sorted(s - {m});
      assert Sorted(s) == [m] + rest;
      forall i, j | 0 <= i < j < |Sorted(s)|
        ensures AtMost(Sorted(s)[i], Sorted(s)[j]) && Sorted(s)[i] != Sorted(s)[j]
      {
        assert Sorted(s)[j] == rest[j - 1] && rest[j - 1] in rest;
        if i > 0 { assert Sorted(s)[i] == rest[i - 1]; }
      }
    }
  }
}
