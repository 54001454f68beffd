/** Scope sets: sorted, duplicate-free lists of scope strings, and what is left of them along a chain of
    delegations. */
module Scopes {

  // ---------------------------------------------------------------------------
  // The order of strings
  // ---------------------------------------------------------------------------

  /** Lexicographic order. */
  predicate Leq(a: string, b: string) {
    a == [] || (b != [] && (a[0] < b[0] || (a[0] == b[0] && Leq(a[1..], b[1..]))))
  }

  lemma LeqTotal(a: string, b: string)
    ensures Leq(a, b) || Leq(b, a)
  {
  }

  lemma {:induction false} LeqAntisymmetric(a: string, b: string)
    requires Leq(a, b) && Leq(b, a)
    ensures a == b
  {
    if a != [] {
      LeqAntisymmetric(a[1..], b[1..]);
      assert a == [a[0]] + a[1..] && b == [b[0]] + b[1..];
    }
  }

  lemma {:induction false} LeqTransitive(a: string, b: string, c: string)
    requires Leq(a, b) && Leq(b, c)
    ensures Leq(a, c)
  {
    if a != [] && a[0] == b[0] == c[0] {
      LeqTransitive(a[1..], b[1..], c[1..]);
    }
  }

  /** The order of a dictionary: a comes first if it is a beginning of b, or has the smaller character where they
      first differ. */
  lemma {:induction false} LeqIff(a: string, b: string)
    ensures Leq(a, b) <==>
              exists k :: FirstSmaller(a, b, k)
  {
    if a == [] || b == [] || a[0] != b[0] {
      assert a[..0] == b[..0];
      assert Leq(a, b) ==> FirstSmaller(a, b, 0);
      forall k | FirstSmaller(a, b, k)
        ensures Leq(a, b)
      {
        HeadOfPrefix(a, b, k);
      }
    } else {
      LeqIff(a[1..], b[1..]);
      SameStart(a, b);
    }
  }

  ghost predicate FirstSmaller(a: string, b: string, k: int) {
    0 <= k <= |a| && k <= |b| && a[..k] == b[..k] && (k == |a| || (k < |b| && a[k] < b[k]))
  }

  lemma HeadOfPrefix(a: string, b: string, k: int)
    ensures 0 < k <= |a| && k <= |b| && a[..k] == b[..k] ==> a[0] == b[0]
  {
    if 0 < k <= |a| && k <= |b| && a[..k] == b[..k] {
      assert a[..k][0] == a[0] && b[..k][0] == b[0];
    }
  }

  lemma SameStart(a: string, b: string)
    requires a != [] && b != [] && a[0] == b[0]
    ensures (exists k :: FirstSmaller(a, b, k)) <==> exists k :: FirstSmaller(a[1..], b[1..], k)
  {
    if k :| FirstSmaller(a[1..], b[1..], k) {
      assert a[..k + 1] == [a[0]] + a[1..][..k] && b[..k + 1] == [b[0]] + b[1..][..k];
      assert FirstSmaller(a, b, k + 1);
    }
    if k :| FirstSmaller(a, b, k) {
      assert k > 0;
      assert a[1..][..k - 1] == a[..k][1..] && b[1..][..k - 1] == b[..k][1..];
      assert FirstSmaller(a[1..], b[1..], k - 1);
    }
  }

  ghost predicate Sorted(s: seq<string>) {
    forall i, j :: 0 <= i < j < |s| ==> Leq(s[i], s[j])
  }

  ghost predicate Distinct(s: seq<string>) {
    forall i, j :: 0 <= i < j < |s| ==> s[i] != s[j]
  }

  /** The form every scope set is meant to have. */
  ghost predicate Canonical(s: seq<string>) {
    Sorted(s) && Distinct(s)
  }

  /** A canonical list is determined by its members. */
  lemma {:induction false} CanonicalUnique(s: seq<string>, t: seq<string>)
    requires Canonical(s) && Canonical(t) && forall x :: x in s <==> x in t
    ensures s == t
  {
    if s == [] {
      SomeMember(t);
    } else {
      assert s[0] in t;
      SameHead(s, t);
      forall x
        ensures x in s[1..] <==> x in t[1..]
      {
        TailMember(s, x);
        TailMember(t, x);
      }
      CanonicalUnique(s[1..], t[1..]);
      assert s == [s[0]] + s[1..] && t == [t[0]] + t[1..];
    }
  }

  lemma SomeMember(s: seq<string>)
    ensures s == [] || exists x :: x in s
  {
    if s != [] {
      assert s[0] in s;
    }
  }

  lemma TailMember(s: seq<string>, x: string)
    requires s != [] && Distinct(s)
    ensures x in s[1..] <==> x in s && x != s[0]
  {
    assert s == [s[0]] + s[1..];
  }

  lemma SameHead(s: seq<string>, t: seq<string>)
    requires s != [] && t != [] && Sorted(s) && Sorted(t) && s[0] in t && t[0] in s
    ensures s[0] == t[0]
  {
    if s[0] != t[0] {
      assert Leq(s[0], t[0]) && Leq(t[0], s[0]);
      LeqAntisymmetric(s[0], t[0]);
    }
  }

  // ---------------------------------------------------------------------------
  // Sorting
  // ---------------------------------------------------------------------------

  function Insert(x: string, s: seq<string>): (r: seq<string>)
    ensures multiset(r) == multiset(s) + multiset{x}
  {
    if s == [] then [x]
    else if Leq(x, s[0]) then [x] + s
    else
      assert s == [s[0]] + s[1..];
      [s[0]] + Insert(x, s[1..])
  }

  lemma {:induction false} InsertSorted(x: string, s: seq<string>)
    requires Sorted(s)
    ensures Sorted(Insert(x, s))
  {
    if s != [] {
      if Leq(x, s[0]) {
        forall j | 0 <= j < |s|
          ensures Leq(x, s[j])
        {
          if j > 0 {
            LeqTransitive(x, s[0], s[j]);
          }
        }
      } else {
        LeqTotal(x, s[0]);
        InsertSorted(x, s[1..]);
        var r := Insert(x, s[1..]);
        forall j | 0 <= j < |r|
          ensures Leq(s[0], r[j])
        {
          assert r[j] in multiset(r);
          assert r[j] == x || r[j] in s[1..];
        }
      }
    }
  }

  /** What sort.Strings leaves in a slice. */
  function SortStrings(s: seq<string>): (r: seq<string>)
    ensures multiset(r) == multiset(s)
  {
    if s == [] then []
    else
      assert s == [s[0]] + s[1..];
      Insert(s[0], SortStrings(s[1..]))
  }

  lemma {:induction false} SortStringsSorted(s: seq<string>)
    ensures Sorted(SortStrings(s))
  {
    if s != [] {
      SortStringsSorted(s[1..]);
      InsertSorted(s[0], SortStrings(s[1..]));
    }
  }

  lemma SortKeepsMembers(s: seq<string>, x: string)
    ensures x in SortStrings(s) <==> x in s
  {
    assert x in SortStrings(s) <==> x in multiset(SortStrings(s));
    assert x in s <==> x in multiset(s);
  }

  lemma {:induction false} DistinctCounts(s: seq<string>)
    ensures Distinct(s) <==> forall x :: multiset(s)[x] <= 1
  {
    if s != [] {
      var rest := s[1..];
      assert s == [s[0]] + rest;
      DistinctCounts(rest);
      if Distinct(s) {
        assert s[0] !in rest;
      } else if Distinct(rest) {
        assert s[0] in rest;
        assert multiset(s)[s[0]] >= 2;
      } else {
        var x :| multiset(rest)[x] > 1;
        assert multiset(s)[x] > 1;
      }
    }
  }

  lemma SortedDistinctIsCanonical(s: seq<string>)
    requires Distinct(s)
    ensures Canonical(SortStrings(s))
  {
    SortStringsSorted(s);
    DistinctCounts(s);
    DistinctCounts(SortStrings(s));
  }

  // ---------------------------------------------------------------------------
  // NewScopeSet and Intersection
  // ---------------------------------------------------------------------------

  /** NewScopeSet: the canonical list of the given scopes. */
  method NewScopeSet(scopes: seq<string>) returns (r: seq<string>)
    ensures Canonical(r)
    ensures forall x :: x in r <==> x in scopes
  {
    if |scopes| == 0 {
      return [];
    }
    var seen: set<string> := {};
    var unique: seq<string> := [];
    for i := 0 to |scopes|
      invariant forall x :: x in seen <==> x in unique
      invariant forall x :: x in unique <==> x in scopes[..i]
      invariant Distinct(unique)
    {
      assert scopes[..i + 1] == scopes[..i] + [scopes[i]];
      if scopes[i] !in seen {
        seen := seen + {scopes[i]};
        unique := unique + [scopes[i]];
      }
    }
    assert scopes[..|scopes|] == scopes;
    r := SortStrings(unique);
    SortedDistinctIsCanonical(unique);
    forall x
      ensures x in r <==> x in scopes
    {
      SortKeepsMembers(unique, x);
    }
  }

  datatype Result = Ok(scopes: seq<string>) | ErrScopeIntersectionEmpty

  /** The members of a that b also has, in a's order. */
  function Kept(a: seq<string>, b: seq<string>): (r: seq<string>)
    ensures forall x :: x in r <==> x in a && x in b
    ensures Distinct(a) ==> Distinct(r)
  {
    if a == [] then []
    else
      var init, last := a[..|a| - 1], a[|a| - 1];
      assert a == init + [last];
      if last in b then Kept(init, b) + [last] else Kept(init, b)
  }

  /** The value of an intersection. */
  function Meet(a: seq<string>, b: seq<string>): Result {
    var kept := SortStrings(Kept(a, b));
    if kept == [] then ErrScopeIntersectionEmpty else Ok(kept)
  }

  /** Fails exactly when nothing is shared; otherwise sorted, and canonical when a has no repetition. */
  lemma MeetIsIntersection(a: seq<string>, b: seq<string>)
    ensures Meet(a, b).ErrScopeIntersectionEmpty? <==> forall x :: x in a ==> x !in b
    ensures Meet(a, b).Ok? ==> Sorted(Meet(a, b).scopes)
    ensures Meet(a, b).Ok? ==> forall x :: x in Meet(a, b).scopes <==> x in a && x in b
    ensures Meet(a, b).Ok? && Distinct(a) ==> Canonical(Meet(a, b).scopes)
  {
    var kept := Kept(a, b);
    SortStringsSorted(kept);
    forall x
      ensures x in SortStrings(kept) <==> x in kept
    {
      SortKeepsMembers(kept, x);
    }
    if Distinct(a) {
      SortedDistinctIsCanonical(kept);
    }
    if SortStrings(kept) != [] {
      assert SortStrings(kept)[0] in kept;
    }
  }

  method Intersection(a: seq<string>, b: seq<string>) returns (r: Result)
    ensures r == Meet(a, b)
  {
    if |a| == 0 || |b| == 0 {
      MeetIsIntersection(a, b);
      return ErrScopeIntersectionEmpty;
    }
    var setB: set<string> := {};
    for i := 0 to |b|
      invariant forall x :: x in setB <==> x in b[..i]
    {
      assert b[..i + 1] == b[..i] + [b[i]];
      setB := setB + {b[i]};
    }
    assert b[..|b|] == b;
    var result: seq<string> := [];
    for i := 0 to |a|
      invariant result == Kept(a[..i], b)
    {
      assert a[..i + 1][..i] == a[..i];
      if a[i] in setB {
        result := result + [a[i]];
      }
    }
    assert a[..|a|] == a;
    if |result| == 0 {
      return ErrScopeIntersectionEmpty;
    }
    assert result[0] in multiset(SortStrings(result));
    r := Ok(SortStrings(result));
  }

  // ---------------------------------------------------------------------------
  // Chains of delegations
  // ---------------------------------------------------------------------------

  /** What is left after every hop has been intersected in turn. A single hop is taken as it is. */
  function Effective(hops: seq<seq<string>>): Result
    requires hops != []
  {
    if |hops| == 1 then Ok(hops[0])
    else
      match Effective(hops[..|hops| - 1])
      case Ok(scopes) => Meet(scopes, hops[|hops| - 1])
      case ErrScopeIntersectionEmpty => ErrScopeIntersectionEmpty
  }

  ghost predicate InEvery(hops: seq<seq<string>>, x: string) {
    forall i :: 0 <= i < |hops| ==> x in hops[i]
  }

  lemma InEveryLast(hops: seq<seq<string>>, x: string)
    requires hops != []
    ensures InEvery(hops, x) <==> InEvery(hops[..|hops| - 1], x) && x in hops[|hops| - 1]
  {
  }

  /** Along any chain of canonical scope sets, the effective scope is canonical and holds exactly the
      scopes of every hop; with at least one delegation it fails exactly when there are none. */
  lemma {:induction false} EffectiveIsCommon(hops: seq<seq<string>>)
    requires hops != [] && forall i :: 0 <= i < |hops| ==> Canonical(hops[i])
    ensures Effective(hops).Ok? ==> Canonical(Effective(hops).scopes)
    ensures Effective(hops).Ok? ==> forall x :: x in Effective(hops).scopes <==> InEvery(hops, x)
    ensures |hops| > 1 ==> (Effective(hops).ErrScopeIntersectionEmpty? <==> forall x :: !InEvery(hops, x))
  {
    if |hops| > 1 {
      var init, last := hops[..|hops| - 1], hops[|hops| - 1];
      EffectiveIsCommon(init);
      forall x
        ensures InEvery(hops, x) <==> InEvery(init, x) && x in last
      {
        InEveryLast(hops, x);
      }
      if Effective(init).Ok? {
        MeetIsIntersection(Effective(init).scopes, last);
      }
    }
  }

  /** A further delegation never widens the scope. */
  lemma NeverWidens(hops: seq<seq<string>>, next: seq<string>)
    requires hops != [] && Canonical(next) && forall i :: 0 <= i < |hops| ==> Canonical(hops[i])
    requires Effective(hops + [next]).Ok?
    ensures Effective(hops).Ok?
    ensures forall x :: x in Effective(hops + [next]).scopes ==> x in Effective(hops).scopes && x in next
  {
    var longer := hops + [next];
    assert longer[..|hops|] == hops;
    MeetIsIntersection(Effective(hops).scopes, next);
  }

  /** The order of the hops, and repeating them, makes no difference to the effective scope. */
  lemma HopOrderIrrelevant(hops: seq<seq<string>>, others: seq<seq<string>>)
    requires |hops| > 1 && |others| > 1 && forall h :: h in hops <==> h in others
    requires forall i :: 0 <= i < |hops| ==> Canonical(hops[i])
    ensures Effective(hops) == Effective(others)
  {
    forall i | 0 <= i < |others|
      ensures Canonical(others[i])
    {
      assert others[i] in hops;
    }
    EffectiveIsCommon(hops);
    EffectiveIsCommon(others);
    forall x
      ensures InEvery(hops, x) <==> InEvery(others, x)
    {
      SameInEvery(hops, others, x);
      SameInEvery(others, hops, x);
    }
    if Effective(hops).Ok? && Effective(others).Ok? {
      CanonicalUnique(Effective(hops).scopes, Effective(others).scopes);
    }
  }

  lemma SameInEvery(hops: seq<seq<string>>, others: seq<seq<string>>, x: string)
    requires forall h :: h in others ==> h in hops
    ensures InEvery(hops, x) ==> InEvery(others, x)
  {
    if InEvery(hops, x) {
      forall i | 0 <= i < |others|
        ensures x in others[i]
      {
        assert others[i] in hops;
      }
    }
  }
}
