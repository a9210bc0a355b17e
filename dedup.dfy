/** Deduplication of arrangements up to rotation and reversal: each
    arrangement is replaced by the lexicographically smallest of its rotations
    and the rotations of its reversal. */
module Dedup {
  import opened Arrangement

  // ---------------------------------------------------------------------
  // Python's `<` on tuples of integers.
  // ---------------------------------------------------------------------

  /** a < b: at the first position where they differ a has the smaller entry,
      or a is a proper prefix of b. */
  predicate LexLess(a: seq<int>, b: seq<int>)
    decreases |a|
  {
    |b| > 0 && (|a| == 0 || a[0] < b[0] || (a[0] == b[0] && LexLess(a[1..], b[1..])))
  }

  lemma {:induction false} LexLessIrreflexive(a: seq<int>)
    ensures !LexLess(a, a)
    decreases |a|
  {
    if |a| > 0 {
      LexLessIrreflexive(a[1..]);
    }
  }

  lemma {:induction false} LexLessTransitive(a: seq<int>, b: seq<int>, c: seq<int>)
    requires LexLess(a, b) && LexLess(b, c)
    ensures LexLess(a, c)
    decreases |a|
  {
    if |a| > 0 && a[0] == b[0] && b[0] == c[0] {
      LexLessTransitive(a[1..], b[1..], c[1..]);
    }
  }

  /** Two different tuples are always ordered one way or the other. */
  lemma {:induction false} LexLessTotal(a: seq<int>, b: seq<int>)
    requires a != b
    ensures LexLess(a, b) || LexLess(b, a)
    decreases |a|
  {
    if |a| > 0 && |b| > 0 && a[0] == b[0] {
      assert a == [a[0]] + a[1..] && b == [b[0]] + b[1..];
      LexLessTotal(a[1..], b[1..]);
    }
  }

  lemma LexLessAsymmetric(a: seq<int>, b: seq<int>)
    requires LexLess(a, b)
    ensures !LexLess(b, a)
  {
    if LexLess(b, a) {
      LexLessTransitive(a, b, a);
      LexLessIrreflexive(a);
    }
  }

  // ---------------------------------------------------------------------
  // Python's `min` over a non-empty list of tuples.
  // ---------------------------------------------------------------------

  /** The first entry, replaced by each later entry that is strictly smaller. */
  function MinOf(xs: seq<seq<int>>): (r: seq<int>)
    requires |xs| > 0
    ensures r in xs
    ensures forall x <- xs :: !LexLess(x, r)
    decreases |xs|
  {
    if |xs| == 1 then
      LexLessIrreflexive(xs[0]);
      xs[0]
    else
      var last := xs[|xs| - 1];
      var m := MinOf(xs[..|xs| - 1]);
      MinStep(xs[..|xs| - 1], m, last);
      assert xs == xs[..|xs| - 1] + [last];
      if LexLess(last, m) then last else m
  }

  lemma MinStep(xs: seq<seq<int>>, m: seq<int>, y: seq<int>)
    requires forall x <- xs :: !LexLess(x, m)
    ensures LexLess(y, m) ==> forall x <- xs + [y] :: !LexLess(x, y)
    ensures !LexLess(y, m) ==> forall x <- xs + [y] :: !LexLess(x, m)
  {
    LexLessIrreflexive(y);
    forall x | x in xs && LexLess(y, m)
      ensures !LexLess(x, y)
    {
      if LexLess(x, y) {
        LexLessTransitive(x, y, m);
      }
    }
  }

  /** An entry no other entry is smaller than is the minimum. */
  lemma MinUnique(xs: seq<seq<int>>, r: seq<int>)
    requires r in xs && forall x <- xs :: !LexLess(x, r)
    ensures r == MinOf(xs)
  {
    var m := MinOf(xs);
    if r != m {
      LexLessTotal(r, m);
    }
  }

  /** The loop behind `min`: keeps the smallest entry seen so far. */
  method Minimum(xs: seq<seq<int>>) returns (r: seq<int>)
    requires |xs| > 0
    ensures r == MinOf(xs)
  {
    r := xs[0];
    for i := 1 to |xs|
      invariant r == MinOf(xs[..i])
    {
      assert xs[..i + 1][..i] == xs[..i];
      if LexLess(xs[i], r) {
        r := xs[i];
      }
    }
    assert xs[..|xs|] == xs;
  }

  // ---------------------------------------------------------------------
  // The twelve equivalent arrangements of a hexagon and the representative.
  // ---------------------------------------------------------------------

  /** The rotations of p by 0 .. |p| - 1, then those of its reversal. */
  function Orbit(p: seq<int>): (o: seq<seq<int>>)
    ensures |o| == 2 * |p|
  {
    seq(|p|, i requires 0 <= i < |p| => Rotate(p, i))
      + seq(|p|, i requires 0 <= i < |p| => Rotate(Reverse(p), i))
  }

  /** The representative of p: the smallest of its equivalent arrangements. */
  function Canonical(p: seq<int>): (r: seq<int>)
    requires |p| > 0
    ensures r in Orbit(p)
    ensures forall q <- Orbit(p) :: !LexLess(q, r)
  {
    MinOf(Orbit(p))
  }

  /** Builds the list of equivalent arrangements, rotations first. */
  method EquivalentArrangements(p: seq<int>) returns (equivalent: seq<seq<int>>)
    ensures equivalent == Orbit(p)
  {
    equivalent := [];
    for i := 0 to |p|
      invariant equivalent == seq(i, k requires 0 <= k < i => Rotate(p, k))
    {
      equivalent := equivalent + [Rotate(p, i)];
    }
    var reversed := Reverse(p);
    for i := 0 to |reversed|
      invariant equivalent == Orbit(p)[..|p| + i]
    {
      equivalent := equivalent + [Rotate(reversed, i)];
    }
  }

  // ---------------------------------------------------------------------
  // Orbits: equivalent arrangements have the same orbit.
  // ---------------------------------------------------------------------

  lemma OrbitMember(p: seq<int>, q: seq<int>) returns (i: nat, reflected: bool)
    requires q in Orbit(p)
    ensures i < |p|
    ensures q == if reflected then Rotate(Reverse(p), i) else Rotate(p, i)
  {
    var o := Orbit(p);
    var k :| 0 <= k < |o| && o[k] == q;
    if k < |p| {
      i, reflected := k, false;
    } else {
      i, reflected := k - |p|, true;
    }
  }

  lemma RotationInOrbit(p: seq<int>, i: nat)
    requires i < |p|
    ensures Rotate(p, i) in Orbit(p) && Rotate(Reverse(p), i) in Orbit(p)
  {
    assert Orbit(p)[i] == Rotate(p, i);
    assert Orbit(p)[|p| + i] == Rotate(Reverse(p), i);
  }

  lemma RotateBack(p: seq<int>, i: nat)
    requires i < |p|
    ensures (|p| - i) % |p| < |p| && Rotate(Rotate(p, i), (|p| - i) % |p|) == p
  {
    var n := |p|;
    RotateRotate(p, i, (n - i) % n);
    ModAddMod(n - i, i, n);
    ModUnique(n, n, 1, 0);
    RotateZero(p);
  }

  /** Whatever is equivalent to an equivalent arrangement of p is equivalent to p. */
  lemma OrbitClosed(p: seq<int>, q: seq<int>, x: seq<int>)
    requires q in Orbit(p) && x in Orbit(q)
    ensures x in Orbit(p)
  {
    var n := |p|;
    var i, qReflected := OrbitMember(p, q);
    var j, xReflected := OrbitMember(q, x);
    if !qReflected && !xReflected {
      RotateRotate(p, i, j);
      RotationInOrbit(p, (i + j) % n);
    } else if qReflected && !xReflected {
      RotateRotate(Reverse(p), i, j);
      RotationInOrbit(p, (i + j) % n);
    } else if !qReflected && xReflected {
      ReverseRotate(p, i);
      var r := (n - i) % n;
      RotateRotate(Reverse(p), r, j);
      RotationInOrbit(p, (r + j) % n);
    } else {
      ReverseRotate(Reverse(p), i);
      ReverseReverse(p);
      var r := (n - i) % n;
      RotateRotate(p, r, j);
      RotationInOrbit(p, (r + j) % n);
    }
  }

  /** Equivalence is symmetric: p is among the equivalents of each of its equivalents. */
  lemma OrbitSymmetric(p: seq<int>, q: seq<int>)
    requires q in Orbit(p)
    ensures p in Orbit(q)
  {
    var n := |p|;
    var i, reflected := OrbitMember(p, q);
    if !reflected {
      RotateBack(p, i);
      RotationInOrbit(q, (n - i) % n);
    } else {
      ReverseRotate(Reverse(p), i);
      ReverseReverse(p);
      var r := (n - i) % n;
      RotateBack(p, r);
      RotationInOrbit(q, (n - r) % n);
    }
  }

  lemma SameOrbit(p: seq<int>, q: seq<int>)
    requires q in Orbit(p)
    ensures forall x :: x in Orbit(q) <==> x in Orbit(p)
  {
    OrbitSymmetric(p, q);
    forall x | x in Orbit(q)
      ensures x in Orbit(p)
    {
      OrbitClosed(p, q, x);
    }
    forall x | x in Orbit(p)
      ensures x in Orbit(q)
    {
      OrbitClosed(q, p, x);
    }
  }

  lemma OrbitPreservesEntries(p: seq<int>, q: seq<int>)
    requires q in Orbit(p)
    ensures multiset(q) == multiset(p)
  {
    var i, reflected := OrbitMember(p, q);
    if reflected {
      RotatePreservesMultiset(Reverse(p), i);
      ReversePreservesMultiset(p);
    } else {
      RotatePreservesMultiset(p, i);
    }
  }

  // ---------------------------------------------------------------------
  // Properties of the representative.
  // ---------------------------------------------------------------------

  /** Equivalent arrangements get the same representative. */
  lemma CanonicalOfEquivalent(p: seq<int>, q: seq<int>)
    requires |p| > 0 && q in Orbit(p)
    ensures |q| == |p| && Canonical(q) == Canonical(p)
  {
    OrbitPreservesEntries(p, q);
    assert |q| == |multiset(q)| == |p|;
    SameOrbit(p, q);
    MinUnique(Orbit(p), Canonical(q));
  }

  /** Rotating or reversing an arrangement does not change its representative. */
  lemma CanonicalDihedralInvariant(p: seq<int>, i: nat)
    requires i < |p|
    ensures Canonical(Rotate(p, i)) == Canonical(p)
    ensures Canonical(Reverse(p)) == Canonical(p)
  {
    RotationInOrbit(p, i);
    CanonicalOfEquivalent(p, Rotate(p, i));
    RotationInOrbit(p, 0);
    RotateZero(Reverse(p));
    CanonicalOfEquivalent(p, Reverse(p));
  }

  /** The representative is its own representative, and holds the same entries. */
  lemma CanonicalIdempotent(p: seq<int>)
    requires |p| > 0
    ensures multiset(Canonical(p)) == multiset(p)
    ensures Canonical(Canonical(p)) == Canonical(p)
  {
    OrbitPreservesEntries(p, Canonical(p));
    CanonicalOfEquivalent(p, Canonical(p));
  }

  /** An arrangement is its own representative exactly when none of its
      rotations, and none of the rotations of its reversal, is smaller. */
  lemma CanonicalWhenLeast(p: seq<int>)
    requires |p| > 0
    ensures Canonical(p) == p
        <==> forall i :: 0 <= i < |p| ==> !LexLess(Rotate(p, i), p) && !LexLess(Rotate(Reverse(p), i), p)
  {
    if forall i :: 0 <= i < |p| ==> !LexLess(Rotate(p, i), p) && !LexLess(Rotate(Reverse(p), i), p) {
      forall q | q in Orbit(p)
        ensures !LexLess(q, p)
      {
        var i, reflected := OrbitMember(p, q);
      }
      RotationInOrbit(p, 0);
      RotateZero(p);
      MinUnique(Orbit(p), p);
    }
    if Canonical(p) == p {
      forall i | 0 <= i < |p|
        ensures !LexLess(Rotate(p, i), p) && !LexLess(Rotate(Reverse(p), i), p)
      {
        RotationInOrbit(p, i);
      }
    }
  }

  // ---------------------------------------------------------------------
  // The deduplication loop.
  // ---------------------------------------------------------------------

  predicate Distinct(xs: seq<seq<int>>)
  {
    forall i, j :: 0 <= i < j < |xs| ==> xs[i] != xs[j]
  }

  /** The set of representatives of the first `count` permutations. */
  ghost function RepresentativesOf(perms: seq<seq<int>>, count: nat): set<seq<int>>
    requires count <= |perms| && forall p <- perms :: |p| > 0
  {
    set k | 0 <= k < count :: Canonical(perms[k])
  }

  /** The members of a set, each listed once, in some order. */
  method ListOf(s: set<seq<int>>) returns (l: seq<seq<int>>)
    ensures forall u :: u in l <==> u in s
    ensures Distinct(l)
    ensures |l| == |s|
  {
    l := [];
    var rest := s;
    while rest != {}
      invariant rest <= s
      invariant forall u :: u in l <==> u in s - rest
      invariant Distinct(l)
      invariant |l| + |rest| == |s|
      decreases |rest|
    {
      var u :| u in rest;
      l := l + [u];
      rest := rest - {u};
    }
  }

  /** Replaces every permutation by its representative, collects these in a
      set and returns that set as a list (in no particular order). */
  method UniqueArrangements(perms: seq<seq<int>>) returns (unique: seq<seq<int>>)
    requires forall p <- perms :: |p| > 0
    ensures forall u :: u in unique <==> exists p <- perms :: u == Canonical(p)
    ensures Distinct(unique)
    ensures |unique| <= |perms|
  {
    var found: set<seq<int>> := {};
    for i := 0 to |perms|
      invariant found == RepresentativesOf(perms, i)
      invariant |found| <= i
    {
      var equivalent := EquivalentArrangements(perms[i]);
      var representative := Minimum(equivalent);
      RepresentativesStep(perms, i);
      GrowByOne(found, representative);
      found := found + {representative};
    }
    RepresentativesAreCanonical(perms, found);
    unique := ListOf(found);
  }

  lemma RepresentativesStep(perms: seq<seq<int>>, i: nat)
    requires i < |perms| && forall p <- perms :: |p| > 0
    ensures RepresentativesOf(perms, i + 1) == RepresentativesOf(perms, i) + {Canonical(perms[i])}
  {
  }

  lemma GrowByOne(s: set<seq<int>>, x: seq<int>)
    ensures |s + {x}| <= |s| + 1
  {
    if x in s {
      assert s + {x} == s;
    }
  }

  lemma RepresentativesAreCanonical(perms: seq<seq<int>>, found: set<seq<int>>)
    requires forall p <- perms :: |p| > 0
    requires found == RepresentativesOf(perms, |perms|)
    ensures forall u :: u in found <==> exists p <- perms :: u == Canonical(p)
  {
    forall u | u in found
      ensures exists p <- perms :: u == Canonical(p)
    {
      var k :| 0 <= k < |perms| && u == Canonical(perms[k]);
      assert perms[k] in perms;
    }
    forall p | p in perms
      ensures Canonical(p) in found
    {
      var k :| 0 <= k < |perms| && perms[k] == p;
    }
  }
}
