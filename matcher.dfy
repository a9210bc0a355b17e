/** The staged 6-6 soaisu ring check of the validator: the power sums of the
    two sets first, then, over all pairs of representative arrangements, the
    cyclic, diagonal and triangle product sums, and last the embedded 3-3 test
    on the inscribed triangles. */
module Matcher {
  import opened Arrangement
  import opened Invariants
  import opened Symmetry
  import opened Dedup

  datatype RingPair = RingPair(first: seq<int>, second: seq<int>)

  /** NotSoaisu: the power sums of degrees 0..5 differ and nothing else was
      looked at. Checked: the pairs that pass the cyclic, diagonal and triangle
      tests, and those of them that also pass the embedded 3-3 test. */
  datatype Verdict = NotSoaisu | Checked(candidates: seq<RingPair>, rings: seq<RingPair>)

  /** The cyclic product sums of degrees 1 up to maxDegree, in that order. */
  function CyclicSums(s: seq<int>, maxDegree: nat): (r: seq<int>)
    ensures |r| == maxDegree
  {
    seq(maxDegree, i requires 0 <= i < maxDegree => CyclicSum(s, i + 1))
  }

  /** The tests of steps 2 to 4: cyclic product sums of degrees 1..5, then the
      diagonal product sum, then the regular-triangle product sum. */
  predicate RingMatch(a: seq<int>, b: seq<int>)
  {
    && CyclicSums(a, 5) == CyclicSums(b, 5)
    && DiagonalProductSum(a) == DiagonalProductSum(b)
    && RegularTriangleProductSum(a) == RegularTriangleProductSum(b)
  }

  /** Positions 0, 2, 4: one inscribed triangle. */
  function EvenTriangle(a: seq<int>): seq<int>
    requires |a| >= 5
  {
    [a[0], a[2], a[4]]
  }

  /** Positions 1, 3, 5: the other inscribed triangle. */
  function OddTriangle(a: seq<int>): seq<int>
    requires |a| >= 6
  {
    [a[1], a[3], a[5]]
  }

  /** The tests of steps 5 and 6, across the two arrangements: the even
      triangle of the first against the odd triangle of the second, on power
      sums of degrees 0..2 and cyclic product sums of degrees 1..2. */
  predicate EmbeddedMatch(a: seq<int>, b: seq<int>)
    requires |a| >= 5 && |b| >= 6
  {
    && PowerSums(EvenTriangle(a), 2) == PowerSums(OddTriangle(b), 2)
    && CyclicSums(EvenTriangle(a), 2) == CyclicSums(OddTriangle(b), 2)
  }

  // ---------------------------------------------------------------------
  // Specification of the two candidate lists, in loop order.
  // ---------------------------------------------------------------------

  /** The pairs (perm1, perm2) that pass steps 2 to 4, perm1 in the outer loop. */
  function MatchingPairs(u1: seq<seq<int>>, u2: seq<seq<int>>): seq<RingPair>
    decreases |u1|
  {
    if |u1| == 0 then []
    else MatchingPairs(u1[..|u1| - 1], u2) + MatchingRow(u1[|u1| - 1], u2)
  }

  function MatchingRow(p1: seq<int>, u2: seq<seq<int>>): seq<RingPair>
    decreases |u2|
  {
    if |u2| == 0 then []
    else
      var p2 := u2[|u2| - 1];
      MatchingRow(p1, u2[..|u2| - 1]) + if RingMatch(p1, p2) then [RingPair(p1, p2)] else []
  }

  predicate HexagonPairs(pairs: seq<RingPair>)
  {
    forall pr <- pairs :: |pr.first| == 6 && |pr.second| == 6
  }

  /** The candidates that pass steps 5 and 6, in their order. */
  function EmbeddedSurvivors(candidates: seq<RingPair>): seq<RingPair>
    requires HexagonPairs(candidates)
    decreases |candidates|
  {
    if |candidates| == 0 then []
    else
      var pr := candidates[|candidates| - 1];
      EmbeddedSurvivors(candidates[..|candidates| - 1])
        + if EmbeddedMatch(pr.first, pr.second) then [pr] else []
  }

  // ---------------------------------------------------------------------
  // What the lists hold.
  // ---------------------------------------------------------------------

  lemma {:induction false} MatchingRowMembership(p1: seq<int>, u2: seq<seq<int>>, pr: RingPair)
    ensures pr in MatchingRow(p1, u2) <==> pr.first == p1 && pr.second in u2 && RingMatch(p1, pr.second)
    decreases |u2|
  {
    if |u2| > 0 {
      var last := |u2| - 1;
      MatchingRowMembership(p1, u2[..last], pr);
      assert u2 == u2[..last] + [u2[last]];
    }
  }

  /** A pair is a candidate exactly when its arrangements come from the two
      lists and pass the cyclic, diagonal and triangle tests. */
  lemma {:induction false} MatchingPairsMembership(u1: seq<seq<int>>, u2: seq<seq<int>>, pr: RingPair)
    ensures pr in MatchingPairs(u1, u2)
        <==> pr.first in u1 && pr.second in u2 && RingMatch(pr.first, pr.second)
    decreases |u1|
  {
    if |u1| > 0 {
      var last := |u1| - 1;
      MatchingPairsMembership(u1[..last], u2, pr);
      MatchingRowMembership(u1[last], u2, pr);
      assert u1 == u1[..last] + [u1[last]];
    }
  }

  /** A candidate survives exactly when it passes the embedded test. */
  lemma {:induction false} EmbeddedSurvivorsMembership(candidates: seq<RingPair>, pr: RingPair)
    requires HexagonPairs(candidates)
    ensures pr in EmbeddedSurvivors(candidates)
        <==> pr in candidates && EmbeddedMatch(pr.first, pr.second)
    decreases |candidates|
  {
    if |candidates| > 0 {
      var last := |candidates| - 1;
      EmbeddedSurvivorsMembership(candidates[..last], pr);
      assert candidates == candidates[..last] + [candidates[last]];
    }
  }

  /** idx picks the entries of a out of b, in increasing positions. */
  predicate SubsequenceWitness(a: seq<RingPair>, b: seq<RingPair>, idx: seq<int>)
  {
    && |idx| == |a|
    && (forall k :: 0 <= k < |idx| ==> 0 <= idx[k] < |b| && a[k] == b[idx[k]])
    && (forall k, l :: 0 <= k < l < |idx| ==> idx[k] < idx[l])
  }

  ghost predicate IsSubsequence(a: seq<RingPair>, b: seq<RingPair>)
  {
    exists idx :: SubsequenceWitness(a, b, idx)
  }

  /** The final rings are the candidates with some left out, order kept. */
  lemma {:induction false} EmbeddedSurvivorsSubsequence(candidates: seq<RingPair>)
    requires HexagonPairs(candidates)
    ensures IsSubsequence(EmbeddedSurvivors(candidates), candidates)
    decreases |candidates|
  {
    if |candidates| == 0 {
      assert SubsequenceWitness([], candidates, []);
    } else {
      var last := |candidates| - 1;
      var prefix := candidates[..last];
      EmbeddedSurvivorsSubsequence(prefix);
      var kept := EmbeddedSurvivors(prefix);
      var idx :| SubsequenceWitness(kept, prefix, idx);
      var pr := candidates[last];
      assert candidates == prefix + [pr];
      if EmbeddedMatch(pr.first, pr.second) {
        assert EmbeddedSurvivors(candidates) == kept + [pr];
        WitnessKeepsLast(kept, prefix, idx, pr);
        assert SubsequenceWitness(kept + [pr], prefix + [pr], idx + [|prefix|]);
      } else {
        assert EmbeddedSurvivors(candidates) == kept;
        WitnessDropsLast(kept, prefix, idx, pr);
        assert SubsequenceWitness(kept, prefix + [pr], idx);
      }
    }
  }

  lemma WitnessKeepsLast(a: seq<RingPair>, b: seq<RingPair>, idx: seq<int>, x: RingPair)
    requires SubsequenceWitness(a, b, idx)
    ensures SubsequenceWitness(a + [x], b + [x], idx + [|b|])
  {
  }

  lemma WitnessDropsLast(a: seq<RingPair>, b: seq<RingPair>, idx: seq<int>, x: RingPair)
    requires SubsequenceWitness(a, b, idx)
    ensures SubsequenceWitness(a, b + [x], idx)
  {
  }

  /** No pair is listed twice. */
  predicate PairsDistinct(ps: seq<RingPair>)
  {
    forall i, j :: 0 <= i < j < |ps| ==> ps[i] != ps[j]
  }

  lemma DistinctConcat(a: seq<RingPair>, b: seq<RingPair>)
    requires PairsDistinct(a) && PairsDistinct(b)
    requires forall x <- a :: x !in b
    ensures PairsDistinct(a + b)
  {
    forall i, j | 0 <= i < j < |a + b|
      ensures (a + b)[i] != (a + b)[j]
    {
      if j < |a| {
        assert (a + b)[i] == a[i] && (a + b)[j] == a[j];
      } else if |a| <= i {
        assert (a + b)[i] == b[i - |a|] && (a + b)[j] == b[j - |a|];
      } else {
        assert (a + b)[i] == a[i] && a[i] in a;
        assert (a + b)[j] == b[j - |a|] && b[j - |a|] in b;
      }
    }
  }

  /** One row lists each second arrangement at most once, when u2 does. */
  lemma {:induction false} MatchingRowDistinct(p1: seq<int>, u2: seq<seq<int>>)
    requires Distinct(u2)
    ensures PairsDistinct(MatchingRow(p1, u2))
    decreases |u2|
  {
    if |u2| > 0 {
      var last := |u2| - 1;
      var p2 := u2[last];
      MatchingRowDistinct(p1, u2[..last]);
      forall x | x in MatchingRow(p1, u2[..last])
        ensures x != RingPair(p1, p2)
      {
        MatchingRowMembership(p1, u2[..last], x);
        var k :| 0 <= k < last && u2[..last][k] == x.second;
        assert u2[k] != u2[last];
      }
      DistinctConcat(MatchingRow(p1, u2[..last]), if RingMatch(p1, p2) then [RingPair(p1, p2)] else []);
    }
  }

  /** Lists without repeats give candidates without repeats. */
  lemma {:induction false} MatchingPairsDistinct(u1: seq<seq<int>>, u2: seq<seq<int>>)
    requires Distinct(u1) && Distinct(u2)
    ensures PairsDistinct(MatchingPairs(u1, u2))
    decreases |u1|
  {
    if |u1| > 0 {
      var last := |u1| - 1;
      MatchingPairsDistinct(u1[..last], u2);
      MatchingRowDistinct(u1[last], u2);
      forall x | x in MatchingPairs(u1[..last], u2)
        ensures x !in MatchingRow(u1[last], u2)
      {
        MatchingPairsMembership(u1[..last], u2, x);
        MatchingRowMembership(u1[last], u2, x);
        var k :| 0 <= k < last && u1[..last][k] == x.first;
        assert u1[k] != u1[last];
      }
      DistinctConcat(MatchingPairs(u1[..last], u2), MatchingRow(u1[last], u2));
    }
  }

  /** Leaving candidates out cannot create a repeat. */
  lemma {:induction false} EmbeddedSurvivorsDistinct(candidates: seq<RingPair>)
    requires HexagonPairs(candidates) && PairsDistinct(candidates)
    ensures PairsDistinct(EmbeddedSurvivors(candidates))
    decreases |candidates|
  {
    if |candidates| > 0 {
      var last := |candidates| - 1;
      var prefix := candidates[..last];
      var pr := candidates[last];
      assert PairsDistinct(prefix);
      EmbeddedSurvivorsDistinct(prefix);
      forall x | x in EmbeddedSurvivors(prefix)
        ensures x != pr
      {
        EmbeddedSurvivorsMembership(prefix, x);
        var k :| 0 <= k < last && prefix[k] == x;
        assert candidates[k] != candidates[last];
      }
      DistinctConcat(EmbeddedSurvivors(prefix), if EmbeddedMatch(pr.first, pr.second) then [pr] else []);
    }
  }

  // ---------------------------------------------------------------------
  // Why one representative per class is enough for steps 2 to 4.
  // ---------------------------------------------------------------------

  lemma CyclicSumsEquivalent(a: seq<int>, a': seq<int>, maxDegree: nat)
    requires a' in Orbit(a)
    ensures CyclicSums(a', maxDegree) == CyclicSums(a, maxDegree)
  {
    var i, reflected := OrbitMember(a, a');
    forall m | 1 <= m <= maxDegree
      ensures CyclicSum(a', m) == CyclicSum(a, m)
    {
      if reflected {
        CyclicSumRotate(Reverse(a), i, m);
        CyclicSumReverse(a, m);
      } else {
        CyclicSumRotate(a, i, m);
      }
    }
  }

  lemma ProductSumsEquivalent(a: seq<int>, a': seq<int>)
    requires a' in Orbit(a)
    ensures DiagonalProductSum(a') == DiagonalProductSum(a)
    ensures RegularTriangleProductSum(a') == RegularTriangleProductSum(a)
  {
    var i, reflected := OrbitMember(a, a');
    if reflected {
      DiagonalProductSumDihedral(Reverse(a), i);
      TriangleProductSumDihedral(Reverse(a), i);
      DiagonalProductSumDihedral(a, 0);
      TriangleProductSumDihedral(a, 0);
    } else {
      DiagonalProductSumDihedral(a, i);
      TriangleProductSumDihedral(a, i);
    }
  }

  /** Steps 2 to 4 give the same answer for any rotation or reversal of either
      arrangement, so checking the representatives decides every pair. */
  lemma RingMatchUpToEquivalence(a: seq<int>, b: seq<int>, a': seq<int>, b': seq<int>)
    requires a' in Orbit(a) && b' in Orbit(b)
    ensures RingMatch(a', b') <==> RingMatch(a, b)
  {
    CyclicSumsEquivalent(a, a', 5);
    CyclicSumsEquivalent(b, b', 5);
    ProductSumsEquivalent(a, a');
    ProductSumsEquivalent(b, b');
  }

  lemma RingMatchOfRepresentatives(a: seq<int>, b: seq<int>)
    requires |a| > 0 && |b| > 0
    ensures RingMatch(Canonical(a), Canonical(b)) <==> RingMatch(a, b)
  {
    RingMatchUpToEquivalence(a, b, Canonical(a), Canonical(b));
  }

  // ---------------------------------------------------------------------
  // The loops of the check.
  // ---------------------------------------------------------------------

  method CyclicSumList(s: seq<int>, maxDegree: nat) returns (sums: seq<int>)
    ensures sums == CyclicSums(s, maxDegree)
  {
    sums := [];
    for m := 1 to maxDegree + 1
      invariant sums == CyclicSums(s, m - 1)
    {
      var c := CyclicProductSum(s, m);
      sums := sums + [c];
    }
  }

  /** Steps 2 to 4 over every pair of representatives. */
  method RingCandidates(u1: seq<seq<int>>, u2: seq<seq<int>>) returns (candidates: seq<RingPair>)
    ensures candidates == MatchingPairs(u1, u2)
  {
    candidates := [];
    for i := 0 to |u1|
      invariant candidates == MatchingPairs(u1[..i], u2)
    {
      var perm1 := u1[i];
      assert u1[..i + 1][..i] == u1[..i];
      for j := 0 to |u2|
        invariant candidates == MatchingPairs(u1[..i], u2) + MatchingRow(perm1, u2[..j])
      {
        var perm2 := u2[j];
        assert u2[..j + 1][..j] == u2[..j];
        var cyclicSums1 := CyclicSumList(perm1, 5);
        var cyclicSums2 := CyclicSumList(perm2, 5);
        if cyclicSums1 == cyclicSums2 {
          var diagSum1 := DiagonalProductSum(perm1);
          var diagSum2 := DiagonalProductSum(perm2);
          if diagSum1 == diagSum2 {
            var triSum1 := RegularTriangleProductSum(perm1);
            var triSum2 := RegularTriangleProductSum(perm2);
            if triSum1 == triSum2 {
              candidates := candidates + [RingPair(perm1, perm2)];
            }
          }
        }
      }
      assert u2[..|u2|] == u2;
    }
    assert u1[..|u1|] == u1;
  }

  /** Steps 5 and 6 over the candidates, skipping those that fail either. */
  method EmbeddedStage(candidates: seq<RingPair>) returns (rings: seq<RingPair>)
    requires HexagonPairs(candidates)
    ensures rings == EmbeddedSurvivors(candidates)
  {
    rings := [];
    for i := 0 to |candidates|
      invariant rings == EmbeddedSurvivors(candidates[..i])
    {
      assert candidates[..i + 1][..i] == candidates[..i];
      var perm1, perm2 := candidates[i].first, candidates[i].second;
      var triangle1 := [perm1[0], perm1[2], perm1[4]];
      var triangle2 := [perm2[1], perm2[3], perm2[5]];
      var triSums1 := CalculatePowerSums(triangle1, 2);
      var triSums2 := CalculatePowerSums(triangle2, 2);
      if triSums1 != triSums2 {
        continue;
      }
      var triCyclic1 := CyclicSumList(triangle1, 2);
      var triCyclic2 := CyclicSumList(triangle2, 2);
      if triCyclic1 != triCyclic2 {
        continue;
      }
      rings := rings + [candidates[i]];
    }
    assert candidates[..|candidates|] == candidates;
  }

  // ---------------------------------------------------------------------
  // The whole check on two sets of six integers.
  // ---------------------------------------------------------------------

  lemma SetHasMinimum(s: set<int>) returns (x: int)
    requires s != {}
    ensures x in s && forall y <- s :: x <= y
    decreases |s|
  {
    if forall z :: z !in s {
      assert false;
    }
    var z :| z in s;
    if s == {z} {
      x := z;
    } else {
      var x' := SetHasMinimum(s - {z});
      x := if z < x' then z else x';
      forall y | y in s
        ensures x <= y
      {
        if y != z {
          assert y in s - {z};
        }
      }
    }
  }

  /** The members of a set listed once each, in increasing order. */
  method SortedList(s: set<int>) returns (l: seq<int>)
    ensures multiset(l) == multiset(s)
    ensures forall i, j :: 0 <= i < j < |l| ==> l[i] < l[j]
  {
    l := [];
    var rest := s;
    while rest != {}
      invariant rest <= s
      invariant multiset(l) + multiset(rest) == multiset(s)
      invariant forall i, j :: 0 <= i < j < |l| ==> l[i] < l[j]
      invariant forall i, y :: 0 <= i < |l| && y in rest ==> l[i] < y
      decreases |rest|
    {
      var least := SetHasMinimum(rest);
      var x :| x in rest && forall y <- rest :: x <= y;
      assert multiset(rest) == multiset(rest - {x}) + multiset{x};
      l := l + [x];
      rest := rest - {x};
    }
  }

  /** a is an arrangement of the set s: it lists each member exactly once. */
  ghost predicate Arranges(a: seq<int>, s: set<int>)
  {
    multiset(a) == multiset(s)
  }

  ghost predicate IsCanonical(a: seq<int>)
  {
    |a| > 0 && Canonical(a) == a
  }

  /** A pair the check reports after step 4: representatives of arrangements
      of the two sets that pass the cyclic, diagonal and triangle tests. */
  ghost predicate IsRingCandidate(pr: RingPair, s1: set<int>, s2: set<int>)
  {
    && Arranges(pr.first, s1) && IsCanonical(pr.first)
    && Arranges(pr.second, s2) && IsCanonical(pr.second)
    && RingMatch(pr.first, pr.second)
  }

  /** The deduplicated permutations of a listing of s are exactly the
      arrangements of s that are their own representatives. */
  lemma RepresentativesOfSet(l: seq<int>, s: set<int>, u: seq<seq<int>>)
    requires multiset(l) == multiset(s) && |s| > 0
    requires forall p <- Permutations(l) :: |p| > 0
    requires forall x :: x in u <==> exists p <- Permutations(l) :: x == Canonical(p)
    ensures forall a :: a in u <==> Arranges(a, s) && IsCanonical(a)
  {
    forall a | a in u
      ensures Arranges(a, s) && IsCanonical(a)
    {
      var p :| p in Permutations(l) && a == Canonical(p);
      PermutationsSound(l, p);
      CanonicalIdempotent(p);
    }
    forall a | Arranges(a, s) && IsCanonical(a)
      ensures a in u
    {
      PermutationsComplete(l, a);
    }
  }

  lemma PermutationsOfHexagon(l: seq<int>)
    requires |l| == 6
    ensures forall p <- Permutations(l) :: |p| == 6
  {
    forall p | p in Permutations(l)
      ensures |p| == 6
    {
      PermutationsSound(l, p);
      assert |p| == |multiset(p)|;
    }
  }

  lemma ArrangementPowerSums(l: seq<int>, s: set<int>)
    requires multiset(l) == multiset(s)
    ensures forall a | Arranges(a, s) :: PowerSums(a, 5) == PowerSums(l, 5)
  {
    forall a | Arranges(a, s)
      ensures PowerSums(a, 5) == PowerSums(l, 5)
    {
      PowerSumsPermutation(a, l, 5);
    }
  }

  /** The pairs kept by steps 2 to 4 from the lists of representatives of two
      sets of six are exactly the ring candidates of the sets, none twice. */
  lemma CandidatesOfSets(u1: seq<seq<int>>, u2: seq<seq<int>>, s1: set<int>, s2: set<int>)
    requires |s1| == 6 && |s2| == 6 && Distinct(u1) && Distinct(u2)
    requires forall a :: a in u1 <==> Arranges(a, s1) && IsCanonical(a)
    requires forall a :: a in u2 <==> Arranges(a, s2) && IsCanonical(a)
    ensures forall pr :: pr in MatchingPairs(u1, u2) <==> IsRingCandidate(pr, s1, s2)
    ensures HexagonPairs(MatchingPairs(u1, u2)) && PairsDistinct(MatchingPairs(u1, u2))
  {
    var candidates := MatchingPairs(u1, u2);
    MatchingPairsDistinct(u1, u2);
    forall pr
      ensures pr in candidates <==> IsRingCandidate(pr, s1, s2)
    {
      MatchingPairsMembership(u1, u2, pr);
    }
    forall pr | pr in candidates
      ensures |pr.first| == 6 && |pr.second| == 6
    {
      assert |pr.first| == |multiset(s1)| && |pr.second| == |multiset(s2)|;
    }
  }

  /** The check of main_program on two sets of six integers: if the power sums
      of degrees 0..5 differ, nothing else is examined; otherwise every pair
      of representative arrangements passing steps 2 to 4 is a candidate, and
      the candidates passing steps 5 and 6 are the rings. */
  method MatchRings(s1: set<int>, s2: set<int>) returns (v: Verdict)
    requires |s1| == 6 && |s2| == 6
    ensures forall a1, a2 | Arranges(a1, s1) && Arranges(a2, s2)
      :: v.NotSoaisu? <==> PowerSums(a1, 5) != PowerSums(a2, 5)
    ensures v.Checked? ==> forall pr :: pr in v.candidates <==> IsRingCandidate(pr, s1, s2)
    ensures v.Checked? ==> HexagonPairs(v.candidates) && v.rings == EmbeddedSurvivors(v.candidates)
    ensures v.Checked? ==> PairsDistinct(v.candidates) && PairsDistinct(v.rings)
  {
    var list1 := SortedList(s1);
    var list2 := SortedList(s2);
    ArrangementPowerSums(list1, s1);
    ArrangementPowerSums(list2, s2);

    var powerSums1 := CalculatePowerSums(list1, 5);
    var powerSums2 := CalculatePowerSums(list2, 5);
    if powerSums1 != powerSums2 {
      return NotSoaisu;
    }

    assert |list1| == |multiset(s1)| == 6 && |list2| == |multiset(s2)| == 6;
    PermutationsOfHexagon(list1);
    PermutationsOfHexagon(list2);
    var unique1 := UniqueArrangements(Permutations(list1));
    var unique2 := UniqueArrangements(Permutations(list2));
    RepresentativesOfSet(list1, s1, unique1);
    RepresentativesOfSet(list2, s2, unique2);

    var candidates := RingCandidates(unique1, unique2);
    CandidatesOfSets(unique1, unique2, s1, s2);
    if candidates == [] {
      return Checked([], []);
    }

    var rings := EmbeddedStage(candidates);
    EmbeddedSurvivorsDistinct(candidates);
    v := Checked(candidates, rings);
  }
}
