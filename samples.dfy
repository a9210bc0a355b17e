/** The sample rings offered by the prompts of both programs, checked end to
    end: the validator finds the ring, and a pair of sets with different sums
    stops at the power-sum stage. */
module Samples {
  import opened Arrangement
  import opened Invariants
  import opened Dedup
  import opened Matcher
  import opened Algebraic

  // ---------------------------------------------------------------------
  // Unfolding the sums over six and three entries.
  // ---------------------------------------------------------------------

  lemma SumOfSix(t: seq<int>)
    requires |t| == 6
    ensures Sum(t) == t[0] + t[1] + t[2] + t[3] + t[4] + t[5]
  {
    assert t[..5][..4] == t[..4] && t[..4][..3] == t[..3] && t[..3][..2] == t[..2];
    assert t[..2][..1] == t[..1] && t[..1][..0] == [];
    assert Sum(t[..1]) == t[0];
    assert Sum(t[..2]) == Sum(t[..1]) + t[1];
    assert Sum(t[..3]) == Sum(t[..2]) + t[2];
    assert Sum(t[..4]) == Sum(t[..3]) + t[3];
    assert Sum(t[..5]) == Sum(t[..4]) + t[4];
  }

  lemma SumOfThree(t: seq<int>)
    requires |t| == 3
    ensures Sum(t) == t[0] + t[1] + t[2]
  {
    assert t[..2][..1] == t[..1] && t[..1][..0] == [];
    assert Sum(t[..1]) == t[0];
    assert Sum(t[..2]) == Sum(t[..1]) + t[1];
  }

  lemma PowerSumOfSix(s: seq<int>, p: nat)
    requires |s| == 6
    ensures PowerSum(s, p) == Pow(s[0], p) + Pow(s[1], p) + Pow(s[2], p) + Pow(s[3], p) + Pow(s[4], p) + Pow(s[5], p)
  {
    assert s[..5][..4] == s[..4] && s[..4][..3] == s[..3] && s[..3][..2] == s[..2];
    assert s[..2][..1] == s[..1] && s[..1][..0] == [];
    assert PowerSum(s[..1], p) == Pow(s[0], p);
    assert PowerSum(s[..2], p) == PowerSum(s[..1], p) + Pow(s[1], p);
    assert PowerSum(s[..3], p) == PowerSum(s[..2], p) + Pow(s[2], p);
    assert PowerSum(s[..4], p) == PowerSum(s[..3], p) + Pow(s[3], p);
    assert PowerSum(s[..5], p) == PowerSum(s[..4], p) + Pow(s[4], p);
  }

  lemma PowerSumOfThree(s: seq<int>, p: nat)
    requires |s| == 3
    ensures PowerSum(s, p) == Pow(s[0], p) + Pow(s[1], p) + Pow(s[2], p)
  {
    assert s[..2][..1] == s[..1] && s[..1][..0] == [];
    assert PowerSum(s[..1], p) == Pow(s[0], p);
    assert PowerSum(s[..2], p) == PowerSum(s[..1], p) + Pow(s[1], p);
  }

  lemma CyclicSumOfSix(s: seq<int>, m: int)
    requires |s| == 6
    ensures CyclicSum(s, m) == WindowProduct(s, 0, m) + WindowProduct(s, 1, m) + WindowProduct(s, 2, m)
                             + WindowProduct(s, 3, m) + WindowProduct(s, 4, m) + WindowProduct(s, 5, m)
  {
    SumOfSix(Windows(s, m));
  }

  lemma CyclicSumOfThree(s: seq<int>, m: int)
    requires |s| == 3
    ensures CyclicSum(s, m) == WindowProduct(s, 0, m) + WindowProduct(s, 1, m) + WindowProduct(s, 2, m)
  {
    SumOfThree(Windows(s, m));
  }

  // ---------------------------------------------------------------------
  // The sample ring, in the order the algebraic verifier's prompt gives it.
  // ---------------------------------------------------------------------

  /** The cyclic product sums of degrees 1..5 of the first sample ring, window by window. */
  lemma FirstRingCyclicSums()
    ensures CyclicSums([5, 14, 34, 45, 36, 16], 5) == [150, 4352, 108800, 1967500, 25498800]
  {
    var s := [5, 14, 34, 45, 36, 16];
    assert WindowProduct(s, 0, 1) == 5 && WindowProduct(s, 0, 2) == 70
      && WindowProduct(s, 0, 3) == 2380 && WindowProduct(s, 0, 4) == 107100
      && WindowProduct(s, 0, 5) == 3855600;
    assert WindowProduct(s, 1, 1) == 14 && WindowProduct(s, 1, 2) == 476
      && WindowProduct(s, 1, 3) == 21420 && WindowProduct(s, 1, 4) == 771120
      && WindowProduct(s, 1, 5) == 12337920;
    assert WindowProduct(s, 2, 1) == 34 && WindowProduct(s, 2, 2) == 1530
      && WindowProduct(s, 2, 3) == 55080 && WindowProduct(s, 2, 4) == 881280
      && WindowProduct(s, 2, 5) == 4406400;
    assert WindowProduct(s, 3, 1) == 45 && WindowProduct(s, 3, 2) == 1620
      && WindowProduct(s, 3, 3) == 25920 && WindowProduct(s, 3, 4) == 129600
      && WindowProduct(s, 3, 5) == 1814400;
    assert WindowProduct(s, 4, 1) == 36 && WindowProduct(s, 4, 2) == 576
      && WindowProduct(s, 4, 3) == 2880 && WindowProduct(s, 4, 4) == 40320
      && WindowProduct(s, 4, 5) == 1370880;
    assert WindowProduct(s, 5, 1) == 16 && WindowProduct(s, 5, 2) == 80
      && WindowProduct(s, 5, 3) == 1120 && WindowProduct(s, 5, 4) == 38080
      && WindowProduct(s, 5, 5) == 1713600;
    CyclicSumOfSix(s, 1);
    CyclicSumOfSix(s, 2);
    CyclicSumOfSix(s, 3);
    CyclicSumOfSix(s, 4);
    CyclicSumOfSix(s, 5);
  }

  /** The cyclic product sums of degrees 1..5 of the second sample ring, window by window. */
  lemma SecondRingCyclicSums()
    ensures CyclicSums([6, 21, 40, 44, 29, 10], 5) == [150, 4352, 108800, 1967500, 25498800]
  {
    var s := [6, 21, 40, 44, 29, 10];
    assert WindowProduct(s, 0, 1) == 6 && WindowProduct(s, 0, 2) == 126
      && WindowProduct(s, 0, 3) == 5040 && WindowProduct(s, 0, 4) == 221760
      && WindowProduct(s, 0, 5) == 6431040;
    assert WindowProduct(s, 1, 1) == 21 && WindowProduct(s, 1, 2) == 840
      && WindowProduct(s, 1, 3) == 36960 && WindowProduct(s, 1, 4) == 1071840
      && WindowProduct(s, 1, 5) == 10718400;
    assert WindowProduct(s, 2, 1) == 40 && WindowProduct(s, 2, 2) == 1760
      && WindowProduct(s, 2, 3) == 51040 && WindowProduct(s, 2, 4) == 510400
      && WindowProduct(s, 2, 5) == 3062400;
    assert WindowProduct(s, 3, 1) == 44 && WindowProduct(s, 3, 2) == 1276
      && WindowProduct(s, 3, 3) == 12760 && WindowProduct(s, 3, 4) == 76560
      && WindowProduct(s, 3, 5) == 1607760;
    assert WindowProduct(s, 4, 1) == 29 && WindowProduct(s, 4, 2) == 290
      && WindowProduct(s, 4, 3) == 1740 && WindowProduct(s, 4, 4) == 36540
      && WindowProduct(s, 4, 5) == 1461600;
    assert WindowProduct(s, 5, 1) == 10 && WindowProduct(s, 5, 2) == 60
      && WindowProduct(s, 5, 3) == 1260 && WindowProduct(s, 5, 4) == 50400
      && WindowProduct(s, 5, 5) == 2217600;
    CyclicSumOfSix(s, 1);
    CyclicSumOfSix(s, 2);
    CyclicSumOfSix(s, 3);
    CyclicSumOfSix(s, 4);
    CyclicSumOfSix(s, 5);
  }

  lemma SampleHexagonConditions()
    ensures HexagonConditions([5, 14, 34, 45, 36, 16], [6, 21, 40, 44, 29, 10])
  {
    var a := [5, 14, 34, 45, 36, 16];
    var b := [6, 21, 40, 44, 29, 10];
    forall p: nat | 1 <= p <= 5
      ensures PowerSum(a, p) == PowerSum(b, p)
    {
      PowerSumOfSix(a, p);
      PowerSumOfSix(b, p);
      assert p == 1 || p == 2 || p == 3 || p == 4 || p == 5;
    }
    FirstRingCyclicSums();
    SecondRingCyclicSums();
    CyclicSumsAgreeAsLists(a, b, 5);
  }

  lemma SampleTriangleConditions()
    ensures PowerSumsAgree([5, 34, 36], [21, 44, 10], 2)
    ensures CyclicSumsAgree([5, 34, 36], [21, 44, 10], 2)
  {
    var t1, t2 := [5, 34, 36], [21, 44, 10];
    forall p: nat | 1 <= p <= 2
      ensures PowerSum(t1, p) == PowerSum(t2, p)
    {
      PowerSumOfThree(t1, p);
      PowerSumOfThree(t2, p);
      assert p == 1 || p == 2;
    }
    assert WindowProduct(t1, 0, 2) == 170 && WindowProduct(t1, 1, 2) == 1224 && WindowProduct(t1, 2, 2) == 180;
    assert WindowProduct(t2, 0, 2) == 924 && WindowProduct(t2, 1, 2) == 440 && WindowProduct(t2, 2, 2) == 210;
    forall p | 1 <= p <= 2
      ensures CyclicSum(t1, p) == CyclicSum(t2, p)
    {
      CyclicSumOfThree(t1, p);
      CyclicSumOfThree(t2, p);
    }
  }

  /** The sample pair passes every comparison of the algebraic verifier at the
      base values n = 1, m = 0. */
  lemma SampleRingAtBaseValues()
    ensures ConditionsHold([5, 14, 34, 45, 36, 16], [6, 21, 40, 44, 29, 10])
  {
    SampleHexagonConditions();
    SampleTriangleConditions();
    assert EvenTriangle([5, 14, 34, 45, 36, 16]) == [5, 34, 36];
    assert OddTriangle([6, 21, 40, 44, 29, 10]) == [21, 44, 10];
  }

  /** The first sample ring is already its own representative. */
  lemma FirstRingIsCanonical()
    ensures Canonical([5, 14, 34, 45, 36, 16]) == [5, 14, 34, 45, 36, 16]
  {
    var a := [5, 14, 34, 45, 36, 16];
    var r := Reverse(a);
    assert r == [16, 36, 45, 34, 14, 5];
    forall i | 0 <= i < 6
      ensures !LexLess(Rotate(a, i), a) && !LexLess(Rotate(r, i), a)
    {
      assert Rotate(a, i)[0] == a[i] && Rotate(r, i)[0] == r[i];
      if i == 0 {
        LexLessIrreflexive(a);
        RotateZero(a);
      } else if i == 5 {
        assert Rotate(r, 5) == [5, 16, 36, 45, 34, 14];
      }
    }
    CanonicalWhenLeast(a);
  }

  lemma SecondRepresentativeIsLeast()
    ensures Canonical([6, 10, 29, 44, 40, 21]) == [6, 10, 29, 44, 40, 21]
  {
    var c := [6, 10, 29, 44, 40, 21];
    var r := Reverse(c);
    assert r == [21, 40, 44, 29, 10, 6];
    forall i | 0 <= i < 6
      ensures !LexLess(Rotate(c, i), c) && !LexLess(Rotate(r, i), c)
    {
      assert Rotate(c, i)[0] == c[i] && Rotate(r, i)[0] == r[i];
      if i == 0 {
        LexLessIrreflexive(c);
        RotateZero(c);
      } else if i == 5 {
        assert Rotate(r, 5) == [6, 21, 40, 44, 29, 10];
      }
    }
    CanonicalWhenLeast(c);
  }

  /** The second sample ring is represented by its reversal read from 6. */
  lemma SecondRingRepresentative()
    ensures Canonical([6, 21, 40, 44, 29, 10]) == [6, 10, 29, 44, 40, 21]
  {
    var b := [6, 21, 40, 44, 29, 10];
    var c := [6, 10, 29, 44, 40, 21];
    SecondRepresentativeIsLeast();
    assert Reverse(b) == [10, 29, 44, 40, 21, 6];
    assert Rotate(Reverse(b), 5) == c;
    RotationInOrbit(b, 5);
    CanonicalOfEquivalent(b, c);
  }

  /** The representatives of the sample pair pass the embedded test: the
      triangle 5, 34, 36 against the triangle 10, 44, 21. */
  lemma RepresentativesPassEmbeddedTest()
    ensures EmbeddedMatch([5, 14, 34, 45, 36, 16], [6, 10, 29, 44, 40, 21])
  {
    var t1, t2 := EvenTriangle([5, 14, 34, 45, 36, 16]), OddTriangle([6, 10, 29, 44, 40, 21]);
    assert t1 == [5, 34, 36] && t2 == [10, 44, 21];
    forall p: nat | p <= 2
      ensures PowerSum(t1, p) == PowerSum(t2, p)
    {
      PowerSumOfThree(t1, p);
      PowerSumOfThree(t2, p);
      assert p == 0 || p == 1 || p == 2;
    }
    PowerSumsAgreeAsTuples(t1, t2, 2);
    assert WindowProduct(t1, 0, 2) == 170 && WindowProduct(t1, 1, 2) == 1224 && WindowProduct(t1, 2, 2) == 180;
    assert WindowProduct(t2, 0, 2) == 440 && WindowProduct(t2, 1, 2) == 924 && WindowProduct(t2, 2, 2) == 210;
    forall p | 1 <= p <= 2
      ensures CyclicSum(t1, p) == CyclicSum(t2, p)
    {
      CyclicSumOfThree(t1, p);
      CyclicSumOfThree(t2, p);
    }
    CyclicSumsAgreeAsLists(t1, t2, 2);
  }

  /** The sample arrangements list the sample sets, and pass the power-sum
      stage and steps 2 to 4 in the validator's terms. */
  lemma SamplePassesValidatorSteps()
    ensures PowerSums([5, 14, 34, 45, 36, 16], 5) == PowerSums([6, 21, 40, 44, 29, 10], 5)
    ensures RingMatch([5, 14, 34, 45, 36, 16], [6, 21, 40, 44, 29, 10])
  {
    var a := [5, 14, 34, 45, 36, 16];
    var b := [6, 21, 40, 44, 29, 10];
    SampleRingAtBaseValues();
    LiftIdentity(a);
    LiftIdentity(b);
    ConditionsAtBaseValues(a, b);
  }

  lemma FirstSampleArranges()
    ensures Arranges([5, 14, 34, 45, 36, 16], {5, 14, 16, 34, 36, 45})
  {
    FirstSampleEntries();
    FirstSampleSet();
  }

  lemma FirstSampleEntries()
    ensures multiset([5, 14, 34, 45, 36, 16]) == multiset{5, 14, 16, 34, 36, 45}
  {
    assert multiset([5, 14, 34, 45, 36, 16]) == multiset{5, 14, 34, 45, 36, 16};
  }

  lemma FirstSampleSet()
    ensures multiset({5, 14, 16, 34, 36, 45}) == multiset{5, 14, 16, 34, 36, 45}
  {
    assert multiset({5, 14, 16, 34, 36, 45}) == multiset{5, 14, 16, 34, 36, 45};
  }

  lemma SecondSampleArranges()
    ensures Arranges([6, 21, 40, 44, 29, 10], {6, 10, 21, 29, 40, 44})
  {
    SecondSampleEntries();
    SecondSampleSet();
  }

  lemma SecondSampleEntries()
    ensures multiset([6, 21, 40, 44, 29, 10]) == multiset{6, 10, 21, 29, 40, 44}
  {
    assert multiset([6, 21, 40, 44, 29, 10]) == multiset{6, 21, 40, 44, 29, 10};
  }

  lemma SecondSampleSet()
    ensures multiset({6, 10, 21, 29, 40, 44}) == multiset{6, 10, 21, 29, 40, 44}
  {
    assert multiset({6, 10, 21, 29, 40, 44}) == multiset{6, 10, 21, 29, 40, 44};
  }

  /** The pair of representatives is a candidate of the validator. */
  lemma SampleRepresentativesAreCandidate()
    ensures IsRingCandidate(RingPair([5, 14, 34, 45, 36, 16], [6, 10, 29, 44, 40, 21]),
                            {5, 14, 16, 34, 36, 45}, {6, 10, 21, 29, 40, 44})
  {
    var a := [5, 14, 34, 45, 36, 16];
    var b := [6, 21, 40, 44, 29, 10];
    FirstSampleArranges();
    SecondSampleArranges();
    SamplePassesValidatorSteps();
    FirstRingIsCanonical();
    SecondRingRepresentative();
    CanonicalIdempotent(b);
    RingMatchOfRepresentatives(a, b);
  }

  /** The validator on the two sample sets of its prompts finds the ring:
      the sets pass the power-sum stage, and the representatives of the
      sample arrangements come out as a final pair. */
  method KnownSample() returns (v: Verdict)
    ensures v.Checked?
    ensures RingPair([5, 14, 34, 45, 36, 16], [6, 10, 29, 44, 40, 21]) in v.rings
  {
    var s1: set<int> := {5, 14, 16, 34, 36, 45};
    var s2: set<int> := {6, 10, 21, 29, 40, 44};
    assert |s1| == 6 && |s2| == 6;
    v := MatchRings(s1, s2);
    FirstSampleArranges();
    SecondSampleArranges();
    SamplePassesValidatorSteps();
    SampleRepresentativesAreCandidate();
    RepresentativesPassEmbeddedTest();
    var pr := RingPair([5, 14, 34, 45, 36, 16], [6, 10, 29, 44, 40, 21]);
    EmbeddedSurvivorsMembership(v.candidates, pr);
  }

  /** Sets whose entries add up differently (21 against 22) stop at the
      power-sum stage. */
  lemma FirstUnequalArranges()
    ensures Arranges([1, 2, 3, 4, 5, 6], {1, 2, 3, 4, 5, 6})
  {
    assert multiset([1, 2, 3, 4, 5, 6]) == multiset{1, 2, 3, 4, 5, 6};
    assert multiset({1, 2, 3, 4, 5, 6}) == multiset{1, 2, 3, 4, 5, 6};
  }

  lemma SecondUnequalArranges()
    ensures Arranges([1, 2, 3, 4, 5, 7], {1, 2, 3, 4, 5, 7})
  {
    assert multiset([1, 2, 3, 4, 5, 7]) == multiset{1, 2, 3, 4, 5, 7};
    assert multiset({1, 2, 3, 4, 5, 7}) == multiset{1, 2, 3, 4, 5, 7};
  }

  lemma UnequalSumsDiffer()
    ensures PowerSums([1, 2, 3, 4, 5, 6], 5) != PowerSums([1, 2, 3, 4, 5, 7], 5)
  {
    var a := [1, 2, 3, 4, 5, 6];
    var b := [1, 2, 3, 4, 5, 7];
    PowerSumOfSix(a, 1);
    PowerSumOfSix(b, 1);
    assert PowerSums(a, 5)[1] == 21 && PowerSums(b, 5)[1] == 22;
  }

  method UnequalSample() returns (v: Verdict)
    ensures v == NotSoaisu
  {
    var s1: set<int> := {1, 2, 3, 4, 5, 6};
    var s2: set<int> := {1, 2, 3, 4, 5, 7};
    assert |s1| == 6 && |s2| == 6;
    v := MatchRings(s1, s2);
    FirstUnequalArranges();
    SecondUnequalArranges();
    UnequalSumsDiffer();
  }
}
