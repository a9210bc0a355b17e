/** The polynomial re-check of a 6-6 soaisu ring: every base value v becomes
    v*n + m and all the ring conditions are compared again. Two integer
    polynomials in n and m are identical exactly when they agree at every
    integer point, so the symbolic identity test is modelled as evaluation at
    a point (n, m) together with a predicate quantifying over all points. */
module Algebraic {
  import opened Arrangement
  import opened Invariants
  import opened Dedup
  import opened Matcher

  /** Every base value v replaced by v * n + m, in the same positions. */
  function Lift(base: seq<int>, n: int, m: int): (r: seq<int>)
    ensures |r| == |base|
  {
    seq(|base|, i requires 0 <= i < |base| => base[i] * n + m)
  }

  /** Entry i of the lifted list is entry i of the base list times n, plus m. */
  lemma LiftAt(base: seq<int>, n: int, m: int, i: nat)
    requires i < |base|
    ensures Lift(base, n, m)[i] == base[i] * n + m
  {
  }

  /** At n = 1, m = 0 the lift gives back the base values. */
  lemma LiftIdentity(base: seq<int>)
    ensures Lift(base, 1, 0) == base
  {
  }

  /** Lifting twice is one lift whose slope and offset are composed. */
  lemma LiftCompose(base: seq<int>, n: int, m: int, n': int, m': int)
    ensures Lift(Lift(base, n, m), n', m') == Lift(base, n * n', m * n' + m')
  {
    forall i | 0 <= i < |base|
      ensures Lift(Lift(base, n, m), n', m')[i] == Lift(base, n * n', m * n' + m')[i]
    {
      var v := base[i];
      assert (v * n + m) * n' == v * (n * n') + m * n' by {
        assert (v * n + m) * n' == (v * n) * n' + m * n';
      }
    }
  }

  // ---------------------------------------------------------------------
  // The comparisons, in the order they are made.
  // ---------------------------------------------------------------------

  predicate PowerSumsAgree(a: seq<int>, b: seq<int>, k: int)
  {
    forall p: nat :: 1 <= p <= k ==> PowerSum(a, p) == PowerSum(b, p)
  }

  predicate CyclicSumsAgree(a: seq<int>, b: seq<int>, k: int)
  {
    forall p :: 1 <= p <= k ==> CyclicSum(a, p) == CyclicSum(b, p)
  }

  /** Power sums and cyclic sums of degrees 1..5, the diagonal product sum
      and the regular-triangle product sum. */
  predicate HexagonConditions(e1: seq<int>, e2: seq<int>)
    requires |e1| >= 6 && |e2| >= 6
  {
    && PowerSumsAgree(e1, e2, 5)
    && CyclicSumsAgree(e1, e2, 5)
    && DiagonalTerm(e1) == DiagonalTerm(e2)
    && TriangleTerm(e1) == TriangleTerm(e2)
  }

  /** Every comparison, the embedded triangles taken crosswise: positions
      0, 2, 4 of the first list against positions 1, 3, 5 of the second, on
      power sums and cyclic sums of degrees 1..2. */
  predicate ConditionsHold(e1: seq<int>, e2: seq<int>)
    requires |e1| >= 6 && |e2| >= 6
  {
    && HexagonConditions(e1, e2)
    && PowerSumsAgree(EvenTriangle(e1), OddTriangle(e2), 2)
    && CyclicSumsAgree(EvenTriangle(e1), OddTriangle(e2), 2)
  }

  /** The outcome of the symbolic check: every comparison is a polynomial
      identity in n and m, that is, holds at every integer point; in
      particular it holds for the base values themselves. */
  ghost function HoldsForAllNM(s1Base: seq<int>, s2Base: seq<int>): (r: bool)
    requires |s1Base| >= 6 && |s2Base| >= 6
    ensures r ==> ConditionsHold(s1Base, s2Base)
  {
    LiftIdentity(s1Base);
    LiftIdentity(s2Base);
    forall n, m :: ConditionsHold(Lift(s1Base, n, m), Lift(s2Base, n, m))
  }

  /** A pair confirmed for all n and m stays confirmed after any further
      substitution v -> v * n + m of its values. */
  lemma HoldsForAllNMUnderLift(s1: seq<int>, s2: seq<int>, n: int, m: int)
    requires |s1| >= 6 && |s2| >= 6 && HoldsForAllNM(s1, s2)
    ensures HoldsForAllNM(Lift(s1, n, m), Lift(s2, n, m))
  {
    forall n', m'
      ensures ConditionsHold(Lift(Lift(s1, n, m), n', m'), Lift(Lift(s2, n, m), n', m'))
    {
      LiftCompose(s1, n, m, n', m');
      LiftCompose(s2, n, m, n', m');
      assert ConditionsHold(Lift(s1, n * n', m * n' + m'), Lift(s2, n * n', m * n' + m'));
    }
  }

  // ---------------------------------------------------------------------
  // The loops of the verifier, evaluated at one point.
  // ---------------------------------------------------------------------

  /** Adds up the p-th power of every value, one value at a time. */
  method SumOfPowers(values: seq<int>, p: nat) returns (total: int)
    ensures total == PowerSum(values, p)
  {
    total := 0;
    for i := 0 to |values|
      invariant total == PowerSum(values[..i], p)
    {
      PrefixStep(values, i);
      total := total + Pow(values[i], p);
    }
    assert values[..|values|] == values;
  }

  /** The cyclic product sum by nested loops, with no test for a zero
      degree: degree 0 gives one empty product 1 per position. The early
      return for an empty list stands in for the outer loop running zero
      times, which leaves the empty sum 0. It agrees with the validator's
      version on every input. */
  method CyclicProdSumExpr(arr: seq<int>, mPower: int) returns (expr: int)
    ensures expr == CyclicSum(arr, mPower)
  {
    expr := 0;
    var count := |arr|;
    if count == 0 {
      return;
    }
    var w := Windows(arr, mPower);
    for j := 0 to count
      invariant expr == Sum(w[..j])
    {
      var term := 1;
      var k := 0;
      while k < mPower
        invariant 0 <= k <= if mPower < 0 then 0 else mPower
        invariant term == WindowProduct(arr, j, k)
      {
        term := term * arr[(j + k) % count];
        k := k + 1;
      }
      assert term == w[j];
      PrefixStep(w, j);
      expr := expr + term;
    }
    assert w[..count] == w;
  }

  /** Every stage is run whatever the earlier ones found; the flag starts
      true and a failed comparison only ever clears it. */
  method CompareAllConditions(s1: seq<int>, s2: seq<int>) returns (overallMatch: bool)
    requires |s1| >= 6 && |s2| >= 6
    ensures overallMatch <==> ConditionsHold(s1, s2)
  {
    overallMatch := true;

    for p := 1 to 6
      invariant overallMatch <==> PowerSumsAgree(s1, s2, p - 1)
    {
      var sum1 := SumOfPowers(s1, p);
      var sum2 := SumOfPowers(s2, p);
      if sum1 != sum2 {
        overallMatch := false;
      }
    }

    for p := 1 to 6
      invariant overallMatch <==> PowerSumsAgree(s1, s2, 5) && CyclicSumsAgree(s1, s2, p - 1)
    {
      var c1 := CyclicProdSumExpr(s1, p);
      var c2 := CyclicProdSumExpr(s2, p);
      if c1 != c2 {
        overallMatch := false;
      }
    }

    var diag1 := s1[0] * s1[3] + s1[1] * s1[4] + s1[2] * s1[5];
    var diag2 := s2[0] * s2[3] + s2[1] * s2[4] + s2[2] * s2[5];
    assert diag1 == DiagonalTerm(s1) && diag2 == DiagonalTerm(s2);
    if diag1 != diag2 {
      overallMatch := false;
    }

    var tri1 := s1[0] * s1[2] * s1[4] + s1[1] * s1[3] * s1[5];
    var tri2 := s2[0] * s2[2] * s2[4] + s2[1] * s2[3] * s2[5];
    assert tri1 == TriangleTerm(s1) && tri2 == TriangleTerm(s2);
    if tri1 != tri2 {
      overallMatch := false;
    }
    assert overallMatch <==> HexagonConditions(s1, s2);

    var s1Triangle := [s1[0], s1[2], s1[4]];
    var s2Triangle := [s2[1], s2[3], s2[5]];
    assert s1Triangle == EvenTriangle(s1) && s2Triangle == OddTriangle(s2);
    for p := 1 to 3
      invariant overallMatch <==> HexagonConditions(s1, s2) && PowerSumsAgree(s1Triangle, s2Triangle, p - 1)
    {
      var sum1 := SumOfPowers(s1Triangle, p);
      var sum2 := SumOfPowers(s2Triangle, p);
      if sum1 != sum2 {
        overallMatch := false;
      }
    }

    for p := 1 to 3
      invariant overallMatch <==> HexagonConditions(s1, s2) && PowerSumsAgree(s1Triangle, s2Triangle, 2)
                                  && CyclicSumsAgree(s1Triangle, s2Triangle, p - 1)
    {
      var c1 := CyclicProdSumExpr(s1Triangle, p);
      var c2 := CyclicProdSumExpr(s2Triangle, p);
      if c1 != c2 {
        overallMatch := false;
      }
    }
  }

  /** Both arrangements are lifted to the point (n, m) and then compared
      stage by stage. */
  method VerifyAllConditionsAt(s1Base: seq<int>, s2Base: seq<int>, n: int, m: int)
    returns (overallMatch: bool)
    requires |s1Base| >= 6 && |s2Base| >= 6
    ensures overallMatch <==> ConditionsHold(Lift(s1Base, n, m), Lift(s2Base, n, m))
  {
    var s1 := Lift(s1Base, n, m);
    var s2 := Lift(s2Base, n, m);
    overallMatch := CompareAllConditions(s1, s2);
  }

  // ---------------------------------------------------------------------
  // What a positive symbolic result says about the base arrangements.
  // ---------------------------------------------------------------------

  lemma PowerSumsAgreeAsTuples(a: seq<int>, b: seq<int>, k: nat)
    requires |a| == |b|
    ensures PowerSumsAgree(a, b, k) <==> PowerSums(a, k) == PowerSums(b, k)
  {
    PowerSumDegreeZero(a);
    PowerSumDegreeZero(b);
    if PowerSumsAgree(a, b, k) {
      forall p | 0 <= p <= k
        ensures PowerSums(a, k)[p] == PowerSums(b, k)[p]
      {
      }
    }
    if PowerSums(a, k) == PowerSums(b, k) {
      forall p: nat | 1 <= p <= k
        ensures PowerSum(a, p) == PowerSum(b, p)
      {
        assert PowerSums(a, k)[p] == PowerSums(b, k)[p];
      }
    }
  }

  lemma CyclicSumsAgreeAsLists(a: seq<int>, b: seq<int>, k: nat)
    ensures CyclicSumsAgree(a, b, k) <==> CyclicSums(a, k) == CyclicSums(b, k)
  {
    if CyclicSums(a, k) == CyclicSums(b, k) {
      forall p | 1 <= p <= k
        ensures CyclicSum(a, p) == CyclicSum(b, p)
      {
        assert CyclicSums(a, k)[p - 1] == CyclicSums(b, k)[p - 1];
      }
    }
  }

  /** At the base values (n = 1, m = 0) the comparisons are exactly the
      validator's tests on the same ordered pair: the power-sum tuples of
      degrees 0..5, steps 2 to 4, and the embedded test of steps 5 and 6. */
  lemma ConditionsAtBaseValues(s1: seq<int>, s2: seq<int>)
    requires |s1| == 6 && |s2| == 6
    ensures ConditionsHold(Lift(s1, 1, 0), Lift(s2, 1, 0))
        <==> PowerSums(s1, 5) == PowerSums(s2, 5) && RingMatch(s1, s2) && EmbeddedMatch(s1, s2)
  {
    LiftIdentity(s1);
    LiftIdentity(s2);
    PowerSumsAgreeAsTuples(s1, s2, 5);
    CyclicSumsAgreeAsLists(s1, s2, 5);
    PowerSumsAgreeAsTuples(EvenTriangle(s1), OddTriangle(s2), 2);
    CyclicSumsAgreeAsLists(EvenTriangle(s1), OddTriangle(s2), 2);
  }

  /** A ring confirmed for all n and m passes every test of the validator
      in the order given. */
  lemma SymbolicImpliesValidator(s1: seq<int>, s2: seq<int>)
    requires |s1| == 6 && |s2| == 6 && HoldsForAllNM(s1, s2)
    ensures PowerSums(s1, 5) == PowerSums(s2, 5) && RingMatch(s1, s2) && EmbeddedMatch(s1, s2)
  {
    assert ConditionsHold(Lift(s1, 1, 0), Lift(s2, 1, 0));
    ConditionsAtBaseValues(s1, s2);
  }

  /** The validator, given the two sets of entries, then reports the pair of
      representatives of the two arrangements as a candidate. */
  lemma SymbolicImpliesCandidate(a1: seq<int>, a2: seq<int>, s1: set<int>, s2: set<int>)
    requires |s1| == 6 && |s2| == 6 && Arranges(a1, s1) && Arranges(a2, s2)
    requires |a1| == 6 && |a2| == 6 && HoldsForAllNM(a1, a2)
    ensures IsRingCandidate(RingPair(Canonical(a1), Canonical(a2)), s1, s2)
  {
    SymbolicImpliesValidator(a1, a2);
    RingMatchOfRepresentatives(a1, a2);
    CanonicalIdempotent(a1);
    CanonicalIdempotent(a2);
  }
}
