/** What the symbolic check computes, stated for every n and m at once. The
    verifier replaces each base value v by v*n + m and compares the expanded
    polynomials. Here each compared quantity of the lifted lists is written as
    a polynomial in n and m whose coefficients depend on the base values only:
    equal coefficients give the same value at every point. */
module Expansion {
  import opened Invariants
  import opened Matcher
  import opened Algebraic

  // ---------------------------------------------------------------------
  // Power sums of a lifted list: equal power sums of degrees 0..K stay equal
  // under every map x |-> x*n + m.
  // ---------------------------------------------------------------------

  /** The sum over the entries x of s of x^k * (x*n + m)^j. */
  function MixedSum(s: seq<int>, k: nat, j: nat, n: int, m: int): int
  {
    if |s| == 0 then 0
    else MixedSum(s[..|s| - 1], k, j, n, m) + Pow(s[|s| - 1], k) * Pow(s[|s| - 1] * n + m, j)
  }

  lemma {:induction false} MixedSumUnlifted(s: seq<int>, k: nat, n: int, m: int)
    ensures MixedSum(s, k, 0, n, m) == PowerSum(s, k)
    decreases |s|
  {
    if |s| > 0 {
      MixedSumUnlifted(s[..|s| - 1], k, n, m);
    }
  }

  /** One factor x*n + m split off a single term. */
  lemma MixedTerm(x: int, k: nat, j: nat, n: int, m: int)
    ensures Pow(x, k) * Pow(x * n + m, j + 1)
         == n * (Pow(x, k + 1) * Pow(x * n + m, j)) + m * (Pow(x, k) * Pow(x * n + m, j))
  {
    var a, b := Pow(x, k), Pow(x * n + m, j);
    assert Pow(x * n + m, j + 1) == (x * n + m) * b;
    assert Pow(x, k + 1) == x * a;
    FactorOut(x, a, b, n, m);
  }

  lemma {:induction false} MixedSumStep(s: seq<int>, k: nat, j: nat, n: int, m: int)
    ensures MixedSum(s, k, j + 1, n, m) == n * MixedSum(s, k + 1, j, n, m) + m * MixedSum(s, k, j, n, m)
    decreases |s|
  {
    if |s| > 0 {
      var prefix, x := s[..|s| - 1], s[|s| - 1];
      MixedSumStep(prefix, k, j, n, m);
      MixedTerm(x, k, j, n, m);
      CombineSums(n, m, MixedSum(prefix, k + 1, j, n, m), Pow(x, k + 1) * Pow(x * n + m, j),
                  MixedSum(prefix, k, j, n, m), Pow(x, k) * Pow(x * n + m, j));
    }
  }

  /** Lists whose power sums agree up to degree K agree on every mixed sum of
      total degree at most K. */
  lemma {:induction false} MixedSumsAgree(a: seq<int>, b: seq<int>, bound: nat, k: nat, j: nat, n: int, m: int)
    requires forall p: nat :: p <= bound ==> PowerSum(a, p) == PowerSum(b, p)
    requires k + j <= bound
    ensures MixedSum(a, k, j, n, m) == MixedSum(b, k, j, n, m)
    decreases j
  {
    if j == 0 {
      MixedSumUnlifted(a, k, n, m);
      MixedSumUnlifted(b, k, n, m);
    } else {
      MixedSumsAgree(a, b, bound, k + 1, j - 1, n, m);
      MixedSumsAgree(a, b, bound, k, j - 1, n, m);
      MixedSumStep(a, k, j - 1, n, m);
      MixedSumStep(b, k, j - 1, n, m);
    }
  }

  lemma {:induction false} PowerSumOfLift(s: seq<int>, p: nat, n: int, m: int)
    ensures PowerSum(Lift(s, n, m), p) == MixedSum(s, 0, p, n, m)
    decreases |s|
  {
    if |s| > 0 {
      var last := |s| - 1;
      assert Lift(s, n, m)[..last] == Lift(s[..last], n, m);
      PowerSumOfLift(s[..last], p, n, m);
    }
  }

  /** Two lists with the same power sums of degrees 0..K still have the same
      power sums of degrees 0..K after every entry x becomes x*n + m. */
  lemma PowerSumsOfLift(a: seq<int>, b: seq<int>, bound: nat, n: int, m: int)
    requires PowerSums(a, bound) == PowerSums(b, bound)
    ensures PowerSums(Lift(a, n, m), bound) == PowerSums(Lift(b, n, m), bound)
  {
    forall p: nat | p <= bound
      ensures PowerSum(a, p) == PowerSum(b, p)
    {
      assert PowerSums(a, bound)[p] == PowerSums(b, bound)[p];
    }
    forall p | 0 <= p <= bound
      ensures PowerSums(Lift(a, n, m), bound)[p] == PowerSums(Lift(b, n, m), bound)[p]
    {
      MixedSumsAgree(a, b, bound, 0, p, n, m);
      PowerSumOfLift(a, p, n, m);
      PowerSumOfLift(b, p, n, m);
    }
  }

  // ---------------------------------------------------------------------
  // Homogeneous polynomials in n and m by their coefficient lists.
  // ---------------------------------------------------------------------

  /** c[k] is the coefficient of n^k * m^(|c| - 1 - k). */
  function Eval(c: seq<int>, n: int, m: int): int
    decreases |c|
  {
    if |c| == 0 then 0 else c[0] * Pow(m, |c| - 1) + n * Eval(c[1..], n, m)
  }

  function AddCoeffs(c: seq<int>, d: seq<int>): (r: seq<int>)
    requires |c| == |d|
    ensures |r| == |c|
    ensures forall k :: 0 <= k < |r| ==> r[k] == c[k] + d[k]
  {
    seq(|c|, k requires 0 <= k < |c| => c[k] + d[k])
  }

  function ScaleCoeffs(a: int, c: seq<int>): (r: seq<int>)
    ensures |r| == |c|
    ensures forall k :: 0 <= k < |r| ==> r[k] == a * c[k]
  {
    seq(|c|, k requires 0 <= k < |c| => a * c[k])
  }

  function Zeros(len: nat): (r: seq<int>)
    ensures |r| == len && forall k :: 0 <= k < len ==> r[k] == 0
  {
    seq(len, k => 0)
  }

  /** The coefficients of the product with the linear factor a*n + m. */
  function MulLinear(c: seq<int>, a: int): (r: seq<int>)
    ensures |r| == |c| + 1
  {
    AddCoeffs(c + [0], ScaleCoeffs(a, [0] + c))
  }

  lemma {:induction false} EvalAdd(c: seq<int>, d: seq<int>, n: int, m: int)
    requires |c| == |d|
    ensures Eval(AddCoeffs(c, d), n, m) == Eval(c, n, m) + Eval(d, n, m)
    decreases |c|
  {
    if |c| > 0 {
      assert AddCoeffs(c, d)[1..] == AddCoeffs(c[1..], d[1..]);
      EvalAdd(c[1..], d[1..], n, m);
      AddStep(c[0], d[0], Pow(m, |c| - 1), n, Eval(c[1..], n, m), Eval(d[1..], n, m));
    }
  }

  lemma {:induction false} EvalScale(a: int, c: seq<int>, n: int, m: int)
    ensures Eval(ScaleCoeffs(a, c), n, m) == a * Eval(c, n, m)
    decreases |c|
  {
    if |c| > 0 {
      assert ScaleCoeffs(a, c)[1..] == ScaleCoeffs(a, c[1..]);
      EvalScale(a, c[1..], n, m);
      ScaleStep(a, c[0], Pow(m, |c| - 1), n, Eval(c[1..], n, m));
    }
  }

  lemma {:induction false} EvalZeros(len: nat, n: int, m: int)
    ensures Eval(Zeros(len), n, m) == 0
    decreases len
  {
    if len > 0 {
      assert Zeros(len)[1..] == Zeros(len - 1);
      EvalZeros(len - 1, n, m);
    }
  }

  /** Appending a zero coefficient multiplies by m. */
  lemma {:induction false} EvalTimesM(c: seq<int>, n: int, m: int)
    ensures Eval(c + [0], n, m) == m * Eval(c, n, m)
    decreases |c|
  {
    if |c| > 0 {
      assert (c + [0])[1..] == c[1..] + [0];
      EvalTimesM(c[1..], n, m);
      assert Pow(m, |c|) == m * Pow(m, |c| - 1);
      TimesMStep(c[0], Pow(m, |c| - 1), n, m, Eval(c[1..], n, m));
    }
  }

  /** Prepending a zero coefficient multiplies by n. */
  lemma EvalTimesN(c: seq<int>, n: int, m: int)
    ensures Eval([0] + c, n, m) == n * Eval(c, n, m)
  {
    assert ([0] + c)[1..] == c;
  }

  lemma EvalMulLinear(c: seq<int>, a: int, n: int, m: int)
    ensures Eval(MulLinear(c, a), n, m) == (a * n + m) * Eval(c, n, m)
  {
    EvalAdd(c + [0], ScaleCoeffs(a, [0] + c), n, m);
    EvalTimesM(c, n, m);
    EvalScale(a, [0] + c, n, m);
    EvalTimesN(c, n, m);
    LinearFactor(a, n, m, Eval(c, n, m));
  }

  // ---------------------------------------------------------------------
  // Cyclic product sums of a lifted list.
  // ---------------------------------------------------------------------

  /** The coefficients of the lifted window product of degree p at j: entry k
      sums the products of the k-element choices of factors in the window. */
  function WindowCoeffs(s: seq<int>, j: int, p: int): (r: seq<int>)
    requires |s| > 0
    ensures |r| == if p <= 0 then 1 else p + 1
    decreases p
  {
    if p <= 0 then [1] else MulLinear(WindowCoeffs(s, j, p - 1), s[(j + p - 1) % |s|])
  }

  lemma {:induction false} WindowCoeffsEval(s: seq<int>, j: int, p: int, n: int, m: int)
    requires |s| > 0
    ensures Eval(WindowCoeffs(s, j, p), n, m) == WindowProduct(Lift(s, n, m), j, p)
    decreases p
  {
    if p <= 0 {
      assert Eval([1], n, m) == 1 * Pow(m, 0) + n * Eval([], n, m);
    } else {
      var x := s[(j + p - 1) % |s|];
      WindowCoeffsEval(s, j, p - 1, n, m);
      EvalMulLinear(WindowCoeffs(s, j, p - 1), x, n, m);
      var t := WindowProduct(Lift(s, n, m), j, p - 1);
      assert (x * n + m) * t == t * (x * n + m);
    }
  }

  /** The coefficients of the sum of the lifted windows starting before J. */
  function CyclicCoeffs(s: seq<int>, p: int, count: nat): (r: seq<int>)
    requires |s| > 0
    ensures |r| == if p <= 0 then 1 else p + 1
    decreases count
  {
    if count == 0 then Zeros(if p <= 0 then 1 else p + 1)
    else AddCoeffs(CyclicCoeffs(s, p, count - 1), WindowCoeffs(s, count - 1, p))
  }

  lemma {:induction false} CyclicCoeffsEval(s: seq<int>, p: int, count: nat, n: int, m: int)
    requires 0 < |s| && count <= |s|
    ensures Eval(CyclicCoeffs(s, p, count), n, m) == Sum(Windows(Lift(s, n, m), p)[..count])
    decreases count
  {
    if count == 0 {
      EvalZeros(if p <= 0 then 1 else p + 1, n, m);
    } else {
      CyclicCoeffsEval(s, p, count - 1, n, m);
      CyclicCoeffsEvalStep(s, p, count, n, m);
    }
  }

  /** One more window added to both sides. */
  lemma CyclicCoeffsEvalStep(s: seq<int>, p: int, count: nat, n: int, m: int)
    requires 0 < count <= |s|
    requires Eval(CyclicCoeffs(s, p, count - 1), n, m) == Sum(Windows(Lift(s, n, m), p)[..count - 1])
    ensures Eval(CyclicCoeffs(s, p, count), n, m) == Sum(Windows(Lift(s, n, m), p)[..count])
  {
    var lifted := Lift(s, n, m);
    var w := Windows(lifted, p);
    var before, window := CyclicCoeffs(s, p, count - 1), WindowCoeffs(s, count - 1, p);
    assert CyclicCoeffs(s, p, count) == AddCoeffs(before, window);
    EvalAdd(before, window, n, m);
    WindowCoeffsEval(s, count - 1, p, n, m);
    assert w[count - 1] == WindowProduct(lifted, count - 1, p);
    SumOfPrefix(w, count);
  }

  lemma SumOfPrefix(t: seq<int>, k: nat)
    requires 0 < k <= |t|
    ensures Sum(t[..k]) == Sum(t[..k - 1]) + t[k - 1]
  {
    assert t[..k][..k - 1] == t[..k - 1];
  }

  /** The lifted cyclic product sum of degree p is the polynomial with the
      coefficients CyclicCoeffs(s, p, |s|). */
  lemma CyclicSumOfLift(s: seq<int>, p: int, n: int, m: int)
    requires |s| > 0
    ensures CyclicSum(Lift(s, n, m), p) == Eval(CyclicCoeffs(s, p, |s|), n, m)
  {
    CyclicCoeffsEval(s, p, |s|, n, m);
    var w := Windows(Lift(s, n, m), p);
    assert w[..|s|] == w;
  }

  // ---------------------------------------------------------------------
  // The diagonal and triangle product sums of a lifted hexagon.
  // ---------------------------------------------------------------------

  /** The coefficients of the product of the lifted entries of xs. */
  function ProductCoeffs(xs: seq<int>): (r: seq<int>)
    ensures |r| == |xs| + 1
    decreases |xs|
  {
    if |xs| == 0 then [1] else MulLinear(ProductCoeffs(xs[..|xs| - 1]), xs[|xs| - 1])
  }

  lemma ProductOfOneLift(a: int, n: int, m: int)
    ensures Eval(ProductCoeffs([a]), n, m) == a * n + m
  {
    assert [a][..0] == [];
    assert ProductCoeffs([a]) == MulLinear([1], a);
    assert Eval([1], n, m) == 1 * Pow(m, 0) + n * Eval([], n, m);
    EvalMulLinear([1], a, n, m);
  }

  lemma ProductOfTwoLifts(a: int, b: int, n: int, m: int)
    ensures Eval(ProductCoeffs([a, b]), n, m) == (a * n + m) * (b * n + m)
  {
    var c := ProductCoeffs([a]);
    assert [a, b][..1] == [a];
    assert ProductCoeffs([a, b]) == MulLinear(c, b);
    ProductOfOneLift(a, n, m);
    EvalMulLinear(c, b, n, m);
    ScaledBy(Eval(ProductCoeffs([a, b]), n, m), b * n + m, Eval(c, n, m));
  }

  lemma ProductOfThreeLifts(a: int, b: int, c: int, n: int, m: int)
    ensures Eval(ProductCoeffs([a, b, c]), n, m) == (a * n + m) * (b * n + m) * (c * n + m)
  {
    var d := ProductCoeffs([a, b]);
    assert [a, b, c][..2] == [a, b];
    assert ProductCoeffs([a, b, c]) == MulLinear(d, c);
    ProductOfTwoLifts(a, b, n, m);
    EvalMulLinear(d, c, n, m);
    ScaledBy(Eval(ProductCoeffs([a, b, c]), n, m), c * n + m, Eval(d, n, m));
  }

  /** The coefficients of the lifted diagonal product sum. */
  function DiagonalCoeffs(s: seq<int>): (r: seq<int>)
    requires |s| >= 6
    ensures |r| == 3
  {
    AddCoeffs(AddCoeffs(ProductCoeffs([s[0], s[3]]), ProductCoeffs([s[1], s[4]])), ProductCoeffs([s[2], s[5]]))
  }

  /** The coefficients of the lifted regular-triangle product sum. */
  function TriangleCoeffs(s: seq<int>): (r: seq<int>)
    requires |s| >= 6
    ensures |r| == 4
  {
    AddCoeffs(ProductCoeffs([s[0], s[2], s[4]]), ProductCoeffs([s[1], s[3], s[5]]))
  }

  lemma DiagonalOfLift(s: seq<int>, n: int, m: int)
    requires |s| >= 6
    ensures DiagonalTerm(Lift(s, n, m)) == Eval(DiagonalCoeffs(s), n, m)
  {
    ProductOfTwoLifts(s[0], s[3], n, m);
    ProductOfTwoLifts(s[1], s[4], n, m);
    ProductOfTwoLifts(s[2], s[5], n, m);
    EvalAdd(ProductCoeffs([s[0], s[3]]), ProductCoeffs([s[1], s[4]]), n, m);
    EvalAdd(AddCoeffs(ProductCoeffs([s[0], s[3]]), ProductCoeffs([s[1], s[4]])), ProductCoeffs([s[2], s[5]]), n, m);
  }

  lemma TriangleOfLift(s: seq<int>, n: int, m: int)
    requires |s| >= 6
    ensures TriangleTerm(Lift(s, n, m)) == Eval(TriangleCoeffs(s), n, m)
  {
    ProductOfThreeLifts(s[0], s[2], s[4], n, m);
    ProductOfThreeLifts(s[1], s[3], s[5], n, m);
    EvalAdd(ProductCoeffs([s[0], s[2], s[4]]), ProductCoeffs([s[1], s[3], s[5]]), n, m);
  }

  // ---------------------------------------------------------------------
  // Sufficient conditions on the base values for the identity in n and m.
  // ---------------------------------------------------------------------

  lemma TrianglesOfLift(s: seq<int>, n: int, m: int)
    requires |s| == 6
    ensures EvenTriangle(Lift(s, n, m)) == Lift(EvenTriangle(s), n, m)
    ensures OddTriangle(Lift(s, n, m)) == Lift(OddTriangle(s), n, m)
  {
  }

  /** The coefficient conditions that make every comparison of the verifier
      hold at every point. */
  ghost predicate CoefficientsAgree(s1: seq<int>, s2: seq<int>)
    requires |s1| == 6 && |s2| == 6
  {
    && PowerSums(s1, 5) == PowerSums(s2, 5)
    && (forall p :: 1 <= p <= 5 ==> CyclicCoeffs(s1, p, 6) == CyclicCoeffs(s2, p, 6))
    && DiagonalCoeffs(s1) == DiagonalCoeffs(s2)
    && TriangleCoeffs(s1) == TriangleCoeffs(s2)
    && PowerSums(EvenTriangle(s1), 2) == PowerSums(OddTriangle(s2), 2)
    && (forall p :: 1 <= p <= 2 ==> CyclicCoeffs(EvenTriangle(s1), p, 3) == CyclicCoeffs(OddTriangle(s2), p, 3))
  }

  /** Matching coefficients make the pair pass every comparison at every
      point (n, m), which is what the symbolic check confirms. */
  lemma CoefficientsGiveIdentity(s1: seq<int>, s2: seq<int>)
    requires |s1| == 6 && |s2| == 6 && CoefficientsAgree(s1, s2)
    ensures HoldsForAllNM(s1, s2)
  {
    forall n, m
      ensures ConditionsHold(Lift(s1, n, m), Lift(s2, n, m))
    {
      LiftedHexagonsAgree(s1, s2, n, m);
      LiftedTrianglesAgree(s1, s2, n, m);
    }
  }

  lemma LiftedHexagonsAgree(s1: seq<int>, s2: seq<int>, n: int, m: int)
    requires |s1| == 6 && |s2| == 6 && CoefficientsAgree(s1, s2)
    ensures HexagonConditions(Lift(s1, n, m), Lift(s2, n, m))
  {
    var e1, e2 := Lift(s1, n, m), Lift(s2, n, m);
    PowerSumsOfLift(s1, s2, 5, n, m);
    PowerSumsAgreeAsTuples(e1, e2, 5);
    forall p | 1 <= p <= 5
      ensures CyclicSum(e1, p) == CyclicSum(e2, p)
    {
      CyclicSumOfLift(s1, p, n, m);
      CyclicSumOfLift(s2, p, n, m);
    }
    DiagonalOfLift(s1, n, m);
    DiagonalOfLift(s2, n, m);
    TriangleOfLift(s1, n, m);
    TriangleOfLift(s2, n, m);
  }

  lemma LiftedTrianglesAgree(s1: seq<int>, s2: seq<int>, n: int, m: int)
    requires |s1| == 6 && |s2| == 6 && CoefficientsAgree(s1, s2)
    ensures PowerSumsAgree(EvenTriangle(Lift(s1, n, m)), OddTriangle(Lift(s2, n, m)), 2)
    ensures CyclicSumsAgree(EvenTriangle(Lift(s1, n, m)), OddTriangle(Lift(s2, n, m)), 2)
  {
    var t1, t2 := EvenTriangle(s1), OddTriangle(s2);
    TrianglesOfLift(s1, n, m);
    TrianglesOfLift(s2, n, m);
    PowerSumsOfLift(t1, t2, 2, n, m);
    PowerSumsAgreeAsTuples(Lift(t1, n, m), Lift(t2, n, m), 2);
    forall p | 1 <= p <= 2
      ensures CyclicSum(Lift(t1, n, m), p) == CyclicSum(Lift(t2, n, m), p)
    {
      CyclicSumOfLift(t1, p, n, m);
      CyclicSumOfLift(t2, p, n, m);
    }
  }

  // ---------------------------------------------------------------------
  // Coefficient lists entry by entry, for evaluating them on given values.
  // ---------------------------------------------------------------------

  /** Multiplying by a*n + m adds a times the previous coefficient to each one. */
  lemma MulLinearValues(c: seq<int>, a: int, d: seq<int>)
    requires |c| > 0 && |d| == |c| + 1
    requires d[0] == c[0] && d[|c|] == a * c[|c| - 1]
    requires forall k :: 0 < k < |c| ==> d[k] == c[k] + a * c[k - 1]
    ensures MulLinear(c, a) == d
  {
    forall k | 0 <= k < |d|
      ensures MulLinear(c, a)[k] == d[k]
    {
      if k == 0 {
        assert (c + [0])[0] == c[0] && ([0] + c)[0] == 0;
      } else if k == |c| {
        assert (c + [0])[k] == 0 && ([0] + c)[k] == c[k - 1];
      } else {
        assert (c + [0])[k] == c[k] && ([0] + c)[k] == c[k - 1];
      }
    }
  }

  lemma MulLinearOfOne(c0: int, a: int)
    ensures MulLinear([c0], a) == [c0, a * c0]
  {
    MulLinearValues([c0], a, [c0, a * c0]);
  }

  lemma MulLinearOfTwo(c0: int, c1: int, a: int)
    ensures MulLinear([c0, c1], a) == [c0, c1 + a * c0, a * c1]
  {
    MulLinearValues([c0, c1], a, [c0, c1 + a * c0, a * c1]);
  }

  lemma MulLinearOfThree(c0: int, c1: int, c2: int, a: int)
    ensures MulLinear([c0, c1, c2], a) == [c0, c1 + a * c0, c2 + a * c1, a * c2]
  {
    MulLinearValues([c0, c1, c2], a, [c0, c1 + a * c0, c2 + a * c1, a * c2]);
  }

  lemma MulLinearOfFour(c0: int, c1: int, c2: int, c3: int, a: int)
    ensures MulLinear([c0, c1, c2, c3], a) == [c0, c1 + a * c0, c2 + a * c1, c3 + a * c2, a * c3]
  {
    MulLinearValues([c0, c1, c2, c3], a, [c0, c1 + a * c0, c2 + a * c1, c3 + a * c2, a * c3]);
  }

  lemma MulLinearOfFive(c0: int, c1: int, c2: int, c3: int, c4: int, a: int)
    ensures MulLinear([c0, c1, c2, c3, c4], a) == [c0, c1 + a * c0, c2 + a * c1, c3 + a * c2, c4 + a * c3, a * c4]
  {
    MulLinearValues([c0, c1, c2, c3, c4], a, [c0, c1 + a * c0, c2 + a * c1, c3 + a * c2, c4 + a * c3, a * c4]);
  }

  lemma AddCoeffsOfTwo(c0: int, c1: int, d0: int, d1: int)
    ensures AddCoeffs([c0, c1], [d0, d1]) == [c0 + d0, c1 + d1]
  {
  }

  lemma AddCoeffsOfThree(c0: int, c1: int, c2: int, d0: int, d1: int, d2: int)
    ensures AddCoeffs([c0, c1, c2], [d0, d1, d2]) == [c0 + d0, c1 + d1, c2 + d2]
  {
  }

  lemma AddCoeffsOfFour(c0: int, c1: int, c2: int, c3: int, d0: int, d1: int, d2: int, d3: int)
    ensures AddCoeffs([c0, c1, c2, c3], [d0, d1, d2, d3]) == [c0 + d0, c1 + d1, c2 + d2, c3 + d3]
  {
  }

  lemma AddCoeffsOfFive(c0: int, c1: int, c2: int, c3: int, c4: int, d0: int, d1: int, d2: int, d3: int, d4: int)
    ensures AddCoeffs([c0, c1, c2, c3, c4], [d0, d1, d2, d3, d4]) == [c0 + d0, c1 + d1, c2 + d2, c3 + d3, c4 + d4]
  {
  }

  lemma AddCoeffsOfSix(c0: int, c1: int, c2: int, c3: int, c4: int, c5: int, d0: int, d1: int, d2: int, d3: int, d4: int, d5: int)
    ensures AddCoeffs([c0, c1, c2, c3, c4, c5], [d0, d1, d2, d3, d4, d5]) == [c0 + d0, c1 + d1, c2 + d2, c3 + d3, c4 + d4, c5 + d5]
  {
  }

  /** The first window of a cyclic sum is added to zero coefficients. */
  lemma CyclicCoeffsFirst(s: seq<int>, p: int)
    requires |s| > 0
    ensures CyclicCoeffs(s, p, 1) == WindowCoeffs(s, 0, p)
  {
  }

  lemma ProductCoeffsOfTwo(a: int, b: int)
    ensures ProductCoeffs([a, b]) == [1, a + b, a * b]
  {
    assert [a, b][..1] == [a] && [a][..0] == [];
    assert ProductCoeffs([]) == [1];
    MulLinearValues([1], a, [1, a]);
    assert ProductCoeffs([a]) == MulLinear(ProductCoeffs([]), a) == [1, a];
    MulLinearValues([1, a], b, [1, a + b, a * b]);
    assert ProductCoeffs([a, b]) == MulLinear(ProductCoeffs([a]), b);
  }

  lemma ProductCoeffsOfThree(a: int, b: int, c: int)
    ensures ProductCoeffs([a, b, c]) == [1, a + b + c, a * b + a * c + b * c, a * b * c]
  {
    assert [a, b, c][..2] == [a, b];
    ProductCoeffsOfTwo(a, b);
    assert b * c + a * c == a * c + b * c;
    MulLinearValues([1, a + b, a * b], c, [1, a + b + c, a * b + a * c + b * c, a * b * c]);
  }

  // Windows and cyclic sums one step further, for lists written out.

  lemma NextWindowOfOne(s: seq<int>, j: int, p: int, c0: int, a: int)
    requires |s| > 0 && p >= 1 && s[(j + p - 1) % |s|] == a
    requires WindowCoeffs(s, j, p - 1) == [c0]
    ensures WindowCoeffs(s, j, p) == [c0, a * c0]
  {
    MulLinearOfOne(c0, a);
  }

  lemma NextWindowOfTwo(s: seq<int>, j: int, p: int, c0: int, c1: int, a: int)
    requires |s| > 0 && p >= 1 && s[(j + p - 1) % |s|] == a
    requires WindowCoeffs(s, j, p - 1) == [c0, c1]
    ensures WindowCoeffs(s, j, p) == [c0, c1 + a * c0, a * c1]
  {
    MulLinearOfTwo(c0, c1, a);
  }

  lemma NextWindowOfThree(s: seq<int>, j: int, p: int, c0: int, c1: int, c2: int, a: int)
    requires |s| > 0 && p >= 1 && s[(j + p - 1) % |s|] == a
    requires WindowCoeffs(s, j, p - 1) == [c0, c1, c2]
    ensures WindowCoeffs(s, j, p) == [c0, c1 + a * c0, c2 + a * c1, a * c2]
  {
    MulLinearOfThree(c0, c1, c2, a);
  }

  lemma NextWindowOfFour(s: seq<int>, j: int, p: int, c0: int, c1: int, c2: int, c3: int, a: int)
    requires |s| > 0 && p >= 1 && s[(j + p - 1) % |s|] == a
    requires WindowCoeffs(s, j, p - 1) == [c0, c1, c2, c3]
    ensures WindowCoeffs(s, j, p) == [c0, c1 + a * c0, c2 + a * c1, c3 + a * c2, a * c3]
  {
    MulLinearOfFour(c0, c1, c2, c3, a);
  }

  lemma NextWindowOfFive(s: seq<int>, j: int, p: int, c0: int, c1: int, c2: int, c3: int, c4: int, a: int)
    requires |s| > 0 && p >= 1 && s[(j + p - 1) % |s|] == a
    requires WindowCoeffs(s, j, p - 1) == [c0, c1, c2, c3, c4]
    ensures WindowCoeffs(s, j, p) == [c0, c1 + a * c0, c2 + a * c1, c3 + a * c2, c4 + a * c3, a * c4]
  {
    MulLinearOfFive(c0, c1, c2, c3, c4, a);
  }

  lemma NextCyclicOfTwo(s: seq<int>, p: int, count: nat, c0: int, c1: int, d0: int, d1: int)
    requires |s| > 0 && count >= 1
    requires CyclicCoeffs(s, p, count - 1) == [c0, c1]
    requires WindowCoeffs(s, count - 1, p) == [d0, d1]
    ensures CyclicCoeffs(s, p, count) == [c0 + d0, c1 + d1]
  {
    AddCoeffsOfTwo(c0, c1, d0, d1);
  }

  lemma NextCyclicOfThree(s: seq<int>, p: int, count: nat, c0: int, c1: int, c2: int, d0: int, d1: int, d2: int)
    requires |s| > 0 && count >= 1
    requires CyclicCoeffs(s, p, count - 1) == [c0, c1, c2]
    requires WindowCoeffs(s, count - 1, p) == [d0, d1, d2]
    ensures CyclicCoeffs(s, p, count) == [c0 + d0, c1 + d1, c2 + d2]
  {
    AddCoeffsOfThree(c0, c1, c2, d0, d1, d2);
  }

  lemma NextCyclicOfFour(s: seq<int>, p: int, count: nat, c0: int, c1: int, c2: int, c3: int, d0: int, d1: int, d2: int, d3: int)
    requires |s| > 0 && count >= 1
    requires CyclicCoeffs(s, p, count - 1) == [c0, c1, c2, c3]
    requires WindowCoeffs(s, count - 1, p) == [d0, d1, d2, d3]
    ensures CyclicCoeffs(s, p, count) == [c0 + d0, c1 + d1, c2 + d2, c3 + d3]
  {
    AddCoeffsOfFour(c0, c1, c2, c3, d0, d1, d2, d3);
  }

  lemma NextCyclicOfFive(s: seq<int>, p: int, count: nat, c0: int, c1: int, c2: int, c3: int, c4: int, d0: int, d1: int, d2: int, d3: int, d4: int)
    requires |s| > 0 && count >= 1
    requires CyclicCoeffs(s, p, count - 1) == [c0, c1, c2, c3, c4]
    requires WindowCoeffs(s, count - 1, p) == [d0, d1, d2, d3, d4]
    ensures CyclicCoeffs(s, p, count) == [c0 + d0, c1 + d1, c2 + d2, c3 + d3, c4 + d4]
  {
    AddCoeffsOfFive(c0, c1, c2, c3, c4, d0, d1, d2, d3, d4);
  }

  lemma NextCyclicOfSix(s: seq<int>, p: int, count: nat, c0: int, c1: int, c2: int, c3: int, c4: int, c5: int, d0: int, d1: int, d2: int, d3: int, d4: int, d5: int)
    requires |s| > 0 && count >= 1
    requires CyclicCoeffs(s, p, count - 1) == [c0, c1, c2, c3, c4, c5]
    requires WindowCoeffs(s, count - 1, p) == [d0, d1, d2, d3, d4, d5]
    ensures CyclicCoeffs(s, p, count) == [c0 + d0, c1 + d1, c2 + d2, c3 + d3, c4 + d4, c5 + d5]
  {
    AddCoeffsOfSix(c0, c1, c2, c3, c4, c5, d0, d1, d2, d3, d4, d5);
  }

  // ---------------------------------------------------------------------
  // Ring arithmetic, one rearrangement at a time.
  // ---------------------------------------------------------------------

  lemma FactorOut(x: int, a: int, b: int, n: int, m: int)
    ensures a * ((x * n + m) * b) == n * ((x * a) * b) + m * (a * b)
  {
  }

  lemma CombineSums(n: int, m: int, a: int, b: int, c: int, d: int)
    ensures n * (a + b) + m * (c + d) == (n * a + m * c) + (n * b + m * d)
  {
  }

  lemma AddStep(c0: int, d0: int, e: int, n: int, tc: int, td: int)
    ensures (c0 + d0) * e + n * (tc + td) == (c0 * e + n * tc) + (d0 * e + n * td)
  {
  }

  lemma ScaleStep(a: int, c0: int, e: int, n: int, t: int)
    ensures a * c0 * e + n * (a * t) == a * (c0 * e + n * t)
  {
  }

  lemma TimesMStep(c0: int, e: int, n: int, m: int, t: int)
    ensures c0 * (m * e) + n * (m * t) == m * (c0 * e + n * t)
  {
  }

  lemma LinearFactor(a: int, n: int, m: int, t: int)
    ensures m * t + a * (n * t) == (a * n + m) * t
  {
  }
}
