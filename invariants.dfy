/** The numeric invariants of an arrangement: power sums, cyclic product sums,
    the diagonal product sum and the regular-triangle product sum. All
    arithmetic is on unbounded integers, as with Python's int. */
module Invariants {

  datatype Option<T> = None | Some(value: T)

  /** x to the power p for a non-negative exponent; 0 to the power 0 is 1. */
  function Pow(x: int, p: nat): int
  {
    if p == 0 then 1 else x * Pow(x, p - 1)
  }

  /** The sum of the entries of t, added up from the front. */
  function Sum(t: seq<int>): int
  {
    if |t| == 0 then 0 else Sum(t[..|t| - 1]) + t[|t| - 1]
  }

  /** The p-th power sum: the sum of the p-th powers of the entries of s. */
  function PowerSum(s: seq<int>, p: nat): int
  {
    if |s| == 0 then 0 else PowerSum(s[..|s| - 1], p) + Pow(s[|s| - 1], p)
  }

  /** The tuple of power sums of degrees 0 .. maxPower (empty when maxPower < 0). */
  function PowerSums(s: seq<int>, maxPower: int): (r: seq<int>)
    ensures |r| == if maxPower < 0 then 0 else maxPower + 1
  {
    seq(if maxPower < 0 then 0 else maxPower + 1, p requires 0 <= p => PowerSum(s, p))
  }

  /** The product of the m entries read from position j onwards, wrapping
      round through `(j + k) % |s|`; a window of m <= 0 entries is the empty
      product 1. */
  function WindowProduct(s: seq<int>, j: int, m: int): int
    requires |s| > 0
    decreases m
  {
    if m <= 0 then 1 else WindowProduct(s, j, m - 1) * s[(j + m - 1) % |s|]
  }

  /** The window products of degree m, one per starting position. */
  function Windows(s: seq<int>, m: int): (w: seq<int>)
    requires |s| > 0
    ensures |w| == |s|
  {
    seq(|s|, j requires 0 <= j < |s| => WindowProduct(s, j, m))
  }

  /** The m-th cyclic product sum: the sum over the |s| circular windows of
      length m of the product of the window; 0 for an empty sequence. */
  function CyclicSum(s: seq<int>, m: int): int
  {
    if |s| == 0 then 0 else Sum(Windows(s, m))
  }

  /** `a0*a3 + a1*a4 + a2*a5`, the products across the three diagonals. */
  function DiagonalTerm(s: seq<int>): int
    requires |s| >= 6
  {
    s[0] * s[3] + s[1] * s[4] + s[2] * s[5]
  }

  /** `a0*a2*a4 + a1*a3*a5`, the products round the two inscribed triangles. */
  function TriangleTerm(s: seq<int>): int
    requires |s| >= 6
  {
    s[0] * s[2] * s[4] + s[1] * s[3] * s[5]
  }

  function DiagonalProductSum(s: seq<int>): (r: Option<int>)
    ensures r.None? <==> |s| != 6
    ensures r.Some? ==> r.value == DiagonalTerm(s)
  {
    if |s| != 6 then None else Some(DiagonalTerm(s))
  }

  function RegularTriangleProductSum(s: seq<int>): (r: Option<int>)
    ensures r.None? <==> |s| != 6
    ensures r.Some? ==> r.value == TriangleTerm(s)
  {
    if |s| != 6 then None else Some(TriangleTerm(s))
  }

  /** The order of two factors does not matter. */
  lemma ScaledBy(a: int, b: int, c: int)
    requires a == b * c
    ensures a == c * b
  {
  }

  // ---------------------------------------------------------------------
  // The loops that compute the invariants.
  // ---------------------------------------------------------------------

  lemma PrefixStep(s: seq<int>, i: nat)
    requires i < |s|
    ensures s[..i + 1][..i] == s[..i] && s[..i + 1][i] == s[i]
  {
  }

  /** Fills a list of maxPower + 1 zeros entry by entry: for every x in s and
      every degree p, x to the power p is added to entry p. */
  method CalculatePowerSums(s: seq<int>, maxPower: int) returns (sums: seq<int>)
    ensures sums == PowerSums(s, maxPower)
  {
    var count := if maxPower < 0 then 0 else maxPower + 1;
    var acc := new int[count](_ => 0);
    for i := 0 to |s|
      invariant forall p :: 0 <= p < count ==> acc[p] == PowerSum(s[..i], p)
    {
      PrefixStep(s, i);
      for p := 0 to count
        invariant forall q :: 0 <= q < p ==> acc[q] == PowerSum(s[..i + 1], q)
        invariant forall q :: p <= q < count ==> acc[q] == PowerSum(s[..i], q)
      {
        acc[p] := acc[p] + Pow(s[i], p);
      }
    }
    assert s[..|s|] == s;
    sums := acc[..];
  }

  /** The m-th cyclic product sum by the nested accumulation loops; an empty
      sequence gives 0 before the degree is looked at, degree 0 gives |s|. */
  method CyclicProductSum(sequence: seq<int>, m: int) returns (total: int)
    ensures total == CyclicSum(sequence, m)
  {
    var n := |sequence|;
    if n == 0 {
      return 0;
    }
    total := 0;
    if m == 0 {
      CyclicSumDegreeZero(sequence);
      return n;
    }
    var w := Windows(sequence, m);
    for j := 0 to n
      invariant total == Sum(w[..j])
    {
      var product := 1;
      var k := 0;
      while k < m
        invariant 0 <= k <= if m < 0 then 0 else m
        invariant product == WindowProduct(sequence, j, k)
      {
        product := product * sequence[(j + k) % n];
        k := k + 1;
      }
      assert product == w[j];
      PrefixStep(w, j);
      total := total + product;
    }
    assert w[..n] == w;
  }

  // ---------------------------------------------------------------------
  // What the degrees 0 and 1 reduce to.
  // ---------------------------------------------------------------------

  lemma {:induction false} PowerSumDegreeZero(s: seq<int>)
    ensures PowerSum(s, 0) == |s|
    decreases |s|
  {
    if |s| > 0 {
      PowerSumDegreeZero(s[..|s| - 1]);
    }
  }

  /** Every power-sum tuple starts with the number of entries. */
  lemma PowerSumsStartWithLength(s: seq<int>, maxPower: nat)
    ensures PowerSums(s, maxPower)[0] == |s|
  {
    PowerSumDegreeZero(s);
  }

  lemma {:induction false} SumOfOnes(t: seq<int>)
    requires forall k :: 0 <= k < |t| ==> t[k] == 1
    ensures Sum(t) == |t|
    decreases |t|
  {
    if |t| > 0 {
      SumOfOnes(t[..|t| - 1]);
    }
  }

  /** A non-empty sequence has degree-0 cyclic product sum |s|: |s| empty
      products of 1. */
  lemma CyclicSumDegreeZero(s: seq<int>)
    requires |s| > 0
    ensures CyclicSum(s, 0) == |s|
  {
    SumOfOnes(Windows(s, 0));
  }

  lemma {:induction false} SumIsFirstPowerSum(s: seq<int>)
    ensures Sum(s) == PowerSum(s, 1)
    decreases |s|
  {
    if |s| > 0 {
      SumIsFirstPowerSum(s[..|s| - 1]);
      assert Pow(s[|s| - 1], 1) == s[|s| - 1] * Pow(s[|s| - 1], 0);
    }
  }

  /** The degree-1 cyclic product sum is the plain sum of the entries. */
  lemma CyclicSumDegreeOne(s: seq<int>)
    ensures CyclicSum(s, 1) == PowerSum(s, 1)
  {
    if |s| > 0 {
      forall j | 0 <= j < |s|
        ensures Windows(s, 1)[j] == s[j]
      {
        assert j % |s| == j;
      }
      assert Windows(s, 1) == s;
    }
    SumIsFirstPowerSum(s);
  }

  /** A degree larger than the length wraps round the sequence more than once:
      for [2, 3] and degree 3 the windows are 2*3*2 and 3*2*3. */
  lemma CyclicSumWrapsAround()
    ensures CyclicSum([2, 3], 3) == 2 * 3 * 2 + 3 * 2 * 3
  {
    var s := [2, 3];
    assert WindowProduct(s, 0, 1) == 2 && WindowProduct(s, 0, 2) == 6;
    assert WindowProduct(s, 0, 3) == 12;
    assert WindowProduct(s, 1, 1) == 3 && WindowProduct(s, 1, 2) == 6;
    assert WindowProduct(s, 1, 3) == 18;
    assert Windows(s, 3) == [12, 18];
    assert [12, 18][..1] == [12] && [12][..0] == [];
    assert Sum([12, 18]) == 30;
  }
}
