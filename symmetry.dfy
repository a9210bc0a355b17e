/** Why rotations and reversals of an arrangement may be treated as one ring:
    every invariant of an arrangement is unchanged by them, and the power sums
    are unchanged by any reordering at all. */
module Symmetry {
  import opened Arrangement
  import opened Invariants

  // ---------------------------------------------------------------------
  // Sums are insensitive to the order of their terms.
  // ---------------------------------------------------------------------

  lemma {:induction false} SumConcat(a: seq<int>, b: seq<int>)
    ensures Sum(a + b) == Sum(a) + Sum(b)
    decreases |b|
  {
    if |b| > 0 {
      var last := |b| - 1;
      SumConcat(a, b[..last]);
      assert (a + b)[..|a + b| - 1] == a + b[..last];
    } else {
      assert a + b == a;
    }
  }

  lemma SumRotate(t: seq<int>, i: nat)
    requires i <= |t|
    ensures Sum(Rotate(t, i)) == Sum(t)
  {
    var front, back := t[..i], t[i..];
    assert Rotate(t, i) == back + front;
    SumConcat(back, front);
    SumConcat(front, back);
    assert front + back == t;
  }

  lemma {:induction false} SumReverse(t: seq<int>)
    ensures Sum(Reverse(t)) == Sum(t)
    decreases |t|
  {
    if |t| > 0 {
      var last := |t| - 1;
      SumReverse(t[..last]);
      assert Reverse(t) == [t[last]] + Reverse(t[..last]);
      SumConcat([t[last]], Reverse(t[..last]));
      assert [t[last]][..0] == [];
    }
  }

  lemma {:induction false} PowerSumConcat(a: seq<int>, b: seq<int>, p: nat)
    ensures PowerSum(a + b, p) == PowerSum(a, p) + PowerSum(b, p)
    decreases |b|
  {
    if |b| > 0 {
      var last := |b| - 1;
      PowerSumConcat(a, b[..last], p);
      assert (a + b)[..|a + b| - 1] == a + b[..last];
    } else {
      assert a + b == a;
    }
  }

  lemma PowerSumWithout(b: seq<int>, i: nat, p: nat)
    requires i < |b|
    ensures PowerSum(b, p) == PowerSum(Without(b, i), p) + Pow(b[i], p)
  {
    var x := b[i];
    assert b == b[..i] + ([x] + b[i + 1..]);
    PowerSumConcat(b[..i], [x] + b[i + 1..], p);
    PowerSumConcat([x], b[i + 1..], p);
    PowerSumConcat(b[..i], b[i + 1..], p);
    assert [x][..0] == [];
  }

  /** Power sums depend only on which values occur, and how often. */
  lemma {:induction false} PowerSumPermutation(a: seq<int>, b: seq<int>, p: nat)
    requires multiset(a) == multiset(b)
    ensures PowerSum(a, p) == PowerSum(b, p)
    decreases |a|
  {
    if |a| > 0 {
      var last := |a| - 1;
      var x := a[last];
      assert a == a[..last] + [x];
      assert x in multiset(b);
      var i :| 0 <= i < |b| && b[i] == x;
      WithoutMultiset(b, i);
      assert multiset(a[..last]) == multiset(a) - multiset{x};
      PowerSumPermutation(a[..last], Without(b, i), p);
      PowerSumWithout(b, i, p);
    }
  }

  lemma PowerSumsPermutation(a: seq<int>, b: seq<int>, maxPower: int)
    requires multiset(a) == multiset(b)
    ensures PowerSums(a, maxPower) == PowerSums(b, maxPower)
  {
    forall p | 0 <= p < |PowerSums(a, maxPower)|
      ensures PowerSums(a, maxPower)[p] == PowerSums(b, maxPower)[p]
    {
      PowerSumPermutation(a, b, p);
    }
  }

  // ---------------------------------------------------------------------
  // Window products under rotation and reversal.
  // ---------------------------------------------------------------------

  /** A window depends on its start position only modulo the length. */
  lemma {:induction false} WindowProductMod(s: seq<int>, a: int, b: int, m: int)
    requires |s| > 0 && a % |s| == b % |s|
    ensures WindowProduct(s, a, m) == WindowProduct(s, b, m)
    decreases m
  {
    if m > 0 {
      var n := |s|;
      WindowProductMod(s, a, b, m - 1);
      ModShift(a, b, m - 1, n);
    }
  }

  /** The window at j of a rotation by i is the window at j + i of the original. */
  lemma {:induction false} WindowProductRotate(s: seq<int>, i: nat, j: int, m: int)
    requires 0 < |s| && i < |s|
    ensures WindowProduct(Rotate(s, i), j, m) == WindowProduct(s, j + i, m)
    decreases m
  {
    if m > 0 {
      WindowProductRotate(s, i, j, m - 1);
      RotateShift(s, i, j + m - 1);
      assert j + i + m - 1 == (j + m - 1) + i;
    }
  }

  /** Position k of a rotation by i is position k + i of the original. */
  lemma RotateShift(s: seq<int>, i: nat, k: int)
    requires 0 < |s| && i < |s|
    ensures Rotate(s, i)[k % |s|] == s[(k + i) % |s|]
  {
    RotateAt(s, i, k % |s|);
    ModAddMod(k, i, |s|);
  }

  /** Splitting off the first factor of a window instead of the last. */
  lemma {:induction false} WindowProductFront(s: seq<int>, j: int, m: int)
    requires |s| > 0 && m >= 1
    ensures WindowProduct(s, j, m) == s[j % |s|] * WindowProduct(s, j + 1, m - 1)
    decreases m
  {
    if m > 1 {
      WindowProductFront(s, j, m - 1);
      assert j + 1 + (m - 1) - 1 == j + m - 1;
    }
  }

  /** The last factor of a window of the reversal, read in the original. */
  lemma ReverseWindowLast(s: seq<int>, j: int, m: nat)
    requires |s| > 0 && m > 0
    ensures WindowProduct(Reverse(s), j, m)
         == WindowProduct(Reverse(s), j, m - 1) * s[(|s| - j - m) % |s|]
  {
    var n := |s|;
    ModComplement(j + m - 1, n);
    assert n - 1 - (j + m - 1) == n - j - m;
  }

  /** Read backwards, the window at j is the window of the same length that
      ends where it starts, read forwards. */
  lemma {:induction false} WindowProductReverse(s: seq<int>, j: int, m: nat)
    requires |s| > 0
    ensures WindowProduct(Reverse(s), j, m) == WindowProduct(s, |s| - j - m, m)
    decreases m
  {
    if m > 0 {
      var n := |s|;
      var tail := WindowProduct(s, n - j - m + 1, m - 1);
      var head := s[(n - j - m) % n];
      WindowProductReverse(s, j, m - 1);
      assert n - j - (m - 1) == n - j - m + 1;
      ReverseWindowLast(s, j, m);
      WindowProductFront(s, n - j - m, m);
      assert tail * head == head * tail;
    }
  }

  lemma WindowsRotate(s: seq<int>, i: nat, m: int)
    requires 0 < |s| && i < |s|
    ensures Windows(Rotate(s, i), m) == Rotate(Windows(s, m), i)
  {
    var n := |s|;
    forall j | 0 <= j < n
      ensures Windows(Rotate(s, i), m)[j] == Rotate(Windows(s, m), i)[j]
    {
      WindowProductRotate(s, i, j, m);
      RotateAt(Windows(s, m), i, j);
      ModUnique((j + i) % n, n, 0, (j + i) % n);
      WindowProductMod(s, j + i, (j + i) % n, m);
    }
  }

  /** The start of the reversed window, as a position of the rotated list of windows. */
  lemma ReverseWindowStart(n: int, m: int, j: int)
    requires n > 0 && 0 <= j < n
    ensures (n - j - m) % n == ((n - 1 - j + (1 - m) % n) % n) % n
  {
    var r := (1 - m) % n;
    var b := (n - 1 - j + r) % n;
    ModUnique(b, n, 0, b);
    assert 1 - m == ((1 - m) / n) * n + r;
    ModCongruent(n - j - m, n - 1 - j + r, n, (1 - m) / n);
  }

  lemma WindowsReverseAt(s: seq<int>, m: nat, j: nat)
    requires 0 < |s| && j < |s|
    ensures Windows(Reverse(s), m)[j] == Reverse(Rotate(Windows(s, m), (1 - m) % |s|))[j]
  {
    var n := |s|;
    var r := (1 - m) % n;
    WindowProductReverse(s, j, m);
    RotateAt(Windows(s, m), r, n - 1 - j);
    ReverseWindowStart(n, m, j);
    WindowProductMod(s, n - j - m, (n - 1 - j + r) % n, m);
  }

  lemma WindowsReverse(s: seq<int>, m: nat)
    requires 0 < |s|
    ensures (1 - m) % |s| < |s|
    ensures Windows(Reverse(s), m) == Reverse(Rotate(Windows(s, m), (1 - m) % |s|))
  {
    forall j | 0 <= j < |s|
      ensures Windows(Reverse(s), m)[j] == Reverse(Rotate(Windows(s, m), (1 - m) % |s|))[j]
    {
      WindowsReverseAt(s, m, j);
    }
  }

  // ---------------------------------------------------------------------
  // The invariants of a hexagon are those of its rotations and reversal.
  // ---------------------------------------------------------------------

  /** Rotating the arrangement leaves every cyclic product sum unchanged. */
  lemma CyclicSumRotate(s: seq<int>, i: nat, m: int)
    requires i < |s|
    ensures CyclicSum(Rotate(s, i), m) == CyclicSum(s, m)
  {
    WindowsRotate(s, i, m);
    SumRotate(Windows(s, m), i);
  }

  /** Reversing the arrangement leaves every cyclic product sum unchanged. */
  lemma CyclicSumReverse(s: seq<int>, m: int)
    ensures CyclicSum(Reverse(s), m) == CyclicSum(s, m)
  {
    if |s| > 0 {
      if m <= 0 {
        assert Windows(Reverse(s), m) == Windows(s, m);
      } else {
        var w := Windows(s, m);
        var r := (1 - m) % |s|;
        WindowsReverse(s, m);
        SumReverse(Rotate(w, r));
        SumRotate(w, r);
      }
    }
  }

  /** The diagonal product sum is the same for every rotation and the
      reversal of a hexagon, and None for both when the length is not 6. */
  lemma DiagonalProductSumDihedral(s: seq<int>, i: nat)
    requires i < |s|
    ensures DiagonalProductSum(Rotate(s, i)) == DiagonalProductSum(s)
    ensures DiagonalProductSum(Reverse(s)) == DiagonalProductSum(s)
  {
    if |s| == 6 {
      DiagonalRotate(s, i);
      DiagonalReverse(s);
    }
  }

  lemma DiagonalReverse(s: seq<int>)
    requires |s| == 6
    ensures DiagonalTerm(Reverse(s)) == DiagonalTerm(s)
  {
    var a, b, c, d, e, f := s[0], s[1], s[2], s[3], s[4], s[5];
    assert Reverse(s) == [f, e, d, c, b, a];
    assert f * c == c * f && e * b == b * e && d * a == a * d;
  }

  lemma DiagonalRotate(s: seq<int>, i: nat)
    requires |s| == 6 && i < 6
    ensures DiagonalTerm(Rotate(s, i)) == DiagonalTerm(s)
  {
    var r := Rotate(s, i);
    RotateAt(s, i, 0); RotateAt(s, i, 1); RotateAt(s, i, 2);
    RotateAt(s, i, 3); RotateAt(s, i, 4); RotateAt(s, i, 5);
    var a, b, c, d, e, f := s[0], s[1], s[2], s[3], s[4], s[5];
    assert d * a == a * d && e * b == b * e && f * c == c * f;
    if i == 1 {
      assert r[0] == b && r[1] == c && r[2] == d && r[3] == e && r[4] == f && r[5] == a;
    } else if i == 2 {
      assert r[0] == c && r[1] == d && r[2] == e && r[3] == f && r[4] == a && r[5] == b;
    } else if i == 3 {
      assert r[0] == d && r[1] == e && r[2] == f && r[3] == a && r[4] == b && r[5] == c;
    } else if i == 4 {
      assert r[0] == e && r[1] == f && r[2] == a && r[3] == b && r[4] == c && r[5] == d;
    } else if i == 5 {
      assert r[0] == f && r[1] == a && r[2] == b && r[3] == c && r[4] == d && r[5] == e;
    }
  }

  /** The regular-triangle product sum is the same for every rotation and the
      reversal of a hexagon, and None for both when the length is not 6. */
  lemma TriangleProductSumDihedral(s: seq<int>, i: nat)
    requires i < |s|
    ensures RegularTriangleProductSum(Rotate(s, i)) == RegularTriangleProductSum(s)
    ensures RegularTriangleProductSum(Reverse(s)) == RegularTriangleProductSum(s)
  {
    if |s| == 6 {
      if i % 2 == 0 {
        TriangleRotateEven(s, i);
      } else {
        TriangleRotateOdd(s, i);
      }
      TriangleReverse(s);
    }
  }

  lemma TriangleReverse(s: seq<int>)
    requires |s| == 6
    ensures TriangleTerm(Reverse(s)) == TriangleTerm(s)
  {
    var a, b, c, d, e, f := s[0], s[1], s[2], s[3], s[4], s[5];
    assert Reverse(s) == [f, e, d, c, b, a];
    assert f * d * b == b * d * f && e * c * a == a * c * e;
  }

  /** A product of three factors read from any starting factor. */
  lemma ProductRotations(x: int, y: int, z: int)
    ensures x * y * z == y * z * x && x * y * z == z * x * y
  {
  }

  lemma TriangleRotateEven(s: seq<int>, i: nat)
    requires |s| == 6 && i < 6 && i % 2 == 0
    ensures TriangleTerm(Rotate(s, i)) == TriangleTerm(s)
  {
    var r := Rotate(s, i);
    RotateAt(s, i, 0); RotateAt(s, i, 1); RotateAt(s, i, 2);
    RotateAt(s, i, 3); RotateAt(s, i, 4); RotateAt(s, i, 5);
    var a, b, c, d, e, f := s[0], s[1], s[2], s[3], s[4], s[5];
    ProductRotations(a, c, e);
    ProductRotations(b, d, f);
    if i == 2 {
      assert r[0] == c && r[2] == e && r[4] == a && r[1] == d && r[3] == f && r[5] == b;
    } else if i == 4 {
      assert r[0] == e && r[2] == a && r[4] == c && r[1] == f && r[3] == b && r[5] == d;
    }
  }

  lemma TriangleRotateOdd(s: seq<int>, i: nat)
    requires |s| == 6 && i < 6 && i % 2 == 1
    ensures TriangleTerm(Rotate(s, i)) == TriangleTerm(s)
  {
    var r := Rotate(s, i);
    RotateAt(s, i, 0); RotateAt(s, i, 1); RotateAt(s, i, 2);
    RotateAt(s, i, 3); RotateAt(s, i, 4); RotateAt(s, i, 5);
    var a, b, c, d, e, f := s[0], s[1], s[2], s[3], s[4], s[5];
    ProductRotations(a, c, e);
    ProductRotations(b, d, f);
    if i == 1 {
      assert r[0] == b && r[2] == d && r[4] == f && r[1] == c && r[3] == e && r[5] == a;
    } else if i == 3 {
      assert r[0] == d && r[2] == f && r[4] == b && r[1] == e && r[3] == a && r[5] == c;
    } else {
      assert r[0] == f && r[2] == b && r[4] == d && r[1] == a && r[3] == c && r[5] == e;
    }
  }

  // ---------------------------------------------------------------------
  // A window that goes once more round the ring.
  // ---------------------------------------------------------------------

  /** The product of the entries, multiplied up from the front. */
  function Product(t: seq<int>): int
  {
    if |t| == 0 then 1 else Product(t[..|t| - 1]) * t[|t| - 1]
  }

  lemma MulAssoc(x: int, y: int, z: int)
    ensures (x * y) * z == x * (y * z)
  {
  }

  lemma {:induction false} ProductConcat(a: seq<int>, b: seq<int>)
    ensures Product(a + b) == Product(a) * Product(b)
    decreases |b|
  {
    if |b| == 0 {
      assert a + b == a;
    } else {
      var last := |b| - 1;
      ProductConcat(a, b[..last]);
      assert (a + b)[..|a + b| - 1] == a + b[..last];
      MulAssoc(Product(a), Product(b[..last]), b[last]);
    }
  }

  /** A rotation has the same product of entries. */
  lemma ProductRotate(t: seq<int>, i: nat)
    requires i <= |t|
    ensures Product(Rotate(t, i)) == Product(t)
  {
    ProductConcat(t[i..], t[..i]);
    ProductConcat(t[..i], t[i..]);
    assert t[..i] + t[i..] == t;
  }

  /** The window from position 0 that does not wrap is the product of a prefix. */
  lemma {:induction false} WindowProductPrefix(t: seq<int>, k: nat)
    requires 0 < |t| && k <= |t|
    ensures WindowProduct(t, 0, k) == Product(t[..k])
    decreases k
  {
    if k > 0 {
      WindowProductPrefix(t, k - 1);
      ModUnique(0 + k - 1, |t|, 0, k - 1);
      assert WindowProduct(t, 0, k) == WindowProduct(t, 0, k - 1) * t[k - 1];
      assert t[..k][..k - 1] == t[..k - 1];
      assert Product(t[..k]) == Product(t[..k - 1]) * t[k - 1];
    }
  }

  /** A window of a + b factors is the window of a factors followed by the
      window of b factors that starts where it ends. */
  lemma {:induction false} WindowProductSplit(s: seq<int>, j: int, a: nat, b: nat)
    requires |s| > 0
    ensures WindowProduct(s, j, a + b) == WindowProduct(s, j, a) * WindowProduct(s, j + a, b)
    decreases b
  {
    if b > 0 {
      WindowProductSplit(s, j, a, b - 1);
      assert j + (a + b) - 1 == (j + a) + b - 1;
      MulAssoc(WindowProduct(s, j, a), WindowProduct(s, j + a, b - 1), s[(j + a + b - 1) % |s|]);
    }
  }

  /** A window of exactly |s| factors meets every entry once, wherever it starts. */
  lemma FullWindow(s: seq<int>, j: int)
    requires |s| > 0
    ensures WindowProduct(s, j, |s|) == Product(s)
  {
    var n := |s|;
    var i := j % n;
    ModAddMod(j, 0, n);
    WindowProductMod(s, j, 0 + i, n);
    WindowProductRotate(s, i, 0, n);
    WindowProductPrefix(Rotate(s, i), n);
    assert Rotate(s, i)[..n] == Rotate(s, i);
    ProductRotate(s, i);
  }

  lemma WindowFullTurn(s: seq<int>, j: int, m: nat)
    requires |s| > 0
    ensures WindowProduct(s, j, m + |s|) == WindowProduct(s, j, m) * Product(s)
  {
    WindowProductSplit(s, j, m, |s|);
    FullWindow(s, j + m);
  }

  lemma {:induction false} SumScaled(t: seq<int>, u: seq<int>, c: int)
    requires |u| == |t| && forall k :: 0 <= k < |t| ==> u[k] == t[k] * c
    ensures Sum(u) == Sum(t) * c
    decreases |t|
  {
    if |t| > 0 {
      var last := |t| - 1;
      SumScaled(t[..last], u[..last], c);
      assert (Sum(t[..last]) + t[last]) * c == Sum(t[..last]) * c + t[last] * c;
    }
  }

  /** Going once more round the ring multiplies every window, and so the
      cyclic product sum, by the product of all the entries. */
  lemma CyclicSumFullTurn(s: seq<int>, m: nat)
    ensures CyclicSum(s, m + |s|) == Product(s) * CyclicSum(s, m)
  {
    if |s| > 0 {
      var c := Product(s);
      var w, w' := Windows(s, m), Windows(s, m + |s|);
      forall j | 0 <= j < |s|
        ensures w'[j] == w[j] * c
      {
        WindowFullTurn(s, j, m);
      }
      SumScaled(w, w', c);
      ScaledBy(CyclicSum(s, m + |s|), CyclicSum(s, m), c);
    }
  }
}
