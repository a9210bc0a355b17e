/** Hexagonal arrangements as sequences of integers: the rotations and the reversal
    that the validator treats as the same ring, and the orderings that
    `itertools.permutations` enumerates. */
module Arrangement {

  /** The arrangement read from position i onwards, wrapping round to the
      entries before i: the same entries, starting with the one at i. */
  function Rotate(p: seq<int>, i: nat): (r: seq<int>)
    requires i <= |p|
    ensures |r| == |p|
  {
    p[i..] + p[..i]
  }

  /** The arrangement read the other way round: the entry at position k
      moves to position n - 1 - k. */
  function Reverse(p: seq<int>): (r: seq<int>)
    ensures |r| == |p|
  {
    seq(|p|, k requires 0 <= k < |p| => p[|p| - 1 - k])
  }

  // ---------------------------------------------------------------------
  // Euclidean remainder facts used by every index computation below.
  // ---------------------------------------------------------------------

  /** The remainder is determined by any decomposition a == q * n + r. */
  lemma ModUnique(a: int, n: int, q: int, r: int)
    requires n > 0 && 0 <= r < n && a == q * n + r
    ensures a % n == r
  {
    var q', r' := a / n, a % n;
    assert a == q' * n + r';
    var d := q - q';
    assert d * n == r' - r by {
      assert d * n == q * n - q' * n;
    }
    if d != 0 {
      ProductAtLeast(d, n);
    }
  }

  /** A nonzero multiple of n is at least n away from zero. */
  lemma ProductAtLeast(d: int, n: int)
    requires n > 0 && d != 0
    ensures d * n >= n || d * n <= -n
  {
    if d > 0 {
      PositiveMultiple(d, n);
    } else {
      PositiveMultiple(-d, n);
      assert d * n == -((-d) * n);
    }
  }

  lemma {:induction false} PositiveMultiple(d: int, n: int)
    requires n > 0 && d > 0
    ensures d * n >= n
    decreases d
  {
    if d > 1 {
      PositiveMultiple(d - 1, n);
      assert d * n == (d - 1) * n + n;
    }
  }

  /** Two numbers that differ by a multiple of n leave the same remainder. */
  lemma ModCongruent(a: int, b: int, n: int, c: int)
    requires n > 0 && a - b == c * n
    ensures a % n == b % n
  {
    assert b == (b / n) * n + b % n;
    assert a == (b / n + c) * n + b % n;
    ModUnique(a, n, b / n + c, b % n);
  }

  lemma ModAddMod(a: int, b: int, n: int)
    requires n > 0
    ensures (a % n + b) % n == (a + b) % n
  {
    assert a == (a / n) * n + a % n;
    ModCongruent(a % n + b, a + b, n, -(a / n));
  }

  lemma ModShift(a: int, b: int, c: int, n: int)
    requires n > 0 && a % n == b % n
    ensures (a + c) % n == (b + c) % n
  {
    ModAddMod(a, c, n);
    ModAddMod(b, c, n);
  }

  /** Counting back from n - 1 mirrors the remainder. */
  lemma ModComplement(x: int, n: int)
    requires n > 0
    ensures (n - 1 - x) % n == n - 1 - x % n
  {
    var c := x % n;
    assert x == (x / n) * n + c;
    ModCongruent(n - 1 - c, n - 1 - x, n, x / n);
    ModUnique(n - 1 - c, n, 0, n - 1 - c);
  }

  // ---------------------------------------------------------------------
  // Rotation and reversal, element by element and composed.
  // ---------------------------------------------------------------------

  /** Rotating by i moves the entry at position (k + i) mod n to position k. */
  lemma RotateAt(p: seq<int>, i: nat, k: nat)
    requires i <= |p| && k < |p|
    ensures Rotate(p, i)[k] == p[(k + i) % |p|]
  {
    var n := |p|;
    if k < n - i {
      ModUnique(k + i, n, 0, k + i);
    } else {
      ModUnique(k + i, n, 1, k + i - n);
    }
  }

  lemma RotateZero(p: seq<int>)
    ensures Rotate(p, 0) == p
  {
    assert p[0..] == p;
  }

  /** Index arithmetic behind composing two rotations. */
  lemma RotateOffsets(i: int, j: int, k: int, n: int)
    requires n > 0
    ensures ((k + j) % n + i) % n == (k + (i + j) % n) % n
  {
    var q1, q2 := (k + j) / n, (i + j) / n;
    assert k + j == q1 * n + (k + j) % n;
    assert i + j == q2 * n + (i + j) % n;
    assert ((k + j) % n + i) - (k + (i + j) % n) == (q2 - q1) * n by {
      assert (q2 - q1) * n == q2 * n - q1 * n;
    }
    ModCongruent((k + j) % n + i, k + (i + j) % n, n, q2 - q1);
  }

  lemma RotateRotateAt(p: seq<int>, i: nat, j: nat, k: nat)
    requires 0 < |p| && i < |p| && j < |p| && k < |p|
    ensures Rotate(Rotate(p, i), j)[k] == Rotate(p, (i + j) % |p|)[k]
  {
    var n := |p|;
    var a := (k + j) % n;
    RotateAt(Rotate(p, i), j, k);
    RotateAt(p, i, a);
    RotateAt(p, (i + j) % n, k);
    RotateOffsets(i, j, k, n);
  }

  /** Rotations compose by adding their offsets modulo the length. */
  lemma RotateRotate(p: seq<int>, i: nat, j: nat)
    requires 0 < |p| && i < |p| && j < |p|
    ensures Rotate(Rotate(p, i), j) == Rotate(p, (i + j) % |p|)
  {
    forall k | 0 <= k < |p|
      ensures Rotate(Rotate(p, i), j)[k] == Rotate(p, (i + j) % |p|)[k]
    {
      RotateRotateAt(p, i, j, k);
    }
  }

  /** Reversing a rotation is a rotation of the reversal. */
  lemma ReverseRotate(p: seq<int>, i: nat)
    requires 0 < |p| && i < |p|
    ensures Reverse(Rotate(p, i)) == Rotate(Reverse(p), (|p| - i) % |p|)
  {
    forall k | 0 <= k < |p|
      ensures Reverse(Rotate(p, i))[k] == Rotate(Reverse(p), (|p| - i) % |p|)[k]
    {
      ReverseRotateAt(p, i, k);
    }
  }

  lemma ReverseRotateAt(p: seq<int>, i: nat, k: nat)
    requires 0 < |p| && i < |p| && k < |p|
    ensures Reverse(Rotate(p, i))[k] == Rotate(Reverse(p), (|p| - i) % |p|)[k]
  {
    var n := |p|;
    var r := (n - i) % n;
    RotateAt(p, i, n - 1 - k);
    RotateAt(Reverse(p), r, k);
    ReverseRotateOffsets(n, i, k);
  }

  /** Index arithmetic behind reversing a rotation. */
  lemma ReverseRotateOffsets(n: int, i: int, k: int)
    requires n > 0
    ensures (n - 1 - k + i) % n == n - 1 - (k + (n - i) % n) % n
  {
    var r := (n - i) % n;
    var c := (k + r) % n;
    assert k + r == ((k + r) / n) * n + c;
    assert n - i == ((n - i) / n) * n + r;
    ModUnique(n - 1 - k + i, n, 1 - (k + r) / n - (n - i) / n, n - 1 - c);
  }

  /** Reversal moves the entry at position n - 1 - k to position k. */
  lemma ReverseAt(p: seq<int>, k: nat)
    requires k < |p|
    ensures Reverse(p)[k] == p[|p| - 1 - k]
  {
  }

  lemma ReverseReverse(p: seq<int>)
    ensures Reverse(Reverse(p)) == p
  {
  }

  /** Rotation and reversal only reorder the entries. */
  lemma RotatePreservesMultiset(p: seq<int>, i: nat)
    requires i <= |p|
    ensures multiset(Rotate(p, i)) == multiset(p)
  {
    assert p == p[..i] + p[i..];
  }

  lemma {:induction false} ReversePreservesMultiset(p: seq<int>)
    ensures multiset(Reverse(p)) == multiset(p)
    decreases |p|
  {
    if |p| > 0 {
      var last := |p| - 1;
      ReversePreservesMultiset(p[..last]);
      assert Reverse(p) == [p[last]] + Reverse(p[..last]);
      assert p == p[..last] + [p[last]];
    }
  }

  // ---------------------------------------------------------------------
  // itertools.permutations: every ordering of the positions, the entry at
  // position 0 varying slowest.
  // ---------------------------------------------------------------------

  function Without(s: seq<int>, i: nat): (r: seq<int>)
    requires i < |s|
    ensures |r| == |s| - 1
  {
    s[..i] + s[i + 1..]
  }

  function Prepend(x: int, qs: seq<seq<int>>): (r: seq<seq<int>>)
    ensures |r| == |qs|
  {
    seq(|qs|, j requires 0 <= j < |qs| => [x] + qs[j])
  }

  function Factorial(n: nat): (r: nat)
    ensures r >= 1
  {
    if n == 0 then 1 else n * Factorial(n - 1)
  }

  /** Every ordering of the positions of s, n! of them. */
  function Permutations(s: seq<int>): (r: seq<seq<int>>)
    ensures |r| == Factorial(|s|)
    decreases |s|, |s| + 1
  {
    if |s| == 0 then [[]] else PermutationsFrom(s, 0)
  }

  /** The orderings whose first entry is taken from position i or later,
      (n - 1)! for each such position. */
  function PermutationsFrom(s: seq<int>, i: nat): (r: seq<seq<int>>)
    requires i <= |s|
    ensures |s| > 0 ==> |r| == (|s| - i) * Factorial(|s| - 1)
    ensures i == |s| ==> r == []
    decreases |s|, |s| - i
  {
    if i == |s| then []
    else
      var rest := PermutationsFrom(s, i + 1);
      assert (|s| - i) * Factorial(|s| - 1) == Factorial(|s| - 1) + (|s| - i - 1) * Factorial(|s| - 1);
      Prepend(s[i], Permutations(Without(s, i))) + rest
  }

  lemma WithoutMultiset(s: seq<int>, i: nat)
    requires i < |s|
    ensures multiset(s) == multiset(Without(s, i)) + multiset{s[i]}
  {
    assert s == s[..i] + [s[i]] + s[i + 1..];
  }

  /** Every ordering produced holds exactly the entries of s. */
  lemma {:induction false} PermutationsSound(s: seq<int>, q: seq<int>)
    requires q in Permutations(s)
    ensures multiset(q) == multiset(s)
    decreases |s|, |s| + 1
  {
    if |s| > 0 {
      PermutationsFromSound(s, 0, q);
    }
  }

  lemma {:induction false} PermutationsFromSound(s: seq<int>, i: nat, q: seq<int>)
    requires i <= |s| && q in PermutationsFrom(s, i)
    ensures multiset(q) == multiset(s)
    decreases |s|, |s| - i
  {
    if i < |s| {
      var head := Prepend(s[i], Permutations(Without(s, i)));
      if q in head {
        var j :| 0 <= j < |head| && head[j] == q;
        var rest := Permutations(Without(s, i))[j];
        PermutationsSound(Without(s, i), rest);
        WithoutMultiset(s, i);
        assert q == [s[i]] + rest;
      } else {
        PermutationsFromSound(s, i + 1, q);
      }
    }
  }

  /** Every ordering of the entries of s is produced. */
  lemma {:induction false} PermutationsComplete(s: seq<int>, q: seq<int>)
    requires multiset(q) == multiset(s)
    ensures q in Permutations(s)
    decreases |s|
  {
    assert |q| == |multiset(q)| == |s|;
    if |s| == 0 {
      assert q == [];
    } else {
      assert q[0] in multiset(s);
      var j :| 0 <= j < |s| && s[j] == q[0];
      WithoutMultiset(s, j);
      assert q == [q[0]] + q[1..];
      assert multiset(q) == multiset{q[0]} + multiset(q[1..]);
      assert multiset(q[1..]) == multiset(q) - multiset{q[0]};
      assert multiset(Without(s, j)) == multiset(s) - multiset{s[j]};
      PermutationsComplete(Without(s, j), q[1..]);
      PermutationsFromContains(s, 0, j, q);
    }
  }

  lemma {:induction false} PermutationsFromContains(s: seq<int>, i: nat, j: nat, q: seq<int>)
    requires i <= j < |s| && |q| > 0 && q[0] == s[j]
    requires q[1..] in Permutations(Without(s, j))
    ensures q in PermutationsFrom(s, i)
    decreases j - i
  {
    if i == j {
      var rests := Permutations(Without(s, j));
      var k :| 0 <= k < |rests| && rests[k] == q[1..];
      assert Prepend(s[j], rests)[k] == q;
    } else {
      PermutationsFromContains(s, i + 1, j, q);
    }
  }
}
