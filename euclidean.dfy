/** Euclidean distances between points (element/function/euclidean.hpp). */
module Euclidean {
  import opened Numeric

  /** A tuple or container of arithmetic components. */
  type Point = seq<real>

  /** Σ_{i<n} (a[i] - b[i])², accumulated left to right as the fold expression and the loops do. */
  function SquaredSum(a: Point, b: Point, n: nat): real
    requires n <= |a| && n <= |b|
  {
    if n == 0 then 0.0 else SquaredSum(a, b, n - 1) + Square(a[n - 1] - b[n - 1])
  }

  lemma {:induction false} SquaredSumNonNegative(a: Point, b: Point, n: nat)
    requires n <= |a| && n <= |b|
    ensures SquaredSum(a, b, n) >= 0.0
  {
    if n > 0 {
      SquaredSumNonNegative(a, b, n - 1);
      SquareNonNegative(a[n - 1] - b[n - 1]);
    }
  }

  lemma {:induction false} SquaredSumSymmetric(a: Point, b: Point, n: nat)
    requires n <= |a| && n <= |b|
    ensures SquaredSum(a, b, n) == SquaredSum(b, a, n)
  {
    if n > 0 {
      SquaredSumSymmetric(a, b, n - 1);
      assert Square(a[n - 1] - b[n - 1]) == Square(b[n - 1] - a[n - 1]);
    }
  }

  /** The sum vanishes exactly when the first n components agree. */
  lemma {:induction false} SquaredSumZeroIff(a: Point, b: Point, n: nat)
    requires n <= |a| && n <= |b|
    ensures SquaredSum(a, b, n) == 0.0 <==> a[..n] == b[..n]
  {
    if n > 0 {
      SquaredSumZeroIff(a, b, n - 1);
      SquaredSumNonNegative(a, b, n - 1);
      SquareNonNegative(a[n - 1] - b[n - 1]);
      SquareZero(a[n - 1] - b[n - 1]);
      assert a[..n] == a[..n - 1] + [a[n - 1]];
      assert b[..n] == b[..n - 1] + [b[n - 1]];
      if a[..n] == b[..n] {
        assert a[..n - 1] == a[..n][..n - 1] == b[..n][..n - 1] == b[..n - 1];
        assert a[n - 1] == a[..n][n - 1] == b[..n][n - 1] == b[n - 1];
      }
    }
  }

  /** The sum only reads the first n components of each argument. */
  lemma {:induction false} SquaredSumPrefix(a: Point, b: Point, a': Point, b': Point, n: nat)
    requires n <= |a| && n <= |b| && n <= |a'| && n <= |b'|
    requires a[..n] == a'[..n] && b[..n] == b'[..n]
    ensures SquaredSum(a, b, n) == SquaredSum(a', b', n)
  {
    if n > 0 {
      assert a[..n - 1] == a[..n][..n - 1] == a'[..n][..n - 1] == a'[..n - 1];
      assert b[..n - 1] == b[..n][..n - 1] == b'[..n][..n - 1] == b'[..n - 1];
      assert a[n - 1] == a[..n][n - 1] == a'[n - 1];
      assert b[n - 1] == b[..n][n - 1] == b'[n - 1];
      SquaredSumPrefix(a, b, a', b', n - 1);
    }
  }

  /** `euclidean_distance_squared` on two tuples of one type: every component counts. */
  function TupleDistanceSquared(a: Point, b: Point): (r: real)
    requires |a| == |b|
    ensures r >= 0.0
    ensures r == 0.0 <==> a == b
  {
    SquaredSumNonNegative(a, b, |a|);
    SquaredSumZeroIff(a, b, |a|);
    assert a[..|a|] == a && b[..|b|] == b;
    SquaredSum(a, b, |a|)
  }

  lemma TupleDistanceSquaredSymmetric(a: Point, b: Point)
    requires |a| == |b|
    ensures TupleDistanceSquared(a, b) == TupleDistanceSquared(b, a)
  {
    SquaredSumSymmetric(a, b, |a|);
  }

  /** `euclidean_distance` on two tuples: the square root of the squared distance. */
  function TupleDistance(a: Point, b: Point): real
    requires |a| == |b|
  {
    Sqrt(TupleDistanceSquared(a, b))
  }

  lemma TupleDistanceSymmetric(a: Point, b: Point)
    requires |a| == |b|
    ensures TupleDistance(a, b) == TupleDistance(b, a)
  {
    TupleDistanceSquaredSymmetric(a, b);
  }

  /** `euclidean_distance_squared` on two containers: walks cont1 and cont2 in lockstep for
      cont1's length; a shorter cont2 would be read past its end. */
  method ContainerDistanceSquared(cont1: seq<real>, cont2: seq<real>) returns (sum: real)
    requires |cont1| <= |cont2|
    ensures sum == SquaredSum(cont1, cont2, |cont1|)
    ensures |cont1| == |cont2| ==> sum == TupleDistanceSquared(cont1, cont2)
  {
    sum := 0.0;
    var i := 0;
    while i < |cont1|
      invariant 0 <= i <= |cont1|
      invariant sum == SquaredSum(cont1, cont2, i)
    {
      sum := sum + (cont1[i] - cont2[i]) * (cont1[i] - cont2[i]);
      i := i + 1;
    }
  }

  /** `euclidean_distance` on two containers. */
  method ContainerDistance(cont1: seq<real>, cont2: seq<real>) returns (d: real)
    requires |cont1| <= |cont2|
    ensures d == Sqrt(SquaredSum(cont1, cont2, |cont1|))
    ensures |cont1| == |cont2| ==> d == TupleDistance(cont1, cont2)
  {
    var sum := ContainerDistanceSquared(cont1, cont2);
    d := Sqrt(sum);
  }
}
