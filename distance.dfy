/** Euclidean distances that can skip trailing label components (element/function/distance.hpp). */
module Distance {
  import opened Numeric
  import opened Euclidean

  /** `distance_euclidean_squared<SkipLastN>` on tuples: only the first n - SkipLastN components. */
  function TupleDistanceSquaredSkip(a: Point, b: Point, skipLastN: nat): (r: real)
    requires |a| == |b| && skipLastN <= |a|
    ensures r >= 0.0
    ensures r == 0.0 <==> a[..|a| - skipLastN] == b[..|b| - skipLastN]
  {
    SquaredSumNonNegative(a, b, |a| - skipLastN);
    SquaredSumZeroIff(a, b, |a| - skipLastN);
    SquaredSum(a, b, |a| - skipLastN)
  }

  /** `distance_euclidean<SkipLastN>` on tuples. */
  function TupleDistanceSkip(a: Point, b: Point, skipLastN: nat): real
    requires |a| == |b| && skipLastN <= |a|
  {
    Sqrt(TupleDistanceSquaredSkip(a, b, skipLastN))
  }

  lemma TupleDistanceSquaredSkipSymmetric(a: Point, b: Point, skipLastN: nat)
    requires |a| == |b| && skipLastN <= |a|
    ensures TupleDistanceSquaredSkip(a, b, skipLastN) == TupleDistanceSquaredSkip(b, a, skipLastN)
  {
    SquaredSumSymmetric(a, b, |a| - skipLastN);
  }

  /** The skipped trailing components (the labels) never influence the distance. */
  lemma TupleDistanceSkipIgnoresLabels(a: Point, b: Point, a': Point, b': Point, skipLastN: nat)
    requires |a| == |b| == |a'| == |b'| && skipLastN <= |a|
    requires a[..|a| - skipLastN] == a'[..|a| - skipLastN]
    requires b[..|b| - skipLastN] == b'[..|b| - skipLastN]
    ensures TupleDistanceSquaredSkip(a, b, skipLastN) == TupleDistanceSquaredSkip(a', b', skipLastN)
    ensures TupleDistanceSkip(a, b, skipLastN) == TupleDistanceSkip(a', b', skipLastN)
  {
    SquaredSumPrefix(a, b, a', b', |a| - skipLastN);
  }

  /** With nothing skipped the two headers agree, so whichever of them an including file
      sees (both use one include guard) computes the same distance. */
  lemma NoSkipAgreesWithEuclidean(a: Point, b: Point)
    requires |a| == |b|
    ensures TupleDistanceSquaredSkip(a, b, 0) == TupleDistanceSquared(a, b)
    ensures TupleDistanceSkip(a, b, 0) == TupleDistance(a, b)
  {
  }

  /** `distance_euclidean_squared<SkipLastN>` on containers: SkipLastN is ignored and all of
      cont1 is compared. */
  method ContainerDistanceSquaredSkip(cont1: seq<real>, cont2: seq<real>, skipLastN: nat) returns (sum: real)
    requires |cont1| <= |cont2|
    ensures sum == SquaredSum(cont1, cont2, |cont1|)
  {
    sum := ContainerDistanceSquared(cont1, cont2);
  }

  /** `distance_euclidean<SkipLastN>` on containers: SkipLastN is ignored. */
  method ContainerDistanceSkip(cont1: seq<real>, cont2: seq<real>, skipLastN: nat) returns (d: real)
    requires |cont1| <= |cont2|
    ensures d == Sqrt(SquaredSum(cont1, cont2, |cont1|))
  {
    d := ContainerDistance(cont1, cont2);
  }
}
