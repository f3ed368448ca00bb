/** Element-wise operations on tuples and vectors (element/operations.hpp). */
module Operations {
  import opened Element
  import opened Euclidean

  /** `find_min_max_atom`: an arithmetic value widens the bounds so that they enclose it,
      each bound moving only to the value; any other component leaves the bounds alone. */
  function FindMinMaxAtom(value: Atom, min: Atom, max: Atom): (r: (Atom, Atom))
    requires value.Num? == min.Num? && min.Num? == max.Num?
    ensures !value.Num? ==> r == (min, max)
    ensures value.Num? ==> r.0.Num? && r.1.Num? && r.0.v <= value.v <= r.1.v
    ensures value.Num? ==> (r.0 == min || r.0 == value) && (r.1 == max || r.1 == value)
    ensures value.Num? && min.v <= value.v ==> r.0 == min
    ensures value.Num? && value.v <= max.v ==> r.1 == max
  {
    if !value.Num? then (min, max)
    else
      var max' := if value.v > max.v then value else max;
      var min' := if value.v < min.v then value else min;
      (min', max')
  }

  /** A pair of bound tuples. */
  datatype Bounds = Bounds(min: Tuple, max: Tuple)

  /** The shape every tuple of one tuple type shares. */
  predicate Shaped(b: Bounds, value: Tuple)
  {
    SameShape(b.min, value) && SameShape(b.max, value)
  }

  /** `find_min_max<SkipLastN>` on a tuple: the atom rule on each of the first n - SkipLastN
      components; the trailing ones are not looked at. */
  function FindMinMax(value: Tuple, b: Bounds, skipLastN: nat): (r: Bounds)
    requires Shaped(b, value) && skipLastN <= |value|
    ensures Shaped(r, value)
    ensures forall i :: 0 <= i < |value| - skipLastN ==>
              (r.min[i], r.max[i]) == FindMinMaxAtom(value[i], b.min[i], b.max[i])
    ensures forall i :: |value| - skipLastN <= i < |value| ==> r.min[i] == b.min[i] && r.max[i] == b.max[i]
  {
    var n := |value| - skipLastN;
    Bounds(seq(|value|, i requires 0 <= i < |value| =>
                 if i < n then FindMinMaxAtom(value[i], b.min[i], b.max[i]).0 else b.min[i]),
           seq(|value|, i requires 0 <= i < |value| =>
                 if i < n then FindMinMaxAtom(value[i], b.min[i], b.max[i]).1 else b.max[i]))
  }

  /** After `find_min_max`, every rewritten arithmetic component lies within its bounds. */
  lemma FindMinMaxEncloses(value: Tuple, b: Bounds, skipLastN: nat, i: nat)
    requires Shaped(b, value) && skipLastN <= |value| && i < |value| - skipLastN && value[i].Num?
    ensures var r := FindMinMax(value, b, skipLastN);
      r.min[i].Num? && r.max[i].Num? && r.min[i].v <= value[i].v <= r.max[i].v
  {
    var r := FindMinMax(value, b, skipLastN);
    assert (r.min[i], r.max[i]) == FindMinMaxAtom(value[i], b.min[i], b.max[i]);
  }

  function Min3(a: nat, b: nat, c: nat): (m: nat)
    ensures m <= a && m <= b && m <= c && (m == a || m == b || m == c)
  {
    if a <= b && a <= c then a else if b <= c then b else c
  }

  /** `find_min_max_vector`: the three vectors are walked together and the walk stops at the
      end of the shortest. */
  method FindMinMaxVector(value: seq<real>, min: array<real>, max: array<real>)
    requires min != max
    modifies min, max
    ensures var n := Min3(|value|, min.Length, max.Length);
      (forall i :: 0 <= i < n ==>
         (Num(min[i]), Num(max[i])) == FindMinMaxAtom(Num(value[i]), Num(old(min[i])), Num(old(max[i]))))
      && (forall i :: n <= i < min.Length ==> min[i] == old(min[i]))
      && (forall i :: n <= i < max.Length ==> max[i] == old(max[i]))
    ensures forall i :: 0 <= i < Min3(|value|, min.Length, max.Length) ==> min[i] <= value[i] <= max[i]
  {
    var n := Min3(|value|, min.Length, max.Length);
    var i := 0;
    while i < n
      invariant 0 <= i <= n
      invariant forall j :: 0 <= j < i ==>
        (Num(min[j]), Num(max[j])) == FindMinMaxAtom(Num(value[j]), Num(old(min[j])), Num(old(max[j])))
      invariant forall j :: i <= j < min.Length ==> min[j] == old(min[j])
      invariant forall j :: i <= j < max.Length ==> max[j] == old(max[j])
    {
      var r := FindMinMaxAtom(Num(value[i]), Num(min[i]), Num(max[i]));
      max[i] := r.1.v;
      min[i] := r.0.v;
      i := i + 1;
    }
  }

  /** `element_add` on two tuples: every component of `add` is added to `value`. */
  function ElementAdd(value: Point, add: Point): (r: Point)
    requires |value| == |add|
    ensures |r| == |value|
    ensures forall i {:trigger r[i]} :: 0 <= i < |r| ==> r[i] - value[i] == add[i]
  {
    seq(|value|, i requires 0 <= i < |value| => value[i] + add[i])
  }

  /** The value-initialised tuple of n arithmetic components. */
  function Zeros(n: nat): (z: Point)
    ensures |z| == n && forall i :: 0 <= i < n ==> z[i] == 0.0
  {
    seq(n, i => 0.0)
  }

  /** `element_add` on two containers as written: both of its iterators walk `add`, so each
      element of `add` is added to itself; `value` is not touched. */
  method ElementAddContainerAsWritten(value: seq<real>, add: array<real>)
    modifies add
    ensures forall i :: 0 <= i < add.Length ==> add[i] == 2.0 * old(add[i])
  {
    var i := 0;
    while i < add.Length
      invariant 0 <= i <= add.Length
      invariant forall j :: 0 <= j < i ==> add[j] == 2.0 * old(add[j])
      invariant forall j :: i <= j < add.Length ==> add[j] == old(add[j])
    {
      add[i] := add[i] + add[i];
      i := i + 1;
    }
  }

  /** The as-written container `element_add` leaves the sum untouched: [1] plus [2] stays [1]
      and doubles the addend to [4]. */
  method ElementAddContainerCounterexample() returns (value: seq<real>, add: array<real>)
    ensures value == [1.0] && add[..] == [4.0]
    ensures fresh(add)
  {
    value := [1.0];
    add := new real[1];
    add[0] := 2.0;
    ElementAddContainerAsWritten(value, add);
    assert add[0] == 4.0;
  }

  /** The component-wise sum with the shorter operand padded by zeros. */
  function PaddedSum(value: seq<real>, add: seq<real>): (r: seq<real>)
    ensures |r| == if |value| < |add| then |add| else |value|
    ensures forall i :: 0 <= i < |r| ==>
      r[i] == (if i < |value| then value[i] else 0.0) + (if i < |add| then add[i] else 0.0)
  {
    var n := if |value| < |add| then |add| else |value|;
    seq(n, i requires 0 <= i < n =>
          (if i < |value| then value[i] else 0.0) + (if i < |add| then add[i] else 0.0))
  }

  /** `element_add` on two containers as intended: `value` is grown to the length of `add`
      when shorter, and each element of `add` is added to the matching element of `value`. */
  method ElementAddContainer(value: seq<real>, add: seq<real>) returns (sum: seq<real>)
    ensures sum == PaddedSum(value, add)
  {
    sum := value;
    if |sum| < |add| {
      sum := sum + Zeros(|add| - |sum|);
    }
    var i := 0;
    while i < |add|
      invariant 0 <= i <= |add| <= |sum|
      invariant |sum| == |PaddedSum(value, add)|
      invariant forall j :: 0 <= j < i ==> sum[j] == PaddedSum(value, add)[j]
      invariant forall j :: i <= j < |sum| ==> sum[j] == if j < |value| then value[j] else 0.0
    {
      sum := sum[i := sum[i] + add[i]];
      i := i + 1;
    }
  }

  /** Adding a tuple and then the sum with zero padding agree on tuples of one type. */
  lemma PaddedSumOfTuples(value: Point, add: Point)
    requires |value| == |add|
    ensures PaddedSum(value, add) == ElementAdd(value, add)
  {
  }

  /** `element_div` of a tuple by a tuple as written: it calls the addition helper. */
  function ElementDivTupleAsWritten(value: Point, divider: Point): (r: Point)
    requires |value| == |divider|
    ensures |r| == |value| && forall i :: 0 <= i < |r| ==> r[i] == value[i] + divider[i]
  {
    ElementAdd(value, divider)
  }

  /** [6] divided by [3] comes out as [9], not [2]. */
  lemma ElementDivTupleCounterexample()
    ensures ElementDivTupleAsWritten([6.0], [3.0]) == [9.0]
    ensures ElementDivTuple([6.0], [3.0]) == [2.0]
  {
    assert ElementDivTupleAsWritten([6.0], [3.0])[0] == 9.0;
    assert ElementDivTuple([6.0], [3.0])[0] * 3.0 == 6.0;
  }

  /** No zero divisor among the components. */
  predicate NonZero(divider: seq<real>)
  {
    forall i :: 0 <= i < |divider| ==> divider[i] != 0.0
  }

  /** `element_div` of a tuple by a tuple as intended: component-wise division; multiplying
      back by the divider restores the value. */
  function ElementDivTuple(value: Point, divider: Point): (r: Point)
    requires |value| == |divider| && NonZero(divider)
    ensures |r| == |value|
    ensures forall i {:trigger r[i]} :: 0 <= i < |r| ==> r[i] * divider[i] == value[i]
  {
    seq(|value|, i requires 0 <= i < |value| => value[i] / divider[i])
  }

  /** `element_div` of a tuple by a scalar: each component divided by it. */
  function ElementDivScalar(value: Point, divider: real): (r: Point)
    requires divider != 0.0
    ensures |r| == |value|
    ensures forall i {:trigger r[i]} :: 0 <= i < |r| ==> r[i] * divider == value[i]
  {
    seq(|value|, i requires 0 <= i < |value| => value[i] / divider)
  }

  /** Dividing by one changes nothing. */
  lemma ElementDivScalarOne(value: Point)
    ensures ElementDivScalar(value, 1.0) == value
  {
  }

  /** `element_div` of a container by a scalar, in place. */
  method ContainerDivScalar(value: array<real>, divider: real)
    requires divider != 0.0
    modifies value
    ensures value[..] == ElementDivScalar(old(value[..]), divider)
  {
    var i := 0;
    while i < value.Length
      invariant 0 <= i <= value.Length
      invariant forall j :: 0 <= j < i ==> value[j] == old(value[j]) / divider
      invariant forall j :: i <= j < value.Length ==> value[j] == old(value[j])
    {
      value[i] := value[i] / divider;
      i := i + 1;
    }
  }

  /** `element_div` of a container by a container, in place, walking `value`. */
  method ContainerDiv(value: array<real>, divider: seq<real>)
    requires value.Length <= |divider| && NonZero(divider)
    modifies value
    ensures value[..] == ElementDivTuple(old(value[..]), divider[..value.Length])
  {
    var i := 0;
    while i < value.Length
      invariant 0 <= i <= value.Length
      invariant forall j :: 0 <= j < i ==> value[j] == old(value[j]) / divider[j]
      invariant forall j :: i <= j < value.Length ==> value[j] == old(value[j])
    {
      value[i] := value[i] / divider[i];
      i := i + 1;
    }
  }
}
