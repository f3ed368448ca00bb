/** Min-max normalisation of a range of tuples (algorithm/normalize.hpp). */
module Normalize {
  import opened Element
  import opened Numeric
  import opened Operations

  /** `apply_normalization_atom(x, min, max)`: on a non-zero range the value is mapped by
      (x - min) / range; on a zero range with a non-zero max the expression is read with C++
      precedence, x - (min / max); otherwise x is returned. */
  function NormalizeAtom(x: real, min: real, max: real): (r: real)
    ensures max - min != 0.0 ==> r * (max - min) == x - min
    ensures max - min == 0.0 && max != 0.0 ==> r * max == x * max - min
    ensures max - min == 0.0 && max == 0.0 ==> r == x
  {
    var range := max - min;
    if range != 0.0 then (x - min) / range
    else if max != 0.0 then x - min / max
    else x
  }

  /** Within a non-empty range, the normalised value lies in [0, 1], the minimum going to 0
      and the maximum to 1. */
  lemma NormalizeAtomUnit(x: real, min: real, max: real)
    requires min <= x <= max && min < max
    ensures 0.0 <= NormalizeAtom(x, min, max) <= 1.0
    ensures x == min ==> NormalizeAtom(x, min, max) == 0.0
    ensures x == max ==> NormalizeAtom(x, min, max) == 1.0
  {
    var range := max - min;
    assert NormalizeAtom(x, min, max) == (x - min) / range;
    DivUnit(x - min, range);
    if x == max {
      assert (x - min) / range == range / range;
    }
  }

  /** A quotient of a non-negative value by a positive value no smaller lies in [0, 1]. */
  lemma DivUnit(a: real, b: real)
    requires 0.0 <= a <= b && b > 0.0
    ensures 0.0 <= a / b <= 1.0
  {
  }

  /** `apply_normalization` on one component: arithmetic components are mapped, all others
      (tagged `skip_atom_tag`) pass through. */
  function ApplyNormalization(x: Atom, min: Atom, max: Atom): (r: Atom)
    requires x.Num? == min.Num? && min.Num? == max.Num?
    ensures r.Num? == x.Num?
    ensures !x.Num? ==> r == x
    ensures x.Num? ==> r.v == NormalizeAtom(x.v, min.v, max.v)
  {
    match SelectAtomTag(x)
    case ArithmeticAtomTag => Num(NormalizeAtom(x.v, min.v, max.v))
    case SkipAtomTag => x
  }

  /** `apply_normalization<SkipLastN>` on a tuple: each of the first n - SkipLastN
      components against its own component of min and max; the trailing ones are kept. */
  function NormalizeTuple(t: Tuple, b: Bounds, skipLastN: nat): (r: Tuple)
    requires Shaped(b, t) && skipLastN <= |t|
    ensures SameShape(r, t)
    ensures forall i :: 0 <= i < |t| - skipLastN ==> r[i] == ApplyNormalization(t[i], b.min[i], b.max[i])
    ensures forall i :: |t| - skipLastN <= i < |t| ==> r[i] == t[i]
  {
    seq(|t|, i requires 0 <= i < |t| =>
          if i < |t| - skipLastN then ApplyNormalization(t[i], b.min[i], b.max[i]) else t[i])
  }

  /** `apply_normalization<SkipLast>` on a vector with scalar bounds: every element but the
      last SkipLast is mapped in place. */
  method NormalizeVector(value: array<real>, min: real, max: real, skipLast: nat)
    requires skipLast <= value.Length
    modifies value
    ensures forall i :: 0 <= i < value.Length - skipLast ==> value[i] == NormalizeAtom(old(value[i]), min, max)
    ensures forall i :: value.Length - skipLast <= i < value.Length ==> value[i] == old(value[i])
  {
    var end := value.Length - skipLast;
    var i := 0;
    while i < end
      invariant 0 <= i <= end
      invariant forall j :: 0 <= j < i ==> value[j] == NormalizeAtom(old(value[j]), min, max)
      invariant forall j :: i <= j < value.Length ==> value[j] == old(value[j])
    {
      value[i] := NormalizeAtom(value[i], min, max);
      i := i + 1;
    }
  }

  /** All rows share the shape of one tuple type, long enough to skip SkipLastN components. */
  predicate Rows(rows: seq<Tuple>, shape: Tuple, skipLastN: nat)
  {
    skipLastN <= |shape| && forall k :: 0 <= k < |rows| ==> SameShape(rows[k], shape)
  }

  /** `find_min_max` over rows[lo..hi], in order, starting from the bounds b. */
  function WidenFrom(rows: seq<Tuple>, shape: Tuple, skipLastN: nat, lo: nat, hi: nat, b: Bounds): (r: Bounds)
    requires lo <= hi <= |rows| && Rows(rows, shape, skipLastN) && Shaped(b, shape)
    ensures Shaped(r, shape)
    decreases hi
  {
    if hi == lo then b
    else FindMinMax(rows[hi - 1], WidenFrom(rows, shape, skipLastN, lo, hi - 1, b), skipLastN)
  }

  /** The bounds as `normalize` seeds them: min from element 0, max from element 1, both
      widened by the elements from 2 on. */
  function BoundsAsWritten(rows: seq<Tuple>, skipLastN: nat): (r: Bounds)
    requires |rows| >= 2 && Rows(rows, rows[0], skipLastN)
    ensures Shaped(r, rows[0])
  {
    WidenFrom(rows, rows[0], skipLastN, 2, |rows|, Bounds(rows[0], rows[1]))
  }

  /** The bounds as intended: both seeded from element 0 and widened by all the others. */
  function BoundsIntended(rows: seq<Tuple>, skipLastN: nat): (r: Bounds)
    requires |rows| >= 1 && Rows(rows, rows[0], skipLastN)
    ensures Shaped(r, rows[0])
  {
    WidenFrom(rows, rows[0], skipLastN, 1, |rows|, Bounds(rows[0], rows[0]))
  }

  /** Component i of the widened bounds encloses the starting bounds and the rows scanned,
      and is one of them. */
  lemma {:induction false} WidenFromEncloses(rows: seq<Tuple>, shape: Tuple, skipLastN: nat, lo: nat, hi: nat,
                                             b: Bounds, i: nat)
    requires lo <= hi <= |rows| && Rows(rows, shape, skipLastN) && Shaped(b, shape)
    requires i < |shape| - skipLastN && shape[i].Num?
    ensures var r := WidenFrom(rows, shape, skipLastN, lo, hi, b);
      r.min[i].v <= b.min[i].v && r.max[i].v >= b.max[i].v
      && (forall k :: lo <= k < hi ==> r.min[i].v <= rows[k][i].v <= r.max[i].v)
      && (r.min[i] == b.min[i] || exists k :: lo <= k < hi && r.min[i] == rows[k][i])
      && (r.max[i] == b.max[i] || exists k :: lo <= k < hi && r.max[i] == rows[k][i])
    decreases hi
  {
    if hi > lo {
      var prev := WidenFrom(rows, shape, skipLastN, lo, hi - 1, b);
      WidenFromEncloses(rows, shape, skipLastN, lo, hi - 1, b, i);
      var r := WidenFrom(rows, shape, skipLastN, lo, hi, b);
      assert (r.min[i], r.max[i]) == FindMinMaxAtom(rows[hi - 1][i], prev.min[i], prev.max[i]);
    }
  }

  /** The intended bounds are exactly the per-component minimum and maximum of the rows. */
  lemma BoundsIntendedExact(rows: seq<Tuple>, skipLastN: nat, i: nat)
    requires |rows| >= 1 && Rows(rows, rows[0], skipLastN)
    requires i < |rows[0]| - skipLastN && rows[0][i].Num?
    ensures var b := BoundsIntended(rows, skipLastN);
      (forall k :: 0 <= k < |rows| ==> b.min[i].v <= rows[k][i].v <= b.max[i].v)
      && (exists k :: 0 <= k < |rows| && b.min[i] == rows[k][i])
      && (exists k :: 0 <= k < |rows| && b.max[i] == rows[k][i])
  {
    WidenFromEncloses(rows, rows[0], skipLastN, 1, |rows|, Bounds(rows[0], rows[0]), i);
  }

  /** Every row normalised against the same bounds. */
  function NormalizeRows(rows: seq<Tuple>, shape: Tuple, b: Bounds, skipLastN: nat): (r: seq<Tuple>)
    requires Rows(rows, shape, skipLastN) && Shaped(b, shape)
    ensures |r| == |rows| && Rows(r, shape, skipLastN)
  {
    seq(|rows|, k requires 0 <= k < |rows| => NormalizeTuple(rows[k], b, skipLastN))
  }

  /** With the intended bounds, every arithmetic component of a column whose values are not
      all equal ends up in [0, 1], the column's minimum at 0 and its maximum at 1. */
  lemma NormalizeIntendedUnit(rows: seq<Tuple>, skipLastN: nat, k: nat, i: nat)
    requires |rows| >= 1 && Rows(rows, rows[0], skipLastN)
    requires k < |rows| && i < |rows[0]| - skipLastN && rows[0][i].Num?
    requires BoundsIntended(rows, skipLastN).min[i] != BoundsIntended(rows, skipLastN).max[i]
    ensures var r := NormalizeRows(rows, rows[0], BoundsIntended(rows, skipLastN), skipLastN);
      r[k][i].Num? && 0.0 <= r[k][i].v <= 1.0
  {
    var b := BoundsIntended(rows, skipLastN);
    BoundsIntendedExact(rows, skipLastN, i);
    assert b.min[i].v < b.max[i].v;
    NormalizeAtomUnit(rows[k][i].v, b.min[i].v, b.max[i].v);
  }

  /** The scan that widens the bounds by a[from..]. */
  method WidenBounds(a: array<Tuple>, shape: Tuple, skipLastN: nat, from: nat, b0: Bounds) returns (b: Bounds)
    requires from <= a.Length && Rows(a[..], shape, skipLastN) && Shaped(b0, shape)
    ensures b == WidenFrom(a[..], shape, skipLastN, from, a.Length, b0)
  {
    b := b0;
    var k := from;
    while k < a.Length
      invariant from <= k <= a.Length
      invariant b == WidenFrom(a[..], shape, skipLastN, from, k, b0)
    {
      b := FindMinMax(a[k], b, skipLastN);
      k := k + 1;
    }
  }

  /** The `std::transform` of the range onto itself. */
  method NormalizeInPlace(a: array<Tuple>, shape: Tuple, b: Bounds, skipLastN: nat)
    requires Rows(a[..], shape, skipLastN) && Shaped(b, shape)
    modifies a
    ensures a[..] == NormalizeRows(old(a[..]), shape, b, skipLastN)
  {
    ghost var rows := a[..];
    var k := 0;
    while k < a.Length
      invariant 0 <= k <= a.Length
      invariant forall j :: 0 <= j < k ==> a[j] == NormalizeTuple(rows[j], b, skipLastN)
      invariant forall j :: k <= j < a.Length ==> a[j] == rows[j]
    {
      a[k] := NormalizeTuple(a[k], b, skipLastN);
      k := k + 1;
    }
  }

  /** `normalize<SkipLastN>(start, end)` as written. An empty range is left alone; a single
      element would be read past its end, so the range must not hold exactly one. */
  method NormalizeAsWritten(a: array<Tuple>, skipLastN: nat)
    requires a.Length != 1
    requires a.Length > 0 ==> Rows(a[..], a[0], skipLastN)
    modifies a
    ensures a.Length == 0 ==> a[..] == old(a[..])
    ensures a.Length > 0 ==>
      a[..] == NormalizeRows(old(a[..]), old(a[0]), BoundsAsWritten(old(a[..]), skipLastN), skipLastN)
  {
    if a.Length == 0 {
      return;
    }
    var shape := a[0];
    var b := WidenBounds(a, shape, skipLastN, 2, Bounds(a[0], a[1]));
    NormalizeInPlace(a, shape, b, skipLastN);
  }

  /** `normalize` as intended: both bounds seeded from element 0, so a single element is
      fine too. */
  method Normalize(a: array<Tuple>, skipLastN: nat)
    requires a.Length > 0 ==> Rows(a[..], a[0], skipLastN)
    modifies a
    ensures a.Length == 0 ==> a[..] == old(a[..])
    ensures a.Length > 0 ==>
      a[..] == NormalizeRows(old(a[..]), old(a[0]), BoundsIntended(old(a[..]), skipLastN), skipLastN)
  {
    if a.Length == 0 {
      return;
    }
    var shape := a[0];
    var b := WidenBounds(a, shape, skipLastN, 1, Bounds(a[0], a[0]));
    NormalizeInPlace(a, shape, b, skipLastN);
  }

  /** On the column 5, 1, 3 the written seeding never compares 1 with the minimum or 5 with
      the maximum, collapses both bounds to 3 and yields 4, 0, 2; the intended bounds 1 and 5
      yield 1, 0, 0.5. */
  lemma NormalizeCounterexample()
    ensures var rows := [[Num(5.0)], [Num(1.0)], [Num(3.0)]];
      Rows(rows, rows[0], 0)
      && BoundsAsWritten(rows, 0) == Bounds([Num(3.0)], [Num(3.0)])
      && NormalizeRows(rows, rows[0], BoundsAsWritten(rows, 0), 0) == [[Num(4.0)], [Num(0.0)], [Num(2.0)]]
      && BoundsIntended(rows, 0) == Bounds([Num(1.0)], [Num(5.0)])
      && NormalizeRows(rows, rows[0], BoundsIntended(rows, 0), 0) == [[Num(1.0)], [Num(0.0)], [Num(0.5)]]
  {
    var rows := [[Num(5.0)], [Num(1.0)], [Num(3.0)]];
    var shape := rows[0];
    assert Rows(rows, shape, 0);
    var w := BoundsAsWritten(rows, 0);
    assert WidenFrom(rows, shape, 0, 2, 2, Bounds(rows[0], rows[1])) == Bounds([Num(5.0)], [Num(1.0)]);
    assert w.min[0] == Num(3.0) && w.max[0] == Num(3.0);
    assert w == Bounds([Num(3.0)], [Num(3.0)]);
    var nw := NormalizeRows(rows, shape, w, 0);
    assert nw[0][0] == Num(4.0) && nw[1][0] == Num(0.0) && nw[2][0] == Num(2.0);
    assert nw[0] == [Num(4.0)] && nw[1] == [Num(0.0)] && nw[2] == [Num(2.0)];
    assert nw == [[Num(4.0)], [Num(0.0)], [Num(2.0)]];
    var c1 := WidenFrom(rows, shape, 0, 1, 2, Bounds(rows[0], rows[0]));
    assert c1.min[0] == Num(1.0) && c1.max[0] == Num(5.0);
    var c := BoundsIntended(rows, 0);
    assert c.min[0] == Num(1.0) && c.max[0] == Num(5.0);
    assert c == Bounds([Num(1.0)], [Num(5.0)]);
    var ni := NormalizeRows(rows, shape, c, 0);
    assert NormalizeAtom(3.0, 1.0, 5.0) * 4.0 == 2.0;
    assert ni[0][0] == Num(1.0) && ni[1][0] == Num(0.0) && ni[2][0] == Num(0.5);
    assert ni[0] == [Num(1.0)] && ni[1] == [Num(0.0)] && ni[2] == [Num(0.5)];
    assert ni == [[Num(1.0)], [Num(0.0)], [Num(0.5)]];
  }
}
