/** Searching an index range for the argument that optimises an algorithm
    (algorithm/optimize.hpp). */
module Optimize {

  /** The last index examined plus one: the range [fromN, toN) always includes `fromN`. */
  function RangeEnd(fromN: nat, toN: nat): nat
  {
    if toN <= fromN + 1 then fromN + 1 else toN
  }

  /** The (value, index) the search holds after examining [fromN, toN): `algorithm(fromN)` is
      the start, and a later value replaces it only when the comparator prefers it. */
  function Best<V>(algorithm: nat -> V, comparator: (V, V) -> bool, fromN: nat, toN: nat): (r: (V, nat))
    ensures fromN <= r.1 < RangeEnd(fromN, toN)
    ensures r.0 == algorithm(r.1)
    decreases toN
  {
    if toN <= fromN + 1 then (algorithm(fromN), fromN)
    else
      var prev := Best(algorithm, comparator, fromN, toN - 1);
      if comparator(algorithm(toN - 1), prev.0) then (algorithm(toN - 1), toN - 1) else prev
  }

  ghost predicate Irreflexive<V(!new)>(comparator: (V, V) -> bool)
  {
    forall a :: !comparator(a, a)
  }

  ghost predicate Transitive<V(!new)>(comparator: (V, V) -> bool)
  {
    forall a, b, c :: comparator(a, b) && comparator(b, c) ==> comparator(a, c)
  }

  /** Of a strict weak order: whatever a is preferred to, every x is either beaten by a or
      itself preferred to that value. */
  ghost predicate NegativelyTransitive<V(!new)>(comparator: (V, V) -> bool)
  {
    forall a, b, x :: comparator(a, b) ==> comparator(a, x) || comparator(x, b)
  }

  /** With a strict (irreflexive, transitive) comparator no examined index beats the result. */
  lemma {:induction false} BestNotBeaten<V(!new)>(algorithm: nat -> V, comparator: (V, V) -> bool,
                                                   fromN: nat, toN: nat, i: nat)
    requires Irreflexive(comparator) && Transitive(comparator)
    requires fromN <= i < RangeEnd(fromN, toN)
    ensures !comparator(algorithm(i), Best(algorithm, comparator, fromN, toN).0)
    decreases toN
  {
    if toN > fromN + 1 {
      var prev := Best(algorithm, comparator, fromN, toN - 1);
      if i < toN - 1 {
        BestNotBeaten(algorithm, comparator, fromN, toN - 1, i);
      }
    }
  }

  /** With a strict weak order the result is preferred to every index examined before it:
      among equal optima the earliest wins. */
  lemma {:induction false} BestEarliest<V(!new)>(algorithm: nat -> V, comparator: (V, V) -> bool,
                                                  fromN: nat, toN: nat, i: nat)
    requires Irreflexive(comparator) && Transitive(comparator) && NegativelyTransitive(comparator)
    requires fromN <= i < Best(algorithm, comparator, fromN, toN).1
    ensures comparator(Best(algorithm, comparator, fromN, toN).0, algorithm(i))
    decreases toN
  {
    if toN > fromN + 1 {
      var prev := Best(algorithm, comparator, fromN, toN - 1);
      if comparator(algorithm(toN - 1), prev.0) {
        BestNotBeaten(algorithm, comparator, fromN, toN - 1, i);
        assert comparator(algorithm(toN - 1), algorithm(i)) || comparator(algorithm(i), prev.0);
      } else {
        BestEarliest(algorithm, comparator, fromN, toN - 1, i);
      }
    }
  }

  /** `iterative_optimize_helper::operator()`, reached through `optimize_n(algorithm, from_n,
      to_n, comp)`: every index of [fromN, toN) is evaluated once, in ascending order, and
      `algorithm(fromN)` always. */
  method OptimizeN<V>(algorithm: nat -> V, fromN: nat, toN: nat, comparator: (V, V) -> bool)
    returns (value: V, index: nat)
    ensures (value, index) == Best(algorithm, comparator, fromN, toN)
  {
    index := fromN;
    value := algorithm(fromN);
    var i := fromN + 1;
    while i < toN
      invariant fromN + 1 <= i <= RangeEnd(fromN, toN)
      invariant (value, index) == Best(algorithm, comparator, fromN, i)
    {
      var temp := algorithm(i);
      if comparator(temp, value) {
        index := i;
        value := temp;
      }
      i := i + 1;
    }
  }

  /** `minimize(algorithm, n)`: `optimize_n` over [0, n) with `less`. */
  method Minimize(algorithm: nat -> real, n: nat) returns (value: real, index: nat)
    ensures index < RangeEnd(0, n) && value == algorithm(index)
    ensures forall i :: 0 <= i < RangeEnd(0, n) ==> value <= algorithm(i)
    ensures forall i :: 0 <= i < index ==> value < algorithm(i)
  {
    var less := (a: real, b: real) => a < b;
    value, index := OptimizeN(algorithm, 0, n, less);
    forall i | 0 <= i < RangeEnd(0, n) ensures value <= algorithm(i) {
      BestNotBeaten(algorithm, less, 0, n, i);
    }
    forall i | 0 <= i < index ensures value < algorithm(i) {
      BestEarliest(algorithm, less, 0, n, i);
    }
  }

  /** `maximize(algorithm, n)`: `optimize_n` over [0, n) with `greater`. */
  method Maximize(algorithm: nat -> real, n: nat) returns (value: real, index: nat)
    ensures index < RangeEnd(0, n) && value == algorithm(index)
    ensures forall i :: 0 <= i < RangeEnd(0, n) ==> value >= algorithm(i)
    ensures forall i :: 0 <= i < index ==> value > algorithm(i)
  {
    var greater := (a: real, b: real) => a > b;
    value, index := OptimizeN(algorithm, 0, n, greater);
    forall i | 0 <= i < RangeEnd(0, n) ensures value >= algorithm(i) {
      BestNotBeaten(algorithm, greater, 0, n, i);
    }
    forall i | 0 <= i < index ensures value > algorithm(i) {
      BestEarliest(algorithm, greater, 0, n, i);
    }
  }
}
