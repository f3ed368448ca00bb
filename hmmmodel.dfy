/** Likelihood of a state path under an HMM (algorithm/hmm/model.hpp). */
module HmmModel {
  import opened Wrappers
  import opened Numeric

  const SizeMismatchMessage := "States size is equal to results size"
  const TableSizeMessage :=
    "Number of listed probability equals the product of the number of unique states and results"

  /** The distinct values of a sequence (the `std::set` built from it). */
  function Distinct<T(==)>(s: seq<T>): set<T>
  {
    set x | x in s
  }

  /** `operator[]` read of a probability table: a missing key reads as 0. */
  function Get<K(==)>(m: map<K, real>, k: K): real
  {
    if k in m then m[k] else 0.0
  }

  /** `operator[]` on a probability table: the stored value, inserting 0 for a missing key;
      every other entry is kept. */
  function Subscript<K(==)>(m: map<K, real>, k: K): (r: (map<K, real>, real))
    ensures k in r.0 && r.0[k] == r.1
    ensures k in m ==> r.1 == m[k]
    ensures k !in m ==> r.1 == 0.0
    ensures r.0.Keys == m.Keys + {k}
    ensures forall j :: j in m ==> r.0[j] == m[j]
  {
    if k in m then (m, m[k]) else (m[k := 0.0], 0.0)
  }

  /** The vector overload's checks: equal lengths, and one emission entry for every pair of
      a path state and an observed value. */
  predicate WellShaped<S(==), R(==)>(states: seq<S>, results: seq<R>, probs: map<(S, R), real>)
  {
    |states| == |results| && |Distinct(states)| * |Distinct(results)| == |probs|
  }

  /** The start factor: one over the number of distinct states on the path. */
  function StartFactor<S(==)>(states: seq<S>): real
    requires |states| > 0
  {
    assert states[0] in Distinct(states);
    1.0 / (|Distinct(states)| as real)
  }

  /** The emission factor at position p. */
  function EmissionAt<S(==), R(==)>(states: seq<S>, results: seq<R>, probs: map<(S, R), real>, p: nat): real
    requires p < |states| && p < |results|
  {
    Get(probs, (states[p], results[p]))
  }

  /** The transition factor into position p. */
  function TransitionAt<S(==)>(states: seq<S>, trans: map<(S, S), real>, p: nat): real
    requires 1 <= p < |states|
  {
    Get(trans, (states[p - 1], states[p]))
  }

  /** The running product after the first n positions, in the source's order of
      multiplication: start · E0, then · (E_p · T_p) for each later position. */
  function Likelihood<S(==), R(==)>(states: seq<S>, results: seq<R>, probs: map<(S, R), real>,
                            trans: map<(S, S), real>, n: nat): real
    requires 1 <= n <= |states| && n <= |results|
  {
    if n == 1 then StartFactor(states) * EmissionAt(states, results, probs, 0)
    else Likelihood(states, results, probs, trans, n - 1)
         * (EmissionAt(states, results, probs, n - 1) * TransitionAt(states, trans, n - 1))
  }

  /** Product of the emission factors of the first n positions. */
  function EmissionProduct<S(==), R(==)>(states: seq<S>, results: seq<R>, probs: map<(S, R), real>, n: nat): real
    requires n <= |states| && n <= |results|
  {
    if n == 0 then 1.0 else EmissionProduct(states, results, probs, n - 1) * EmissionAt(states, results, probs, n - 1)
  }

  /** Product of the transition factors into positions 1..n-1. */
  function TransitionProduct<S(==)>(states: seq<S>, trans: map<(S, S), real>, n: nat): real
    requires n <= |states|
  {
    if n <= 1 then 1.0 else TransitionProduct(states, trans, n - 1) * TransitionAt(states, trans, n - 1)
  }

  /** The running product is start · ∏ emissions · ∏ transitions. */
  lemma {:induction false} LikelihoodFactors<S, R>(states: seq<S>, results: seq<R>, probs: map<(S, R), real>,
                                                   trans: map<(S, S), real>, n: nat)
    requires 1 <= n <= |states| && n <= |results|
    ensures Likelihood(states, results, probs, trans, n)
            == StartFactor(states) * EmissionProduct(states, results, probs, n) * TransitionProduct(states, trans, n)
  {
    if n > 1 {
      LikelihoodFactors(states, results, probs, trans, n - 1);
      var a := StartFactor(states);
      var e := EmissionProduct(states, results, probs, n - 1);
      var t := TransitionProduct(states, trans, n - 1);
      var x := EmissionAt(states, results, probs, n - 1);
      var y := TransitionAt(states, trans, n - 1);
      assert (a * e * t) * (x * y) == a * (e * x) * (t * y);
    }
  }

  /** The product vanishes exactly when one of the factors read along the path does, in
      particular when an emission or transition key is missing from its table. */
  lemma {:induction false} LikelihoodZeroIff<S, R>(states: seq<S>, results: seq<R>, probs: map<(S, R), real>,
                                                   trans: map<(S, S), real>, n: nat)
    requires 1 <= n <= |states| && n <= |results|
    ensures Likelihood(states, results, probs, trans, n) == 0.0 <==>
      (exists p :: 0 <= p < n && EmissionAt(states, results, probs, p) == 0.0) ||
      (exists p :: 1 <= p < n && TransitionAt(states, trans, p) == 0.0)
  {
    assert states[0] in Distinct(states);
    var start := StartFactor(states);
    assert start != 0.0;
    if n == 1 {
      ProductZero(start, EmissionAt(states, results, probs, 0));
    } else {
      LikelihoodZeroIff(states, results, probs, trans, n - 1);
      var x := EmissionAt(states, results, probs, n - 1);
      var y := TransitionAt(states, trans, n - 1);
      ProductZero(x, y);
      ProductZero(Likelihood(states, results, probs, trans, n - 1), x * y);
    }
  }

  /** The full path likelihood. */
  function PathLikelihood<S(==), R(==)>(states: seq<S>, results: seq<R>, probs: map<(S, R), real>,
                                trans: map<(S, S), real>): real
    requires 0 < |states| == |results|
  {
    Likelihood(states, results, probs, trans, |states|)
  }

  /** A missing emission or transition key makes the whole likelihood 0. */
  lemma MissingKeyGivesZero<S, R>(states: seq<S>, results: seq<R>, probs: map<(S, R), real>,
                                  trans: map<(S, S), real>, p: nat)
    requires 0 < |states| == |results| && p < |states|
    requires (states[p], results[p]) !in probs || (p >= 1 && (states[p - 1], states[p]) !in trans)
    ensures PathLikelihood(states, results, probs, trans) == 0.0
  {
    if (states[p], results[p]) !in probs {
      assert EmissionAt(states, results, probs, p) == 0.0;
    } else {
      assert TransitionAt(states, trans, p) == 0.0;
    }
    LikelihoodZeroIff(states, results, probs, trans, |states|);
  }

  /** The start factor is 1 exactly when the path stays in one state; it depends on the
      states the path visits, never on how many states the tables list. */
  lemma StartFactorOneIff<S>(states: seq<S>)
    requires |states| > 0
    ensures StartFactor(states) == 1.0 <==> forall i :: 0 <= i < |states| ==> states[i] == states[0]
  {
    if forall i :: 0 <= i < |states| ==> states[i] == states[0] {
      assert Distinct(states) == {states[0]};
    } else {
      var i :| 0 <= i < |states| && states[i] != states[0];
      assert {states[0], states[i]} <= Distinct(states);
      assert |{states[0], states[i]}| == 2;
      SubsetSize({states[0], states[i]}, Distinct(states));
    }
  }

  lemma SubsetSize<T>(a: set<T>, b: set<T>)
    requires a <= b
    ensures |a| <= |b|
  {
    assert b == a + (b - a);
  }

  /** `hmm_probability_of` on vectors and maps. The assertions are taken as enabled
      (a failing one is an error result). Calling it with two empty sequences and an empty
      table reads past the end of `states` and divides by zero, so that is excluded. */
  method ProbabilityOf<S(==), R(==)>(states: seq<S>, results: seq<R>, probs: map<(S, R), real>,
                             trans: map<(S, S), real>) returns (r: Result<real>)
    requires |states| > 0 || |results| > 0 || |probs| > 0
    ensures |states| != |results| ==> r == Err(SizeMismatchMessage)
    ensures |states| == |results| && !WellShaped(states, results, probs) ==> r == Err(TableSizeMessage)
    ensures WellShaped(states, results, probs) ==>
      |states| > 0 && r == Ok(PathLikelihood(states, results, probs, trans))
  {
    if |states| != |results| {
      return Err(SizeMismatchMessage);
    }
    var nrOfStates := |Distinct(states)|;
    var nrOfResults := |Distinct(results)|;
    if nrOfStates * nrOfResults != |probs| {
      return Err(TableSizeMessage);
    }
    var res := MultiplyAlongPath(states, results, probs, trans);
    return Ok(res);
  }

  /** The multiplication loop of `hmm_probability_of`, reading both tables through
      `operator[]`. The tables are bound by reference, so a missing key's 0 is inserted
      into the caller's map; here the tables are values, and the method returns only the
      likelihood. */
  method MultiplyAlongPath<S(==), R(==)>(states: seq<S>, results: seq<R>, probs: map<(S, R), real>,
                                         trans: map<(S, S), real>) returns (res: real)
    requires 0 < |states| == |results|
    ensures res == PathLikelihood(states, results, probs, trans)
  {
    assert states[0] in Distinct(states);
    var emission := probs;
    var transition := trans;
    res := 1.0 / (|Distinct(states)| as real);
    var first := Subscript(emission, (states[0], results[0]));
    var e, t;
    emission, e := first.0, first.1;
    res := res * e;
    var p := 1;
    var len := |results|;
    while p < len
      invariant 1 <= p <= len
      invariant forall k :: Get(emission, k) == Get(probs, k)
      invariant forall k :: Get(transition, k) == Get(trans, k)
      invariant res == Likelihood(states, results, probs, trans, p)
    {
      var probOf := Subscript(emission, (states[p], results[p]));
      var probOfTrans := Subscript(transition, (states[p - 1], states[p]));
      emission, e := probOf.0, probOf.1;
      transition, t := probOfTrans.0, probOfTrans.1;
      assert e == EmissionAt(states, results, probs, p);
      assert t == TransitionAt(states, trans, p);
      res := res * (e * t);
      assert res == Likelihood(states, results, probs, trans, p + 1);
      p := p + 1;
    }
  }

  /** The tables the initializer-list overload builds with `emplace`: the first triple
      for a key wins, later ones are ignored. */
  function FirstWins<A(==), B(==)>(triples: seq<(A, B, real)>): map<(A, B), real>
  {
    if |triples| == 0 then map[]
    else
      var m := FirstWins(triples[..|triples| - 1]);
      var last := triples[|triples| - 1];
      if (last.0, last.1) in m then m else m[(last.0, last.1) := last.2]
  }

  /** Every listed key is in the table, mapped to the value of its first triple. */
  lemma {:induction false} FirstWinsSpec<A, B>(triples: seq<(A, B, real)>)
    ensures forall k :: k in FirstWins(triples) <==> exists i :: 0 <= i < |triples| && (triples[i].0, triples[i].1) == k
    ensures forall i :: 0 <= i < |triples| ==>
      (forall j :: 0 <= j < i ==> (triples[j].0, triples[j].1) != (triples[i].0, triples[i].1)) ==>
      FirstWins(triples)[(triples[i].0, triples[i].1)] == triples[i].2
  {
    if |triples| > 0 {
      var init := triples[..|triples| - 1];
      FirstWinsSpec(init);
      var m := FirstWins(init);
      forall k
        ensures k in FirstWins(triples) <==> exists i :: 0 <= i < |triples| && (triples[i].0, triples[i].1) == k
      {
        if exists i :: 0 <= i < |init| && (init[i].0, init[i].1) == k {
          var i :| 0 <= i < |init| && (init[i].0, init[i].1) == k;
          assert triples[i] == init[i];
        }
        if exists i :: 0 <= i < |triples| && (triples[i].0, triples[i].1) == k {
          var i :| 0 <= i < |triples| && (triples[i].0, triples[i].1) == k;
          if i < |init| { assert init[i] == triples[i]; }
        }
      }
      forall i | 0 <= i < |triples| && (forall j :: 0 <= j < i ==> (triples[j].0, triples[j].1) != (triples[i].0, triples[i].1))
        ensures FirstWins(triples)[(triples[i].0, triples[i].1)] == triples[i].2
      {
        var k := (triples[i].0, triples[i].1);
        if i < |init| {
          assert init[i] == triples[i];
          assert forall j :: 0 <= j < i ==> init[j] == triples[j];
        } else {
          assert k !in m;
        }
      }
    }
  }

  /** The `emplace` loop that fills one table. */
  method EmplaceAll<A(==), B(==)>(triples: seq<(A, B, real)>) returns (m: map<(A, B), real>)
    ensures m == FirstWins(triples)
  {
    m := map[];
    var i := 0;
    while i < |triples|
      invariant 0 <= i <= |triples|
      invariant m == FirstWins(triples[..i])
    {
      assert triples[..i + 1][..i] == triples[..i];
      var (a, b, k) := triples[i];
      if (a, b) !in m {
        m := m[(a, b) := k];
      }
      i := i + 1;
    }
    assert triples[..|triples|] == triples;
  }

  lemma FirstWinsEmptyIff<A, B>(triples: seq<(A, B, real)>)
    ensures |FirstWins(triples)| == 0 <==> |triples| == 0
  {
    FirstWinsSpec(triples);
    if |triples| > 0 {
      assert (triples[0].0, triples[0].1) in FirstWins(triples);
    }
  }

  /** `hmm_probability_of` on initializer lists: build both tables, then defer to the vector
      overload. */
  method ProbabilityOfLists<S(==), R(==)>(states: seq<S>, results: seq<R>, probs: seq<(S, R, real)>,
                                  trans: seq<(S, S, real)>) returns (r: Result<real>)
    requires |states| > 0 || |results| > 0 || |probs| > 0
    ensures |states| != |results| ==> r == Err(SizeMismatchMessage)
    ensures |states| == |results| && !WellShaped(states, results, FirstWins(probs)) ==> r == Err(TableSizeMessage)
    ensures WellShaped(states, results, FirstWins(probs)) ==>
      |states| > 0 && r == Ok(PathLikelihood(states, results, FirstWins(probs), FirstWins(trans)))
  {
    var mapProbs := EmplaceAll(probs);
    var mapTrans := EmplaceAll(trans);
    FirstWinsEmptyIff(probs);
    r := ProbabilityOf(states, results, mapProbs, mapTrans);
  }

  /** The loaded-die example of the HMM test: a fair die 'F' and a loaded die 'L' that
      throws a six three times in eight. */
  const DiePath: seq<char> := ['F', 'F', 'F', 'F', 'F', 'L', 'L', 'L', 'L', 'F', 'F', 'F', 'F', 'F', 'F']
  const DieThrows: seq<int> := [1, 2, 1, 5, 6, 2, 1, 6, 2, 4, 6, 2, 3, 6, 4]
  const DieEmission: map<(char, int), real> := map[
    ('F', 1) := 1.0 / 6.0, ('F', 2) := 1.0 / 6.0, ('F', 3) := 1.0 / 6.0,
    ('F', 4) := 1.0 / 6.0, ('F', 5) := 1.0 / 6.0, ('F', 6) := 1.0 / 6.0,
    ('L', 1) := 1.0 / 8.0, ('L', 2) := 1.0 / 8.0, ('L', 3) := 1.0 / 8.0,
    ('L', 4) := 1.0 / 8.0, ('L', 5) := 1.0 / 8.0, ('L', 6) := 3.0 / 8.0]
  const DieTransitions: map<(char, char), real> := map[
    ('F', 'L') := 0.1, ('L', 'F') := 0.1, ('L', 'L') := 0.9, ('F', 'F') := 0.9]

  /** Boost's `BOOST_REQUIRE_CLOSE(expected, actual, percent)`: the difference is within
      `percent` percent of both values. */
  predicate CloseTo(expected: real, actual: real, percent: real)
  {
    var diff := if expected >= actual then expected - actual else actual - expected;
    var e := if expected >= 0.0 then expected else -expected;
    var a := if actual >= 0.0 then actual else -actual;
    diff * 100.0 <= percent * e && diff * 100.0 <= percent * a
  }

  /** The example's likelihood is the test's golden value 2.85087e-15 to within 0.03
      percent. */
  lemma LoadedDieLikelihood()
    ensures CloseTo(2.85087e-15, PathLikelihood(DiePath, DieThrows, DieEmission, DieTransitions), 0.03)
  {
    DiePathStates();
    LoadedDieFactors();
    assert StartFactor(DiePath) == 1.0 / 2.0;
    ghost var l := (1.0 / 2.0) * (1.0 / 6.0);
    assert Likelihood(DiePath, DieThrows, DieEmission, DieTransitions, 1) == l;
    l := l * ((1.0 / 6.0) * 0.9);
    assert Likelihood(DiePath, DieThrows, DieEmission, DieTransitions, 2) == l;
    l := l * ((1.0 / 6.0) * 0.9);
    assert Likelihood(DiePath, DieThrows, DieEmission, DieTransitions, 3) == l;
    l := l * ((1.0 / 6.0) * 0.9);
    assert Likelihood(DiePath, DieThrows, DieEmission, DieTransitions, 4) == l;
    l := l * ((1.0 / 6.0) * 0.9);
    assert Likelihood(DiePath, DieThrows, DieEmission, DieTransitions, 5) == l;
    l := l * ((1.0 / 8.0) * 0.1);
    assert Likelihood(DiePath, DieThrows, DieEmission, DieTransitions, 6) == l;
    l := l * ((1.0 / 8.0) * 0.9);
    assert Likelihood(DiePath, DieThrows, DieEmission, DieTransitions, 7) == l;
    l := l * ((3.0 / 8.0) * 0.9);
    assert Likelihood(DiePath, DieThrows, DieEmission, DieTransitions, 8) == l;
    l := l * ((1.0 / 8.0) * 0.9);
    assert Likelihood(DiePath, DieThrows, DieEmission, DieTransitions, 9) == l;
    l := l * ((1.0 / 6.0) * 0.1);
    assert Likelihood(DiePath, DieThrows, DieEmission, DieTransitions, 10) == l;
    l := l * ((1.0 / 6.0) * 0.9);
    assert Likelihood(DiePath, DieThrows, DieEmission, DieTransitions, 11) == l;
    l := l * ((1.0 / 6.0) * 0.9);
    assert Likelihood(DiePath, DieThrows, DieEmission, DieTransitions, 12) == l;
    l := l * ((1.0 / 6.0) * 0.9);
    assert Likelihood(DiePath, DieThrows, DieEmission, DieTransitions, 13) == l;
    l := l * ((1.0 / 6.0) * 0.9);
    assert Likelihood(DiePath, DieThrows, DieEmission, DieTransitions, 14) == l;
    l := l * ((1.0 / 6.0) * 0.9);
    assert Likelihood(DiePath, DieThrows, DieEmission, DieTransitions, 15) == l;
  }

  lemma LoadedDieShape()
    ensures WellShaped(DiePath, DieThrows, DieEmission)
  {
    DiePathStates();
    DieThrowFaces();
    DieEmissionSize();
  }

  lemma DiePathStates()
    ensures |Distinct(DiePath)| == 2
  {
    forall c | c in Distinct(DiePath) ensures c == 'F' || c == 'L' { }
    assert DiePath[0] == 'F' && DiePath[5] == 'L';
    assert Distinct(DiePath) == {'F', 'L'};
  }

  lemma DieThrowFaces()
    ensures |Distinct(DieThrows)| == 6
  {
    forall c | c in Distinct(DieThrows) ensures 1 <= c <= 6 { }
    assert DieThrows[0] == 1 && DieThrows[1] == 2 && DieThrows[12] == 3;
    assert DieThrows[9] == 4 && DieThrows[3] == 5 && DieThrows[4] == 6;
    assert Distinct(DieThrows) == {1, 2, 3, 4, 5, 6};
  }

  /** The emission table lists twelve distinct (die, face) keys. */
  lemma DieEmissionSize()
    ensures |DieEmission| == 12
  {
    var m0: map<(char, int), real> := map[];
    var m6 := m0[('F', 1) := 1.0 / 6.0][('F', 2) := 1.0 / 6.0][('F', 3) := 1.0 / 6.0]
                [('F', 4) := 1.0 / 6.0][('F', 5) := 1.0 / 6.0][('F', 6) := 1.0 / 6.0];
    assert |m6| == 6;
    var m12 := m6[('L', 1) := 1.0 / 8.0][('L', 2) := 1.0 / 8.0][('L', 3) := 1.0 / 8.0]
                 [('L', 4) := 1.0 / 8.0][('L', 5) := 1.0 / 8.0][('L', 6) := 3.0 / 8.0];
    assert |m12| == 12;
    assert DieEmission == m12;
  }

  lemma LoadedDieFactors()
    ensures forall p :: 0 <= p < 15 ==>
      EmissionAt(DiePath, DieThrows, DieEmission, p)
      == (if 5 <= p < 9 then (if DieThrows[p] == 6 then 3.0 / 8.0 else 1.0 / 8.0) else 1.0 / 6.0)
    ensures forall p :: 1 <= p < 15 ==>
      TransitionAt(DiePath, DieTransitions, p) == (if p == 5 || p == 9 then 0.1 else 0.9)
  {
  }
}
