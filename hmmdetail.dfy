/** Table plumbing shared by the HMM algorithms (algorithm/hmm/detail/model.hpp). */
module HmmDetail {
  import opened Wrappers
  import opened Numeric

  /** The three parameter tables of an HMM as the caller owns them: emission probabilities
      per state and observation, transition probabilities per (from, to) pair, and
      starting probabilities per state. The log-scale strategy rewrites them in place. */
  class HmmTables<S(==), R(==)> {
    var emission: map<S, map<R, real>>
    var transitions: map<(S, S), real>
    var starting: map<S, real>

    constructor (emission: map<S, map<R, real>>, transitions: map<(S, S), real>, starting: map<S, real>)
      ensures this.emission == emission && this.transitions == transitions && this.starting == starting
    {
      this.emission := emission;
      this.transitions := transitions;
      this.starting := starting;
    }
  }

  /** Every stored probability replaced by its log2; the keys stay. */
  function Log2Values<K>(m: map<K, real>): (r: map<K, real>)
    ensures r.Keys == m.Keys
    ensures forall k :: k in r ==> r[k] == Log2(m[k])
  {
    map k | k in m :: Log2(m[k])
  }

  /** The emission table with every inner probability replaced by its log2; outer and inner
      keys stay. */
  function NestedLog2Values<S, R>(m: map<S, map<R, real>>): (r: map<S, map<R, real>>)
    ensures r.Keys == m.Keys
    ensures forall s :: s in r ==> r[s].Keys == m[s].Keys
    ensures forall s, o :: s in r && o in r[s] ==> r[s][o] == Log2(m[s][o])
  {
    map s | s in m :: Log2Values(m[s])
  }

  /** The `for_each` body that assigns `log2(pair.second)` to every entry of one map. */
  method MapValuesToLog2<K>(m: map<K, real>) returns (r: map<K, real>)
    ensures r == Log2Values(m)
  {
    r := m;
    var todo := m.Keys;
    while todo != {}
      invariant todo <= m.Keys
      invariant r.Keys == m.Keys
      invariant forall k :: k in m && k !in todo ==> r[k] == Log2(m[k])
      invariant forall k :: k in todo ==> r[k] == m[k]
      decreases |todo|
    {
      var k :| k in todo;
      r := r[k := Log2(r[k])];
      todo := todo - {k};
    }
  }

  /** `hmm_probability_map_to_log2`: rewrites every inner emission probability in place. */
  method ProbabilityMapToLog2<S, R>(t: HmmTables<S, R>)
    modifies t
    ensures t.emission == NestedLog2Values(old(t.emission))
    ensures t.transitions == old(t.transitions) && t.starting == old(t.starting)
  {
    ghost var original := t.emission;
    var todo := t.emission.Keys;
    while todo != {}
      invariant todo <= original.Keys
      invariant t.emission.Keys == original.Keys
      invariant forall s :: s in original && s !in todo ==> t.emission[s] == Log2Values(original[s])
      invariant forall s :: s in todo ==> t.emission[s] == original[s]
      invariant t.transitions == old(t.transitions) && t.starting == old(t.starting)
      decreases |todo|
    {
      var s :| s in todo;
      var inner := MapValuesToLog2(t.emission[s]);
      t.emission := t.emission[s := inner];
      todo := todo - {s};
    }
  }

  /** `hmm_transition_map_to_log2`. */
  method TransitionMapToLog2<S, R>(t: HmmTables<S, R>)
    modifies t
    ensures t.transitions == Log2Values(old(t.transitions))
    ensures t.emission == old(t.emission) && t.starting == old(t.starting)
  {
    t.transitions := MapValuesToLog2(t.transitions);
  }

  /** `hmm_starting_probs_to_log2`. */
  method StartingProbsToLog2<S, R>(t: HmmTables<S, R>)
    modifies t
    ensures t.starting == Log2Values(old(t.starting))
    ensures t.emission == old(t.emission) && t.transitions == old(t.transitions)
  {
    t.starting := MapValuesToLog2(t.starting);
  }

  /** Every state of `keys` starts with probability 1/|keys|. */
  function UniformStart<S>(keys: set<S>): (r: map<S, real>)
    ensures r.Keys == keys
    ensures forall s :: s in r ==> r[s] * (|keys| as real) == 1.0
  {
    map s | s in keys :: 1.0 / (|keys| as real)
  }

  /** `hmm_default_starting_probs`: the emission table is taken by value, so the caller's
      table cannot change; one entry per emission state, each 1/|states|. */
  method DefaultStartingProbs<S, R>(emission: map<S, map<R, real>>) returns (start: map<S, real>)
    ensures start == UniformStart(emission.Keys)
  {
    var statesCount := |emission|;
    start := map[];
    var todo := emission.Keys;
    while todo != {}
      invariant todo <= emission.Keys
      invariant start.Keys == emission.Keys - todo
      invariant forall s :: s in start ==> start[s] == 1.0 / (statesCount as real)
      decreases |todo|
    {
      var s :| s in todo;
      if s !in start {
        start := start[s := 1.0 / (statesCount as real)];
      }
      todo := todo - {s};
    }
  }

  /** The sum of the values listed by `ks`, in that order. */
  function SumOver<K>(m: map<K, real>, ks: seq<K>): real
    requires forall i :: 0 <= i < |ks| ==> ks[i] in m
  {
    if |ks| == 0 then 0.0 else SumOver(m, ks[..|ks| - 1]) + m[ks[|ks| - 1]]
  }

  predicate NoDuplicates<K(==)>(ks: seq<K>)
  {
    forall i, j :: 0 <= i < j < |ks| ==> ks[i] != ks[j]
  }

  /** A duplicate-free listing of a set has the set's size. */
  lemma {:induction false} ListingSize<K>(ks: seq<K>, keys: set<K>)
    requires NoDuplicates(ks)
    requires forall k :: k in keys <==> k in ks
    ensures |ks| == |keys|
  {
    if |ks| > 0 {
      var last := ks[|ks| - 1];
      var rest := ks[..|ks| - 1];
      forall k
        ensures k in keys - {last} <==> k in rest
      {
        if k in rest {
          var i :| 0 <= i < |rest| && rest[i] == k;
          assert ks[i] == k;
        }
      }
      ListingSize(rest, keys - {last});
    }
  }

  /** Summing n entries that all equal c gives n·c. */
  lemma {:induction false} SumOverConstant<K>(m: map<K, real>, ks: seq<K>, c: real)
    requires forall i :: 0 <= i < |ks| ==> ks[i] in m && m[ks[i]] == c
    ensures SumOver(m, ks) == (|ks| as real) * c
  {
    if |ks| > 0 {
      SumOverConstant(m, ks[..|ks| - 1], c);
    }
  }

  /** The default start table is a probability distribution: listed in any order, its
      values sum to 1. */
  lemma UniformStartSumsToOne<S>(keys: set<S>, ks: seq<S>)
    requires keys != {}
    requires NoDuplicates(ks)
    requires forall k :: k in keys <==> k in ks
    ensures forall i :: 0 <= i < |ks| ==> ks[i] in UniformStart(keys)
    ensures SumOver(UniformStart(keys), ks) == 1.0
  {
    ListingSize(ks, keys);
    var n := |keys| as real;
    assert n > 0.0;
    SumOverConstant(UniformStart(keys), ks, 1.0 / n);
    assert n * (1.0 / n) == 1.0;
  }

  /** The two probability-scale strategies: plain probabilities, or log2 probabilities. */
  datatype Scale = Linear | Logarithmic

  /** `mul`: a product on the linear scale, a sum on the log scale. */
  function Mul(scale: Scale, lhs: real, rhs: real): real
  {
    match scale
    case Linear => lhs * rhs
    case Logarithmic => lhs + rhs
  }

  /** `p_of`: what an algorithm reports for a probability it has accumulated on the scale. */
  function POf(scale: Scale, value: real): real
  {
    value
  }

  /** Chains `mul` over a non-empty sequence of factors, left to right. */
  function Combine(scale: Scale, ps: seq<real>): real
    requires |ps| > 0
  {
    if |ps| == 1 then ps[0] else Mul(scale, Combine(scale, ps[..|ps| - 1]), ps[|ps| - 1])
  }

  lemma {:induction false} ProductOfPositives(ps: seq<real>)
    requires |ps| > 0
    requires forall i :: 0 <= i < |ps| ==> ps[i] > 0.0
    ensures Combine(Linear, ps) > 0.0
  {
    if |ps| > 1 {
      ProductOfPositives(ps[..|ps| - 1]);
      MulPositive(Combine(Linear, ps[..|ps| - 1]), ps[|ps| - 1]);
    }
  }

  /** The point of the log scale: for any logarithm `log` (a homomorphism from products of
      positives to sums), chaining log-scale `mul` over the logs of the factors gives the log
      of the linear-scale product. */
  lemma {:induction false} LogScaleTracksLinear(ps: seq<real>, log: real -> real)
    requires |ps| > 0
    requires forall i :: 0 <= i < |ps| ==> ps[i] > 0.0
    requires forall a: real, b: real :: a > 0.0 && b > 0.0 ==> log(a * b) == log(a) + log(b)
    ensures Combine(Logarithmic, seq(|ps|, i requires 0 <= i < |ps| => log(ps[i])))
            == log(Combine(Linear, ps))
  {
    var logs := seq(|ps|, i requires 0 <= i < |ps| => log(ps[i]));
    if |ps| > 1 {
      var init := ps[..|ps| - 1];
      LogScaleTracksLinear(init, log);
      assert logs[..|ps| - 1] == seq(|init|, i requires 0 <= i < |init| => log(init[i]));
      ProductOfPositives(init);
    }
  }
  /** `p_of` converts nothing back: a run on the log scale reports the logarithm of what the
      same run on the linear scale reports, not the probability itself. */
  lemma POfReportsOnItsScale(ps: seq<real>, log: real -> real)
    requires |ps| > 0
    requires forall i :: 0 <= i < |ps| ==> ps[i] > 0.0
    requires forall a: real, b: real :: a > 0.0 && b > 0.0 ==> log(a * b) == log(a) + log(b)
    ensures POf(Logarithmic, Combine(Logarithmic, seq(|ps|, i requires 0 <= i < |ps| => log(ps[i]))))
            == log(POf(Linear, Combine(Linear, ps)))
  {
    LogScaleTracksLinear(ps, log);
  }


  /** The scale constructors: the linear one leaves the caller's tables alone, the
      logarithmic one rewrites all three of them to log2 in place. */
  method ApplyScale<S, R>(scale: Scale, t: HmmTables<S, R>)
    modifies t
    ensures scale == Linear ==>
      t.emission == old(t.emission) && t.transitions == old(t.transitions) && t.starting == old(t.starting)
    ensures scale == Logarithmic ==>
      t.emission == NestedLog2Values(old(t.emission)) && t.transitions == Log2Values(old(t.transitions))
      && t.starting == Log2Values(old(t.starting))
  {
    if scale == Logarithmic {
      ProbabilityMapToLog2(t);
      TransitionMapToLog2(t);
      StartingProbsToLog2(t);
    }
  }

  const EmptyEmissionMessage := "Emission observations probability map input must not be empty"
  const EmptyTransitionMessage := "Transition probability map input must not be empty"
  const EmptyStartingMessage := "Starting probability vector input must not be empty"
  const StartingCountMessage := "Number of starting possibilities is equal to the number of states"

  /** Whether some state lists at least one observation. */
  predicate HasEmissionEntries<S, R>(emission: map<S, map<R, real>>)
  {
    exists s :: s in emission && |emission[s]| > 0
  }

  /** `hmm_validate_parameters`: the first failing assertion in source order, or a pass.
      The arguments are values, so validation cannot change them. */
  method ValidateParameters<S, R>(emission: map<S, map<R, real>>, transitions: map<(S, S), real>,
                                  starting: map<S, real>) returns (outcome: Outcome)
    ensures !HasEmissionEntries(emission) ==> outcome == Fail(EmptyEmissionMessage)
    ensures HasEmissionEntries(emission) && |transitions| == 0 ==> outcome == Fail(EmptyTransitionMessage)
    ensures HasEmissionEntries(emission) && |transitions| > 0 && |starting| == 0 ==>
      outcome == Fail(EmptyStartingMessage)
    ensures HasEmissionEntries(emission) && |transitions| > 0 && |starting| > 0 ==>
      outcome == (if |emission| == |starting| then Pass else Fail(StartingCountMessage))
  {
    var nrOfStates := |emission|;
    var nrOfTransitions := |transitions|;
    var nrOfEmissionProbs: nat := 0;
    var todo := emission.Keys;
    while todo != {}
      invariant todo <= emission.Keys
      invariant nrOfEmissionProbs == 0 <==> forall s :: s in emission && s !in todo ==> |emission[s]| == 0
      decreases |todo|
    {
      var s :| s in todo;
      nrOfEmissionProbs := nrOfEmissionProbs + |emission[s]|;
      todo := todo - {s};
    }
    var nrOfStarting := |starting|;
    if nrOfEmissionProbs == 0 {
      return Fail(EmptyEmissionMessage);
    }
    if nrOfTransitions == 0 {
      return Fail(EmptyTransitionMessage);
    }
    if nrOfStarting == 0 {
      return Fail(EmptyStartingMessage);
    }
    if nrOfStates != nrOfStarting {
      return Fail(StartingCountMessage);
    }
    return Pass;
  }
}
