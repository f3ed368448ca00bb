/** The k-nearest-neighbour vote (algorithm/clustering/knn.hpp). A sample row is its
    coordinates with its label; the counters map is kept in first-insertion order. */
module Knn {
  import opened Wrappers
  import opened Euclidean

  /** A row of the sample model: its arithmetic components, and its label (what `get_label`
      reads) as `category`. */
  datatype Sample = Sample(point: Point, category: string)

  /** Every row has the test element's dimension. */
  predicate SameDimension(rows: seq<Sample>, test: Sample)
  {
    forall i :: 0 <= i < |rows| ==> |rows[i].point| == |test.point|
  }

  /** The distance from the test element to every row i, measured over the arithmetic
      coordinates only. The source passes the whole rows, string label included, to
      `euclidean_distance`; here the label takes no part in the distance. */
  function Distances(rows: seq<Sample>, test: Sample): (ds: seq<real>)
    requires SameDimension(rows, test)
    ensures |ds| == |rows|
    ensures forall i :: 0 <= i < |rows| ==> ds[i] == TupleDistance(test.point, rows[i].point)
  {
    seq(|rows|, i requires 0 <= i < |rows| => TupleDistance(test.point, rows[i].point))
  }

  // ---------------------------------------------------------------------------------------
  // The k rounds
  // ---------------------------------------------------------------------------------------

  /** A row a round may pick: row 0, the fixed starting candidate, or an unused later row. */
  predicate Eligible(used: set<nat>, i: nat)
  {
    i == 0 || i !in used
  }

  /** The inner loop over rows 1 .. n-1: the eligible row whose distance no later eligible
      row beats strictly, starting from row 0. */
  function NearestUpTo(ds: seq<real>, used: set<nat>, n: nat): (i: nat)
    requires 1 <= n <= |ds|
    ensures i < n && Eligible(used, i)
    decreases n
  {
    if n == 1 then 0
    else
      var p := NearestUpTo(ds, used, n - 1);
      if n - 1 !in used && ds[p] > ds[n - 1] then n - 1 else p
  }

  /** The picked row is no farther than any eligible row examined, and strictly nearer than
      every eligible row before it: ties go to the lowest index. */
  lemma {:induction false} NearestUpToMinimal(ds: seq<real>, used: set<nat>, n: nat)
    requires 1 <= n <= |ds|
    ensures forall j :: 0 <= j < n && Eligible(used, j) ==> ds[NearestUpTo(ds, used, n)] <= ds[j]
    ensures forall j :: 0 <= j < NearestUpTo(ds, used, n) && Eligible(used, j) ==> ds[j] > ds[NearestUpTo(ds, used, n)]
    decreases n
  {
    if n > 1 {
      NearestUpToMinimal(ds, used, n - 1);
    }
  }

  /** One round's pick over all rows. */
  function Pick(ds: seq<real>, used: set<nat>): (i: nat)
    requires |ds| > 0
    ensures i < |ds| && Eligible(used, i)
  {
    NearestUpTo(ds, used, |ds|)
  }

  /** The rows marked used by the picks so far. */
  function Used(picks: seq<nat>): set<nat>
  {
    set i | i in picks
  }

  /** The rows the first k rounds pick, in round order. */
  function Picks(ds: seq<real>, k: nat): (p: seq<nat>)
    requires |ds| > 0
    ensures |p| == k
    ensures forall r :: 0 <= r < k ==> p[r] < |ds|
    decreases k
  {
    if k == 0 then []
    else
      var prev := Picks(ds, k - 1);
      prev + [Pick(ds, Used(prev))]
  }

  /** Each round extends the picks of the rounds before it. */
  lemma {:induction false} PicksPrefix(ds: seq<real>, k: nat, m: nat)
    requires |ds| > 0 && m <= k
    ensures Picks(ds, k)[..m] == Picks(ds, m)
    decreases k
  {
    if m < k {
      PicksPrefix(ds, k - 1, m);
      assert Picks(ds, k)[..k - 1] == Picks(ds, k - 1);
      assert Picks(ds, k)[..m] == Picks(ds, k)[..k - 1][..m];
    }
  }

  /** One more round appends its pick and marks that row used. */
  lemma PicksNext(ds: seq<real>, picks: seq<nat>, c: nat)
    requires |ds| > 0 && picks == Picks(ds, |picks|) && c == Pick(ds, Used(picks))
    ensures Picks(ds, |picks| + 1) == picks + [c]
    ensures Used(picks + [c]) == Used(picks) + {c}
  {
  }

  /** Only row 0 can be picked twice: rows 1 and beyond are counted at most once. */
  lemma {:induction false} PicksRepeatOnlyRowZero(ds: seq<real>, k: nat)
    requires |ds| > 0
    ensures forall r, s :: 0 <= r < s < k && Picks(ds, k)[r] == Picks(ds, k)[s] ==> Picks(ds, k)[r] == 0
    decreases k
  {
    if k > 0 {
      PicksRepeatOnlyRowZero(ds, k - 1);
      var prev := Picks(ds, k - 1);
      assert Picks(ds, k) == prev + [Pick(ds, Used(prev))];
      forall r, s | 0 <= r < s < k && Picks(ds, k)[r] == Picks(ds, k)[s]
        ensures Picks(ds, k)[r] == 0
      {
        if s == k - 1 {
          assert prev[r] in Used(prev);
        } else {
          assert Picks(ds, k)[r] == prev[r] && Picks(ds, k)[s] == prev[s];
        }
      }
    }
  }

  /** Each round picks the nearest of row 0 and the rows no earlier round picked. */
  lemma PickNearest(ds: seq<real>, k: nat, r: nat)
    requires |ds| > 0 && r < k
    ensures forall j :: 0 <= j < |ds| && Eligible(Used(Picks(ds, r)), j) ==> ds[Picks(ds, k)[r]] <= ds[j]
    ensures forall j :: 0 <= j < Picks(ds, k)[r] && Eligible(Used(Picks(ds, r)), j) ==> ds[j] > ds[Picks(ds, k)[r]]
  {
    PicksPrefix(ds, k, r + 1);
    assert Picks(ds, k)[r] == Picks(ds, k)[..r + 1][r];
    NearestUpToMinimal(ds, Used(Picks(ds, r)), |ds|);
  }

  /** The labels of the rows listed in `picks`, in that order. */
  function LabelsOf(rows: seq<Sample>, picks: seq<nat>): (ls: seq<string>)
    requires forall r :: 0 <= r < |picks| ==> picks[r] < |rows|
    ensures |ls| == |picks|
    ensures forall r :: 0 <= r < |picks| ==> ls[r] == rows[picks[r]].category
  {
    seq(|picks|, r requires 0 <= r < |picks| => rows[picks[r]].category)
  }

  /** The labels of the rows the k rounds pick, in round order. */
  function PickedLabels(rows: seq<Sample>, test: Sample, k: nat): (ls: seq<string>)
    requires SameDimension(rows, test) && (k > 0 ==> |rows| > 0)
    ensures |ls| == k
  {
    if k == 0 then [] else LabelsOf(rows, Picks(Distances(rows, test), k))
  }

  // ---------------------------------------------------------------------------------------
  // The counters
  // ---------------------------------------------------------------------------------------

  /** The counters map as (label, count) entries in first-insertion order. */
  type Counters = seq<(string, nat)>

  /** The labels of the entries, in order. */
  function Keys(cs: Counters): (ks: seq<string>)
    ensures |ks| == |cs|
    ensures forall i :: 0 <= i < |cs| ==> ks[i] == cs[i].0
  {
    seq(|cs|, i requires 0 <= i < |cs| => cs[i].0)
  }

  /** No label has two entries. */
  predicate DistinctLabels(cs: Counters)
  {
    forall i, j :: 0 <= i < j < |cs| ==> cs[i].0 != cs[j].0
  }

  /** The position of the first occurrence of x. */
  function IndexOf(s: seq<string>, x: string): (i: nat)
    requires x in s
    ensures i < |s| && s[i] == x
    ensures forall j :: 0 <= j < i ==> s[j] != x
  {
    if s[0] == x then 0 else 1 + IndexOf(s[1..], x)
  }

  /** The count a label has, 0 when it has no entry. */
  function CountOf(cs: Counters, l: string): nat
  {
    if l in Keys(cs) then cs[IndexOf(Keys(cs), l)].1 else 0
  }

  /** The sum of all counts. */
  function Total(cs: Counters): nat
    decreases |cs|
  {
    if |cs| == 0 then 0 else Total(cs[..|cs| - 1]) + cs[|cs| - 1].1
  }

  /** Replacing one entry changes the total by the difference of the two counts. */
  lemma {:induction false} TotalUpdate(cs: Counters, i: nat, e: (string, nat))
    requires i < |cs|
    ensures Total(cs[i := e]) + cs[i].1 == Total(cs) + e.1
    decreases |cs|
  {
    var n := |cs| - 1;
    if i < n {
      TotalUpdate(cs[..n], i, e);
      assert cs[i := e][..n] == cs[..n][i := e];
    } else {
      assert cs[i := e][..n] == cs[..n];
    }
  }

  /** `++counters[label]`: the label's entry counts one more, or a new entry (label, 1) is
      appended; the labels keep their order. */
  function Tally(cs: Counters, l: string): (r: Counters)
    ensures Keys(r) == if l in Keys(cs) then Keys(cs) else Keys(cs) + [l]
    ensures l !in Keys(cs) ==> r == cs + [(l, 1)]
  {
    if l in Keys(cs) then
      var i := IndexOf(Keys(cs), l);
      assert Keys(cs[i := (l, cs[i].1 + 1)]) == Keys(cs);
      cs[i := (l, cs[i].1 + 1)]
    else
      assert Keys(cs + [(l, 1)]) == Keys(cs) + [l];
      cs + [(l, 1)]
  }

  /** A tally adds one to the count of its own label and leaves every other count alone. */
  lemma TallyCount(cs: Counters, l: string, m: string)
    ensures CountOf(Tally(cs, l), m) == CountOf(cs, m) + (if m == l then 1 else 0)
  {
    var r := Tally(cs, l);
    if m in Keys(cs) {
      var k := IndexOf(Keys(cs), m);
      if l in Keys(cs) {
        assert IndexOf(Keys(r), m) == k;
        assert k == IndexOf(Keys(cs), l) <==> m == l;
      } else {
        assert Keys(r)[k] == m && forall j :: 0 <= j < k ==> Keys(r)[j] != m;
        IndexOfFirst(Keys(r), m, k);
      }
    } else if m == l {
      IndexOfFirst(Keys(r), m, |cs|);
    }
  }

  /** A position holding x with no earlier x is the position IndexOf finds. */
  lemma IndexOfFirst(s: seq<string>, x: string, k: nat)
    requires k < |s| && s[k] == x && forall j :: 0 <= j < k ==> s[j] != x
    ensures IndexOf(s, x) == k
  {
  }

  /** A tally adds one vote to the total. */
  lemma TallyTotal(cs: Counters, l: string)
    ensures Total(Tally(cs, l)) == Total(cs) + 1
  {
    if l in Keys(cs) {
      var i := IndexOf(Keys(cs), l);
      assert Tally(cs, l) == cs[i := (l, cs[i].1 + 1)];
      TotalUpdate(cs, i, (l, cs[i].1 + 1));
    } else {
      var r := cs + [(l, 1)];
      assert Tally(cs, l) == r;
      assert r[..|cs|] == cs;
      assert Total(r) == Total(r[..|cs|]) + 1;
    }
  }

  /** A tally gives no label a second entry. */
  lemma TallyDistinct(cs: Counters, l: string)
    requires DistinctLabels(cs)
    ensures DistinctLabels(Tally(cs, l))
  {
    var r := Tally(cs, l);
    forall i, j | 0 <= i < j < |r| ensures r[i].0 != r[j].0 {
      assert r[i].0 == Keys(r)[i] && r[j].0 == Keys(r)[j];
      if j < |cs| {
        assert Keys(r)[i] == cs[i].0 && Keys(r)[j] == cs[j].0;
      } else {
        assert Keys(r)[i] == cs[i].0 && Keys(r)[j] == l && l !in Keys(cs);
      }
    }
  }

  /** A tally casts one vote, for its label alone, and keeps the labels distinct. */
  lemma TallyCounts(cs: Counters, l: string)
    ensures Total(Tally(cs, l)) == Total(cs) + 1
    ensures forall m :: CountOf(Tally(cs, l), m) == CountOf(cs, m) + (if m == l then 1 else 0)
    ensures DistinctLabels(cs) ==> DistinctLabels(Tally(cs, l))
  {
    TallyTotal(cs, l);
    forall m ensures CountOf(Tally(cs, l), m) == CountOf(cs, m) + (if m == l then 1 else 0) {
      TallyCount(cs, l, m);
    }
    if DistinctLabels(cs) {
      TallyDistinct(cs, l);
    }
  }

  /** Occurrences of x in a sequence: those in its front plus one if the last entry is x. */
  lemma MultisetLast(labels: seq<string>, x: string)
    requires |labels| > 0
    ensures multiset(labels)[x] == multiset(labels[..|labels| - 1])[x] + (if x == labels[|labels| - 1] then 1 else 0)
  {
    assert labels == labels[..|labels| - 1] + [labels[|labels| - 1]];
  }

  /** The counters after tallying the labels in order. */
  function CountersOf(labels: seq<string>): (cs: Counters)
    decreases |labels|
  {
    if |labels| == 0 then [] else Tally(CountersOf(labels[..|labels| - 1]), labels[|labels| - 1])
  }

  /** Tallying labels in order never gives a label two entries. */
  lemma {:induction false} CountersOfDistinct(labels: seq<string>)
    ensures DistinctLabels(CountersOf(labels))
    decreases |labels|
  {
    if |labels| > 0 {
      CountersOfDistinct(labels[..|labels| - 1]);
      TallyCounts(CountersOf(labels[..|labels| - 1]), labels[|labels| - 1]);
    }
  }

  /** The counts total the number of labels: with k rounds exactly k votes are cast. */
  lemma {:induction false} CountersOfTotal(labels: seq<string>)
    ensures Total(CountersOf(labels)) == |labels|
    decreases |labels|
  {
    if |labels| > 0 {
      var front := labels[..|labels| - 1];
      CountersOfTotal(front);
      TallyCounts(CountersOf(front), labels[|labels| - 1]);
    }
  }

  /** Label l is counted as often as it occurs. */
  lemma {:induction false} CountersOfCount(labels: seq<string>, l: string)
    ensures CountOf(CountersOf(labels), l) == multiset(labels)[l]
    decreases |labels|
  {
    if |labels| > 0 {
      var front, last := labels[..|labels| - 1], labels[|labels| - 1];
      CountersOfCount(front, l);
      TallyCount(CountersOf(front), last, l);
      MultisetLast(labels, l);
    }
  }

  /** Every label is counted as often as it occurs. */
  lemma CountersOfCounts(labels: seq<string>)
    ensures forall l :: CountOf(CountersOf(labels), l) == multiset(labels)[l]
  {
    forall l ensures CountOf(CountersOf(labels), l) == multiset(labels)[l] {
      CountersOfCount(labels, l);
    }
  }

  /** The counters are empty exactly when there are no labels. */
  lemma CountersOfEmpty(labels: seq<string>)
    ensures |CountersOf(labels)| == 0 <==> |labels| == 0
  {
    if |labels| > 0 {
      var front := labels[..|labels| - 1];
      assert |Tally(CountersOf(front), labels[|labels| - 1])| > 0;
    }
  }

  // ---------------------------------------------------------------------------------------
  // The vote
  // ---------------------------------------------------------------------------------------

  /** The iterator loop over entries lo .. n-1 from the guess (g, f): an entry replaces the
      guess only with a strictly greater count. */
  function Scan(cs: Counters, lo: nat, n: nat, g: string, f: nat): (r: (string, nat))
    requires lo <= n <= |cs|
    decreases n
  {
    if n == lo then (g, f)
    else
      var prev := Scan(cs, lo, n - 1, g, f);
      if cs[n - 1].1 > prev.1 then cs[n - 1] else prev
  }

  /** The scan ends with the first entry of greatest count among its start and the entries
      it passes. */
  lemma {:induction false} ScanMaximal(cs: Counters, lo: nat, n: nat, g: string, f: nat)
    requires lo <= n <= |cs|
    ensures Scan(cs, lo, n, g, f).1 >= f
    ensures forall i :: lo <= i < n ==> Scan(cs, lo, n, g, f).1 >= cs[i].1
    ensures Scan(cs, lo, n, g, f) == (g, f)
         || exists m :: lo <= m < n && Scan(cs, lo, n, g, f) == cs[m] && cs[m].1 > f
              && forall i :: lo <= i < m ==> cs[i].1 < cs[m].1
    decreases n
  {
    if n > lo {
      ScanMaximal(cs, lo, n - 1, g, f);
    }
  }

  /** The vote as written: the guess is the first entry's label but its frequency is read
      from the second entry, so there must be at least two entries. */
  function VoteAsWritten(cs: Counters): string
    requires |cs| >= 2
  {
    Scan(cs, 2, |cs|, cs[0].0, cs[1].1).0
  }

  /** The vote as intended: the first entry of greatest count. */
  function Vote(cs: Counters): string
    requires |cs| >= 1
  {
    Scan(cs, 1, |cs|, cs[0].0, cs[0].1).0
  }

  /** The intended vote's label has an entry whose count no entry exceeds, and every entry
      before it has a smaller count. */
  lemma VoteMajority(cs: Counters)
    requires |cs| >= 1
    ensures exists m :: (0 <= m < |cs| && cs[m].0 == Vote(cs)
      && (forall i :: 0 <= i < |cs| ==> cs[i].1 <= cs[m].1)
      && (forall i :: 0 <= i < m ==> cs[i].1 < cs[m].1))
  {
    ScanMaximal(cs, 1, |cs|, cs[0].0, cs[0].1);
    if Scan(cs, 1, |cs|, cs[0].0, cs[0].1) == (cs[0].0, cs[0].1) {
      assert cs[0].0 == Vote(cs);
    }
  }

  /** `predict_by_knn` with the intended vote: "Prediction not possible" without votes, "No
      labels matched" for an empty winning label, else the winning label. */
  function Prediction(rows: seq<Sample>, test: Sample, k: nat): (r: Result<string>)
    requires SameDimension(rows, test) && (k > 0 ==> |rows| > 0)
  {
    var cs := CountersOf(PickedLabels(rows, test, k));
    if |cs| == 0 then Err("Prediction not possible")
    else if Vote(cs) == "" then Err("No labels matched")
    else Ok(Vote(cs))
  }

  /** `predict_by_knn` as written; a single counted label would be read past the end. */
  function PredictionAsWritten(rows: seq<Sample>, test: Sample, k: nat): (r: Result<string>)
    requires SameDimension(rows, test) && (k > 0 ==> |rows| > 0)
    requires |CountersOf(PickedLabels(rows, test, k))| != 1
  {
    var cs := CountersOf(PickedLabels(rows, test, k));
    if |cs| == 0 then Err("Prediction not possible")
    else if VoteAsWritten(cs) == "" then Err("No labels matched")
    else Ok(VoteAsWritten(cs))
  }

  /** The prediction fails with "Prediction not possible" exactly when no round is run. */
  lemma PredictionNotPossible(rows: seq<Sample>, test: Sample, k: nat)
    requires SameDimension(rows, test) && (k > 0 ==> |rows| > 0)
    ensures Prediction(rows, test, k) == Err("Prediction not possible") <==> k == 0
  {
    CountersOfEmpty(PickedLabels(rows, test, k));
  }

  /** A prediction is a non-empty label cast at least as often as any other label among the
      k picked rows. */
  lemma PredictionMajority(rows: seq<Sample>, test: Sample, k: nat)
    requires SameDimension(rows, test) && (k > 0 ==> |rows| > 0)
    ensures Prediction(rows, test, k).Ok? ==>
      Prediction(rows, test, k).value != ""
      && forall l :: multiset(PickedLabels(rows, test, k))[l] <= multiset(PickedLabels(rows, test, k))[Prediction(rows, test, k).value]
  {
    var labels := PickedLabels(rows, test, k);
    var cs := CountersOf(labels);
    if |cs| > 0 {
      CountersOfCounts(labels);
      CountersOfDistinct(labels);
      VoteMajority(cs);
      var m :| 0 <= m < |cs| && cs[m].0 == Vote(cs)
        && (forall i :: 0 <= i < |cs| ==> cs[i].1 <= cs[m].1);
      CountOfEntry(cs, m);
      forall l ensures CountOf(cs, l) <= cs[m].1 {
        CountOfBounded(cs, l, cs[m].1);
      }
    }
  }

  /** With distinct labels, an entry's count is its label's count. */
  lemma CountOfEntry(cs: Counters, m: nat)
    requires DistinctLabels(cs) && m < |cs|
    ensures CountOf(cs, cs[m].0) == cs[m].1
  {
    assert Keys(cs)[m] == cs[m].0;
    assert cs[m].0 in Keys(cs);
    var i := IndexOf(Keys(cs), cs[m].0);
    assert cs[i].0 == cs[m].0;
  }

  /** A bound on every entry bounds every label's count. */
  lemma CountOfBounded(cs: Counters, l: string, b: nat)
    requires forall i :: 0 <= i < |cs| ==> cs[i].1 <= b
    ensures CountOf(cs, l) <= b
  {
    if l in Keys(cs) {
      var i := IndexOf(Keys(cs), l);
      assert cs[i].1 <= b;
    }
  }

  /** Rows at distances 5, 1, 2, 3 from the test element: with k = 3 the rounds pick rows 1,
      2 and 3. */
  lemma PicksExample()
    ensures Picks([5.0, 1.0, 2.0, 3.0], 3) == [1, 2, 3]
  {
    var ds := [5.0, 1.0, 2.0, 3.0];
    assert Picks(ds, 0) == [] && Used([]) == {};
    assert NearestUpTo(ds, {}, 2) == 1;
    assert NearestUpTo(ds, {}, 3) == 1;
    assert NearestUpTo(ds, {}, 4) == 1;
    assert Picks(ds, 1) == [1] && Used([1]) == {1};
    assert NearestUpTo(ds, {1}, 2) == 0;
    assert NearestUpTo(ds, {1}, 3) == 2;
    assert NearestUpTo(ds, {1}, 4) == 2;
    assert Picks(ds, 2) == [1, 2] && Used([1, 2]) == {1, 2};
    assert NearestUpTo(ds, {1, 2}, 3) == 0;
    assert NearestUpTo(ds, {1, 2}, 4) == 3;
  }

  /** The labels "a", "b", "b" give the counters a:1, b:2. */
  lemma CountersExample()
    ensures CountersOf(["a", "b", "b"]) == [("a", 1), ("b", 2)]
  {
    assert ["a", "b", "b"][..2] == ["a", "b"];
    CountersOfAB();
    TallyKnownB();
  }

  /** The labels "a", "b" give the counters a:1, b:1. */
  lemma CountersOfAB()
    ensures CountersOf(["a", "b"]) == [("a", 1), ("b", 1)]
  {
    var none: Counters := [];
    assert ["a"][..0] == [] && Keys(none) == [];
    assert CountersOf(["a"]) == Tally(none, "a") == [("a", 1)];
    assert ["a", "b"][..1] == ["a"];
    assert Keys([("a", 1)]) == ["a"] && "b" != "a";
    assert CountersOf(["a", "b"]) == Tally([("a", 1)], "b");
  }

  /** A second vote for "b" raises its count to 2. */
  lemma TallyKnownB()
    ensures Tally([("a", 1), ("b", 1)], "b") == [("a", 1), ("b", 2)]
  {
    assert Keys([("a", 1), ("b", 1)]) == ["a", "b"];
    IndexOfFirst(["a", "b"], "b", 1);
  }

  /** With the counters a:1, b:2 the vote as written keeps "a", whose frequency it took from
      "b"'s entry, though "b" has more votes; the intended vote returns "b". */
  lemma VoteCounterexample()
    ensures VoteAsWritten([("a", 1), ("b", 2)]) == "a"
    ensures Vote([("a", 1), ("b", 2)]) == "b"
  {
  }

  // ---------------------------------------------------------------------------------------
  // The loops
  // ---------------------------------------------------------------------------------------

  /** The inner `for(sample_row_idx = 1 ..)` loop of one round. */
  method NearestUnused(rows: seq<Sample>, test: Sample, used: set<nat>) returns (closest: nat)
    requires |rows| > 0 && SameDimension(rows, test)
    ensures closest == Pick(Distances(rows, test), used)
  {
    ghost var ds := Distances(rows, test);
    var closestDist := TupleDistance(test.point, rows[0].point);
    closest := 0;
    for i := 1 to |rows|
      invariant closest == NearestUpTo(ds, used, i) && closestDist == ds[closest]
    {
      if i !in used {
        var tempDist := TupleDistance(test.point, rows[i].point);
        if closestDist > tempDist {
          closestDist := tempDist;
          closest := i;
        }
      }
    }
  }

  /** Listing one more row adds its label at the end. */
  lemma LabelsOfAppend(rows: seq<Sample>, picks: seq<nat>, c: nat)
    requires forall r :: 0 <= r < |picks| ==> picks[r] < |rows|
    requires c < |rows|
    ensures CountersOf(LabelsOf(rows, picks + [c])) == Tally(CountersOf(LabelsOf(rows, picks)), rows[c].category)
  {
    var ls, front := LabelsOf(rows, picks + [c]), LabelsOf(rows, picks);
    assert ls[..|picks|] == front by {
      forall r | 0 <= r < |picks| ensures ls[r] == front[r] {
        assert (picks + [c])[r] == picks[r];
      }
    }
    assert ls[|picks|] == rows[c].category by {
      assert (picks + [c])[|picks|] == c;
    }
  }

  /** The k rounds: each picks a row, marks it used and counts its label. */
  method CountVotes(rows: seq<Sample>, test: Sample, k: nat) returns (counters: Counters)
    requires SameDimension(rows, test) && (k > 0 ==> |rows| > 0)
    ensures counters == CountersOf(PickedLabels(rows, test, k))
  {
    var usedRows: set<nat> := {};
    counters := [];
    ghost var picks: seq<nat> := [];
    assert LabelsOf(rows, picks) == [];
    for round := 0 to k
      invariant |rows| > 0 ==> picks == Picks(Distances(rows, test), round)
      invariant |picks| == round && forall r :: 0 <= r < |picks| ==> picks[r] < |rows|
      invariant usedRows == Used(picks)
      invariant counters == CountersOf(LabelsOf(rows, picks))
    {
      var closest := NearestUnused(rows, test, usedRows);
      LabelsOfAppend(rows, picks, closest);
      PicksNext(Distances(rows, test), picks, closest);
      picks := picks + [closest];
      usedRows := usedRows + {closest};
      counters := Tally(counters, rows[closest].category);
    }
    assert PickedLabels(rows, test, k) == LabelsOf(rows, picks);
  }

  /** The iterator loop from entry lo with the guess (g, f). */
  method ScanCounters(cs: Counters, lo: nat, g: string, f: nat) returns (guess: string)
    requires lo <= |cs|
    ensures guess == Scan(cs, lo, |cs|, g, f).0
  {
    guess := g;
    var guessFreq := f;
    for i := lo to |cs|
      invariant (guess, guessFreq) == Scan(cs, lo, i, g, f)
    {
      if cs[i].1 > guessFreq {
        guess, guessFreq := cs[i].0, cs[i].1;
      }
    }
  }

  /** `predict_by_knn(sample_model, test_element, k)` as written. */
  method PredictByKnnAsWritten(rows: seq<Sample>, test: Sample, k: nat) returns (r: Result<string>)
    requires SameDimension(rows, test) && (k > 0 ==> |rows| > 0)
    requires |CountersOf(PickedLabels(rows, test, k))| != 1
    ensures r == PredictionAsWritten(rows, test, k)
  {
    var counters := CountVotes(rows, test, k);
    if |counters| == 0 {
      return Err("Prediction not possible");
    }
    var guess := ScanCounters(counters, 2, counters[0].0, counters[1].1);
    if guess == "" {
      return Err("No labels matched");
    }
    r := Ok(guess);
  }

  /** `predict_by_knn(sample_model, test_element, k)` with the guess's frequency read from
      the first entry. */
  method PredictByKnn(rows: seq<Sample>, test: Sample, k: nat) returns (r: Result<string>)
    requires SameDimension(rows, test) && (k > 0 ==> |rows| > 0)
    ensures r == Prediction(rows, test, k)
  {
    var counters := CountVotes(rows, test, k);
    if |counters| == 0 {
      return Err("Prediction not possible");
    }
    var guess := ScanCounters(counters, 1, counters[0].0, counters[0].1);
    if guess == "" {
      return Err("No labels matched");
    }
    r := Ok(guess);
  }
}
