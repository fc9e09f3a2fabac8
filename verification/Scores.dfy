/** The scoring engine: the quantised contribution of one measured time and the
    combined scores of a group of results. */
module Scores {
  import opened Doubles
  import opened Statistics

  const SCALE := 1000000.0

  // ----------------------------------------------------------------- contribution

  /** get_contribution, branch by branch; casts to int truncate. */
  function Contribution(value: real, median: real): real {
    var diff := value - median;
    if diff == 0.0 then 100.0
    else if diff == -median then 10.0
    else if diff == median then 0.0
    else if (if diff < 0.0 then -diff else diff) > median then 0.0
    else
      var percent := value * 100.0 / median;
      if percent > 200.0 then 0.0
      else if percent == 100.0 then 100.0
      else if percent < 100.0 then (TruncDiv(Trunc(percent + 10.0), 10) * 10) as real
      else
        var difference := Trunc(Trunc(percent - 100.0) as real / 10.0);
        100.0 - Trunc(difference as real * 10.0) as real
  }

  /** Reference: the number of tens a value earns whose percentage of the median is
      `percent`: one more for every ten percent up to 100, one less for every full
      ten percent beyond, nothing below 0 or from 200 on. */
  function Level(percent: real): int {
    if percent < 0.0 then 0
    else if percent < 100.0 then (percent / 10.0).Floor + 1
    else if percent < 200.0 then 10 - ((percent - 100.0) / 10.0).Floor
    else 0
  }

  function Percent(value: real, median: real): real
    requires 0.0 < median
  {
    value * 100.0 / median
  }

  lemma PercentAgainst(value: real, median: real, bound: real)
    requires 0.0 < median
    ensures Percent(value, median) < bound <==> value * 100.0 < bound * median
    ensures Percent(value, median) == bound <==> value * 100.0 == bound * median
  {
    var p := Percent(value, median);
    assert p * median == value * 100.0;
    assert (p - bound) * median == p * median - bound * median;
    assert p < bound ==> (p - bound) * median < 0.0;
    assert p > bound ==> (p - bound) * median > 0.0;
  }

  lemma FloorByTens(x: real)
    requires 0.0 <= x
    ensures (x.Floor as real / 10.0).Floor == x.Floor / 10 == (x / 10.0).Floor
  {
    var n := x.Floor;
    assert n == 10 * (n / 10) + n % 10;
  }

  lemma LowerHalf(percent: real)
    requires 0.0 < percent < 100.0
    ensures TruncDiv(Trunc(percent + 10.0), 10) == Level(percent)
  {
    FloorByTens(percent);
    assert (percent + 10.0).Floor == percent.Floor + 10;
  }

  lemma UpperHalf(percent: real)
    requires 100.0 < percent < 200.0
    ensures 100.0 - Trunc(Trunc(Trunc(percent - 100.0) as real / 10.0) as real * 10.0) as real
            == (10 * Level(percent)) as real
  {
    FloorByTens(percent - 100.0);
    var d := ((percent - 100.0) / 10.0).Floor;
    assert (d as real * 10.0).Floor == 10 * d;
  }

  /** The branches compute ten times the level. */
  lemma ContributionIsLevel(value: real, median: real)
    requires 0.0 < median
    ensures Contribution(value, median) == (10 * Level(Percent(value, median))) as real
  {
    var percent := Percent(value, median);
    PercentAgainst(value, median, 0.0);
    PercentAgainst(value, median, 100.0);
    PercentAgainst(value, median, 200.0);
    if 0.0 < percent < 100.0 {
      LowerHalf(percent);
    } else if 100.0 < percent < 200.0 {
      UpperHalf(percent);
    }
  }

  lemma LevelBounds(percent: real)
    ensures 0 <= Level(percent) <= 10
    ensures Level(percent) == 10 <==> 90.0 <= percent < 110.0
  {
  }

  lemma LevelIsUnimodal(p: real, q: real)
    requires p <= q
    ensures q <= 100.0 ==> Level(p) <= Level(q)
    ensures 100.0 <= p ==> Level(q) <= Level(p)
  {
  }

  /** A contribution is a multiple of 10 in [0, 100], and it is full exactly when the
      value is at least 90 and below 110 percent of the median. */
  lemma ContributionBounds(value: real, median: real)
    requires 0.0 < median
    ensures exists tens: int :: 0 <= tens <= 10 && Contribution(value, median) == (10 * tens) as real
    ensures 0.0 <= Contribution(value, median) <= 100.0
    ensures Contribution(value, median) == 100.0 <==> 90.0 <= Percent(value, median) < 110.0
  {
    ContributionIsLevel(value, median);
    LevelBounds(Percent(value, median));
    var tens := Level(Percent(value, median));
    assert 0 <= tens <= 10 && Contribution(value, median) == (10 * tens) as real;
  }

  lemma LevelExactly(p: real)
    ensures var c := (10 * Level(p)) as real;
            if p < 0.0 || 200.0 <= p then c == 0.0
            else if p < 100.0 then c - 10.0 <= p < c
            else 200.0 - c <= p < 210.0 - c
  {
  }

  /** What a value earns, without rounding: below the median the contribution is the end
      of the ten percent that its percentage lies in, from the median on it falls short
      of 100 by the start of the ten percent it lies in beyond. */
  lemma ContributionExactly(value: real, median: real)
    requires 0.0 < median
    ensures var c, percent := Contribution(value, median), value * 100.0 / median;
            if percent < 0.0 || 200.0 <= percent then c == 0.0
            else if percent < 100.0 then c - 10.0 <= percent < c
            else 200.0 - c <= percent < 210.0 - c
  {
    ContributionIsLevel(value, median);
    hide Contribution;
    LevelExactly(Percent(value, median));
  }

  ghost predicate UnimodalAt(v: real, w: real, median: real) {
    && (v <= w <= median ==> Contribution(v, median) <= Contribution(w, median))
    && (median <= v <= w ==> Contribution(w, median) <= Contribution(v, median))
  }

  lemma PositiveMedianUnimodal(v: real, w: real, median: real)
    requires 0.0 < median && v <= w
    ensures UnimodalAt(v, w, median)
  {
    ContributionIsLevel(v, median);
    ContributionIsLevel(w, median);
    hide Contribution, Level;
    PercentIsOrdered(v, w, median);
    LevelIsUnimodal(Percent(v, median), Percent(w, median));
  }

  lemma PercentIsOrdered(v: real, w: real, median: real)
    requires 0.0 < median && v <= w
    ensures Percent(v, median) <= Percent(w, median)
    ensures w <= median ==> Percent(w, median) <= 100.0
    ensures median <= v ==> 100.0 <= Percent(v, median)
  {
    PercentAgainst(w, median, 100.0);
    PercentAgainst(v, median, 100.0);
    PercentAgainst(w, median, Percent(v, median));
    PercentAgainst(v, median, Percent(v, median));
    hide Percent;
  }

  lemma ZeroMedian(v: real)
    ensures Contribution(v, 0.0) == if v == 0.0 then 100.0 else 0.0
  {
  }

  /** Contributions do not decrease up to the median nor increase after it. */
  lemma ContributionIsUnimodal(v: real, w: real, median: real)
    requires 0.0 <= median
    ensures UnimodalAt(v, w, median)
  {
    hide Contribution;
    if v <= w && 0.0 < median {
      PositiveMedianUnimodal(v, w, median);
    } else {
      ZeroMedian(v);
      ZeroMedian(w);
    }
  }

  /** Around a negative median only the median itself, zero and twice the median leave
      the last branch. */
  lemma NegativeMedian(v: real, median: real)
    requires median < 0.0
    ensures Contribution(v, median) == if v == median then 100.0 else if v == 0.0 then 10.0 else 0.0
  {
  }

  /** The order holds of two measured times, which are whole numbers. */
  ghost predicate UnimodalAtTimes(v: int, w: int, median: real) {
    UnimodalAt(v as real, w as real, median)
  }

  /** It holds of every two measured times exactly when the median is at least -1: below
      that, -1 lies between the median and zero and earns nothing, while zero earns. */
  lemma UnimodalExactlyWhen(median: real)
    ensures (forall v, w :: UnimodalAtTimes(v, w, median)) <==> -1.0 <= median
  {
    hide Contribution;
    if 0.0 <= median {
      forall v, w ensures UnimodalAtTimes(v, w, median) {
        ContributionIsUnimodal(v as real, w as real, median);
      }
    } else if -1.0 <= median {
      forall v, w ensures UnimodalAtTimes(v, w, median) {
        NegativeMedian(v as real, median);
        NegativeMedian(w as real, median);
      }
    } else {
      NegativeMedian(-1.0, median);
      NegativeMedian(0.0, median);
      assert !UnimodalAtTimes(-1, 0, median);
    }
  }

  /** Over the doubles that the C++ parameter admits it holds exactly when the median
      is not negative. */
  lemma UnimodalOnDoublesExactlyWhen(median: real)
    ensures (forall v, w :: UnimodalAt(v, w, median)) <==> 0.0 <= median
  {
    hide Contribution;
    if 0.0 <= median {
      forall v, w ensures UnimodalAt(v, w, median) { ContributionIsUnimodal(v, w, median); }
    } else {
      NegativeMedian(median / 2.0, median);
      NegativeMedian(0.0, median);
      assert !UnimodalAt(median / 2.0, 0.0, median);
    }
  }

  // --------------------------------------------------------------- combined score

  datatype Result = Result(values: seq<int>, median: real)

  datatype TestScore = TestScore(consistency: Double, minThroughput: Double, maxThroughput: Double,
                                 meanThroughput: Double, wgtThroughput: Double, score: Double)

  function Throughput(v: int): Double {
    Quotient(1.0 * SCALE, v as real)
  }

  function Weighted(v: int, median: real): Double {
    Quotient(Contribution(v as real, median) * SCALE, v as real)
  }

  /** A throughput is a number, or positive infinity for a time of zero. */
  lemma ThroughputKind(v: int)
    ensures if v == 0 then Throughput(v) == PosInf else Throughput(v) == Finite(SCALE / v as real)
  {
  }

  /** A time of zero earns something whatever the median, so that it weighs infinitely. */
  lemma WeightedKind(v: int, median: real)
    ensures if v == 0 then Weighted(v, median) == PosInf
            else Weighted(v, median) == Finite(Contribution(v as real, median) * SCALE / v as real)
  {
    if v == 0 {
      assert Contribution(0.0, median) > 0.0;
    }
  }

  /** Every measured time of the first results, in order. */
  function AllValues(results: seq<Result>): seq<int> {
    if results == [] then [] else AllValues(results[..|results| - 1]) + results[|results| - 1].values
  }

  function SumThroughput(s: seq<int>): Double {
    if s == [] then Finite(0.0) else Plus(SumThroughput(s[..|s| - 1]), Throughput(s[|s| - 1]))
  }

  function SumContribution(s: seq<int>, median: real): real {
    if s == [] then 0.0 else SumContribution(s[..|s| - 1], median) + Contribution(s[|s| - 1] as real, median)
  }

  function SumWeighted(s: seq<int>, median: real): Double {
    if s == [] then Finite(0.0) else Plus(SumWeighted(s[..|s| - 1], median), Weighted(s[|s| - 1], median))
  }

  function Medians(results: seq<Result>): (r: seq<real>)
    ensures |r| == |results| && forall i :: 0 <= i < |r| ==> r[i] == results[i].median
  {
    seq(|results|, i requires 0 <= i < |results| => results[i].median)
  }

  /** The exact extremes of the throughputs of `s`. */
  ghost predicate ThroughputExtremes(s: seq<int>, lo: Double, hi: Double) {
    && (exists v :: v in s && Throughput(v) == lo)
    && (exists v :: v in s && Throughput(v) == hi)
    && (forall v :: v in s ==> !Less(Throughput(v), lo) && !Less(hi, Throughput(v)))
  }

  /** The first time of the first result, which the extremes start from, exists. */
  predicate Scorable(results: seq<Result>) {
    results != [] && results[0].values != []
  }

  /** What the loops have accumulated over the values seen so far; the extremes
      start from the first value of all. */
  ghost predicate Tallied(s: seq<int>, median: real, first: int, sums: (Double, Double, real),
                          lo: Double, hi: Double)
  {
    && sums == (SumThroughput(s), SumWeighted(s, median), SumContribution(s, median))
    && ThroughputExtremes([first] + s, lo, hi)
  }

  lemma NothingTallied(median: real, first: int)
    ensures Tallied([], median, first, (Finite(0.0), Finite(0.0), 0.0), Throughput(first), Throughput(first))
  {
    assert first in [first] + [];
    ThroughputKind(first);
    hide Throughput;
  }

  lemma TallyExtremes(s: seq<int>, v: int, lo: Double, hi: Double)
    requires ThroughputExtremes(s, lo, hi)
    ensures var t := Throughput(v);
            ThroughputExtremes(s + [v], if Less(t, lo) then t else lo,
                               if Less(t, lo) then hi else if Less(hi, t) then t else hi)
  {
    hide Throughput;
    var a :| a in s && Throughput(a) == lo;
    var b :| b in s && Throughput(b) == hi;
    var s' := s + [v];
    assert v in s' && a in s' && b in s';
    ThroughputKind(v);
    ThroughputKind(a);
    ThroughputKind(b);
    forall u | u in s' ensures u == v || u in s { }
    forall u | u in s' ensures Throughput(u).Finite? || Throughput(u).PosInf? { ThroughputKind(u); }
  }

  lemma SumsOneMore(s: seq<int>, median: real, v: int)
    ensures SumThroughput(s + [v]) == Plus(SumThroughput(s), Throughput(v))
    ensures SumWeighted(s + [v], median) == Plus(SumWeighted(s, median), Weighted(v, median))
    ensures SumContribution(s + [v], median) == SumContribution(s, median) + Contribution(v as real, median)
  {
    hide Throughput, Weighted, Contribution, Plus;
    assert (s + [v])[..|s|] == s;
  }

  lemma TallyOne(s: seq<int>, median: real, first: int, sums: (Double, Double, real), lo: Double, hi: Double, v: int)
    requires Tallied(s, median, first, sums, lo, hi)
    ensures var t := Throughput(v);
            Tallied(s + [v], median, first,
                    (Plus(sums.0, t), Plus(sums.1, Weighted(v, median)), sums.2 + Contribution(v as real, median)),
                    if Less(t, lo) then t else lo, if Less(t, lo) then hi else if Less(hi, t) then t else hi)
  {
    hide Throughput, Contribution, Weighted, SumThroughput, SumWeighted, SumContribution;
    hide ThroughputExtremes, Plus, Less;
    SumsOneMore(s, median, v);
    assert [first] + (s + [v]) == ([first] + s) + [v];
    TallyExtremes([first] + s, v, lo, hi);
  }

  /** The nested loops of generateCombinedScore: sums and extremes over every value. */
  method Accumulate(results: seq<Result>, median: real)
    returns (sum: Double, combined: Double, consistency: real, lo: Double, hi: Double, length: nat)
    requires Scorable(results)
    ensures length == |results[|results| - 1].values|
    ensures ThroughputExtremes(AllValues(results), lo, hi)
    ensures sum == SumThroughput(AllValues(results)) && combined == SumWeighted(AllValues(results), median)
    ensures consistency == SumContribution(AllValues(results), median)
  {
    hide Contribution, Throughput, Weighted, Tallied, ThroughputExtremes;
    hide SumContribution, SumThroughput, SumWeighted, Plus, Less;
    var first := results[0].values[0];
    lo, hi, length := Throughput(first), Throughput(first), 1;
    sum, combined, consistency := Finite(0.0), Finite(0.0), 0.0;
    ghost var done: seq<int> := [];
    NothingTallied(median, first);
    for i := 0 to |results|
      invariant done == AllValues(results[..i])
      invariant Tallied(done, median, first, (sum, combined, consistency), lo, hi)
      invariant i > 0 ==> first in done && length == |results[i - 1].values|
    {
      var values := results[i].values;
      length := |values|;
      ghost var before := done;
      for j := 0 to length
        invariant done == before + values[..j]
        invariant Tallied(done, median, first, (sum, combined, consistency), lo, hi)
      {
        TallyOne(done, median, first, (sum, combined, consistency), lo, hi, values[j]);
        var throughput := Throughput(values[j]);
        if Less(throughput, lo) {
          lo := throughput;
        } else if Less(hi, throughput) {
          hi := throughput;
        }
        sum := Plus(sum, throughput);
        combined := Plus(combined, Weighted(values[j], median));
        consistency := consistency + Contribution(values[j] as real, median);
        done := done + [values[j]];
        assert done == before + values[..j + 1];
      }
      assert done == before + values;
      assert results[..i + 1][..i] == results[..i];
    }
    assert results[..|results|] == results;
    TallyDone(done, median, first, (sum, combined, consistency), lo, hi);
  }

  lemma TallyDone(s: seq<int>, median: real, first: int, sums: (Double, Double, real), lo: Double, hi: Double)
    requires Tallied(s, median, first, sums, lo, hi) && first in s
    ensures sums == (SumThroughput(s), SumWeighted(s, median), SumContribution(s, median))
    ensures ThroughputExtremes(s, lo, hi)
  {
    hide Throughput, SumThroughput, SumWeighted, SumContribution, Less;
    var a :| a in [first] + s && Throughput(a) == lo;
    var b :| b in [first] + s && Throughput(b) == hi;
    assert a in s && b in s;
    assert forall u :: u in s ==> u in [first] + s;
  }

  /** The values that the score divides by.  It takes the length of the last result for
      every result. */
  function Divisor(results: seq<Result>): nat
    requires results != []
  {
    |results| * |results[|results| - 1].values|
  }

  /** What a combined score says of the values it was made from. */
  ghost predicate IsCombinedScore(results: seq<Result>, reference: real, score: TestScore)
    requires Scorable(results)
  {
    var s, median, divisor := AllValues(results), MedianOf(Medians(results)), Divisor(results) as real;
    && score.consistency == Quotient(SumContribution(s, median), divisor)
    && score.meanThroughput == Over(SumThroughput(s), divisor)
    && score.wgtThroughput == Over(SumWeighted(s, median), divisor * 100.0)
    && score.score == Quotient(reference, median)
    && ThroughputExtremes(s, score.minThroughput, score.maxThroughput)
  }

  method GenerateCombinedScore(results: seq<Result>, reference: real) returns (score: TestScore)
    requires Scorable(results)
    ensures IsCombinedScore(results, reference, score)
  {
    hide ThroughputExtremes, SumContribution, SumThroughput, SumWeighted, AllValues, MedianOf, Quotient, Over;
    var median := MedianOf(Medians(results));
    var sum, combined, consistency, lo, hi, length := Accumulate(results, median);
    var divisor := (|results| * length) as real;
    score := TestScore(Quotient(consistency, divisor), lo, hi, Over(sum, divisor), Over(combined, divisor * 100.0),
                       Quotient(reference, median));
  }
}
