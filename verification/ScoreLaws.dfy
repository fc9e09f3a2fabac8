/** What the scores mean: how the throughputs are ordered, when nothing is lost to
    weighting, and what a pass guarantees about determinism. */
module ScoreLaws {
  import opened Doubles
  import opened Statistics
  import opened Verdict
  import opened Scores

  predicate AllPositive(s: seq<int>) { forall v :: v in s ==> 0 < v }

  /** Every value is at least 90 and below 110 percent of the median. */
  predicate AllClose(s: seq<int>, median: real)
    requires 0.0 < median
  {
    forall v :: v in s ==> 90.0 <= Percent(v as real, median) < 110.0
  }

  lemma WeightedShare(c: real, x: real, v: real)
    requires 0.0 < v && 0.0 < x && 0.0 <= c <= 100.0
    ensures 0.0 < x / v && 0.0 <= c * x / v <= 100.0 * (x / v)
    ensures c * x / v == 100.0 * (x / v) <==> c == 100.0
  {
    var t := x / v;
    assert t * v == x;
    assert c * x / v == c * t by {
      assert (c * t) * v == c * x;
    }
    assert 100.0 * t - c * t == (100.0 - c) * t;
    assert c < 100.0 ==> (100.0 - c) * t > 0.0;
  }

  // ------------------------------------------------------------ sums without zeros

  function RealThroughput(v: int): real
    requires v != 0
  {
    SCALE / v as real
  }

  function RealWeighted(v: int, median: real): real
    requires v != 0
  {
    Contribution(v as real, median) * SCALE / v as real
  }

  function RealSum(s: seq<int>): real
    requires 0 !in s
  {
    if s == [] then 0.0 else RealSum(s[..|s| - 1]) + RealThroughput(s[|s| - 1])
  }

  function RealWeightedSum(s: seq<int>, median: real): real
    requires 0 !in s
  {
    if s == [] then 0.0 else RealWeightedSum(s[..|s| - 1], median) + RealWeighted(s[|s| - 1], median)
  }

  /** A sum of throughputs, plain or weighted, is a number exactly when no time is
      zero; otherwise it is infinite. */
  lemma {:induction false} SumsAreFiniteExactlyWhen(s: seq<int>, median: real)
    ensures if 0 in s then SumThroughput(s) == PosInf && SumWeighted(s, median) == PosInf
            else SumThroughput(s) == Finite(RealSum(s))
                 && SumWeighted(s, median) == Finite(RealWeightedSum(s, median))
  {
    hide Throughput, Weighted, Contribution;
    if s == [] {
    } else {
      var n := |s| - 1;
      assert s == s[..n] + [s[n]];
      SumsAreFiniteExactlyWhen(s[..n], median);
      ThroughputKind(s[n]);
      WeightedKind(s[n], median);
    }
  }

  /** The mean throughputs of a score are numbers exactly when no measured time is zero
      and the last result has entries. */
  lemma ScoreIsFiniteExactlyWhen(results: seq<Result>, reference: real, score: TestScore)
    requires Scorable(results) && IsCombinedScore(results, reference, score)
    ensures score.meanThroughput.Finite? <==> 0 !in AllValues(results) && results[|results| - 1].values != []
    ensures score.wgtThroughput.Finite? <==> score.meanThroughput.Finite?
    ensures score.consistency.Finite? <==> results[|results| - 1].values != []
    ensures score.score.Finite? <==> MedianOf(Medians(results)) != 0.0
  {
    hide SumThroughput, SumWeighted, SumContribution, MedianOf, Medians, AllValues, ThroughputExtremes;
    SumsAreFiniteExactlyWhen(AllValues(results), MedianOf(Medians(results)));
    DivisorIsZeroExactlyWhen(results);
  }

  lemma DivisorIsZeroExactlyWhen(results: seq<Result>)
    requires results != []
    ensures Divisor(results) as real == 0.0 <==> results[|results| - 1].values == []
  {
    var length := |results[|results| - 1].values|;
    if length > 0 {
      assert |results| * length >= length;
    }
  }

  // -------------------------------------------------------------- order of the sums

  /** One value's weighted throughput is at most its full throughput. */
  lemma OneValue(v: int, median: real)
    requires 0 < v && 0.0 < median
    ensures 0.0 < RealThroughput(v) && 0.0 <= RealWeighted(v, median) <= 100.0 * RealThroughput(v)
    ensures 0.0 <= Contribution(v as real, median) <= 100.0
    ensures RealWeighted(v, median) == 100.0 * RealThroughput(v) <==> 90.0 <= Percent(v as real, median) < 110.0
    ensures Contribution(v as real, median) == 100.0 <==> 90.0 <= Percent(v as real, median) < 110.0
  {
    hide Contribution;
    ContributionBounds(v as real, median);
    WeightedShare(Contribution(v as real, median), SCALE, v as real);
  }

  lemma SplitLast(s: seq<int>, median: real)
    requires s != [] && 0.0 < median
    ensures AllPositive(s) <==> AllPositive(s[..|s| - 1]) && 0 < s[|s| - 1]
    ensures AllClose(s, median)
            <==> AllClose(s[..|s| - 1], median) && 90.0 <= Percent(s[|s| - 1] as real, median) < 110.0
  {
    hide Percent;
    var n := |s| - 1;
    assert s == s[..n] + [s[n]];
    assert s[n] in s && forall v :: v in s[..n] ==> v in s;
  }

  lemma NothingIsClose(median: real)
    requires 0.0 < median
    ensures AllClose([], median)
  {
  }

  lemma {:induction false} SumsAreOrdered(s: seq<int>, median: real)
    requires AllPositive(s) && 0.0 < median
    ensures 0 !in s && 0.0 <= RealWeightedSum(s, median) <= 100.0 * RealSum(s)
    ensures 0.0 <= SumContribution(s, median) <= 100.0 * |s| as real
    ensures RealWeightedSum(s, median) == 100.0 * RealSum(s) <==> AllClose(s, median)
    ensures SumContribution(s, median) == 100.0 * |s| as real <==> AllClose(s, median)
  {
    hide Contribution, RealThroughput, RealWeighted, Percent, AllPositive, AllClose;
    if s == [] {
      NothingIsClose(median);
    } else {
      var n := |s| - 1;
      SplitLast(s, median);
      assert s == s[..n] + [s[n]];
      SumsAreOrdered(s[..n], median);
      OneValue(s[n], median);
    }
  }

  lemma {:induction false} ThroughputWithin(s: seq<int>, lo: real, hi: real)
    requires 0 !in s && forall v :: v in s ==> lo <= RealThroughput(v) <= hi
    ensures |s| as real * lo <= RealSum(s) <= |s| as real * hi
  {
    hide RealThroughput;
    if s == [] {
    } else {
      var n := |s| - 1;
      ThroughputWithin(s[..n], lo, hi);
      assert s[n] in s;
      assert |s| as real * lo == n as real * lo + lo && |s| as real * hi == n as real * hi + hi;
    }
  }

  /** Without a zero the extremes are numbers that bound every throughput. */
  lemma ExtremesAreNumbers(s: seq<int>, lo: Double, hi: Double)
    requires 0 !in s && ThroughputExtremes(s, lo, hi)
    ensures lo.Finite? && hi.Finite?
    ensures forall v :: v in s ==> lo.value <= RealThroughput(v) <= hi.value
  {
    hide Throughput;
    var a :| a in s && Throughput(a) == lo;
    var b :| b in s && Throughput(b) == hi;
    ThroughputKind(a);
    ThroughputKind(b);
    forall v | v in s ensures lo.value <= RealThroughput(v) <= hi.value {
      ThroughputKind(v);
      assert !Less(Throughput(v), lo) && !Less(hi, Throughput(v));
    }
  }

  lemma Divided(a: real, n: real, lo: real, hi: real)
    requires 0.0 < n && n * lo <= a <= n * hi
    ensures lo <= a / n <= hi
    ensures a == n * hi <==> a / n == hi
  {
    var q := a / n;
    assert q * n == a;
    assert q < lo ==> (lo - q) * n > 0.0;
    assert q > hi ==> (q - hi) * n > 0.0;
    assert q < hi ==> (hi - q) * n > 0.0;
  }

  lemma DividedTwice(a: real, n: real)
    requires 0.0 < n
    ensures a / (n * 100.0) == a / 100.0 / n
  {
    var q := a / (n * 100.0);
    assert q * (n * 100.0) == a;
    assert (q * n) * 100.0 == a;
    assert q * n == a / 100.0;
  }

  lemma SameQuotient(a: real, b: real, n: real)
    requires 0.0 < n
    ensures a / n == b / n <==> a == b
    ensures a <= b ==> a / n <= b / n
  {
    assert (a / n) * n == a && (b / n) * n == b;
    assert a / n > b / n ==> (a / n - b / n) * n > 0.0;
    assert (a / n - b / n) * n == a - b;
  }

  lemma {:induction false} EqualLengths(results: seq<Result>, length: nat)
    requires forall r :: r in results ==> |r.values| == length
    ensures |AllValues(results)| == |results| * length
  {
    if results == [] {
    } else {
      var n := |results| - 1;
      assert results[n] in results;
      EqualLengths(results[..n], length);
      assert |results| * length == n * length + length;
    }
  }

  lemma {:induction false} EveryValue(results: seq<Result>, v: int)
    requires v in AllValues(results)
    ensures exists r :: r in results && v in r.values
  {
    var n := |results| - 1;
    if v in results[n].values {
      assert results[n] in results;
    } else {
      EveryValue(results[..n], v);
      var r :| r in results[..n] && v in r.values;
      assert r in results;
    }
  }

  /** Positive results of one length with positive medians. */
  predicate Comparable(results: seq<Result>) {
    && results != [] && results[0].values != []
    && forall r :: r in results ==> AllPositive(r.values) && |r.values| == |results[0].values| && 0.0 < r.median
  }

  lemma ComparableIsScorable(results: seq<Result>)
    requires Comparable(results)
    ensures Scorable(results) && 0.0 < MedianOf(Medians(results)) && AllPositive(AllValues(results))
    ensures |AllValues(results)| == Divisor(results) > 0
  {
    MedianIsPositive(Medians(results)) by {
      forall m | m in Medians(results) ensures 0.0 < m {
        var i :| 0 <= i < |results| && Medians(results)[i] == m;
        assert results[i] in results;
      }
    }
    forall v | v in AllValues(results) ensures 0 < v { EveryValue(results, v); }
    assert results[|results| - 1] in results;
    EqualLengths(results, |results[0].values|);
    DivisorIsZeroExactlyWhen(results);
  }

  /** The sums add up over parts, down to single times: a throughput is a million over
      the time, and weighting multiplies it by the contribution. */
  lemma {:induction false} SumsAreAdditive(a: seq<int>, b: seq<int>, median: real)
    requires 0 !in a && 0 !in b
    ensures RealSum(a + b) == RealSum(a) + RealSum(b)
    ensures RealWeightedSum(a + b, median) == RealWeightedSum(a, median) + RealWeightedSum(b, median)
    ensures SumContribution(a + b, median) == SumContribution(a, median) + SumContribution(b, median)
  {
    hide RealThroughput, RealWeighted, Contribution;
    if b == [] {
      assert a + b == a;
    } else {
      var n := |b| - 1;
      SumsAreAdditive(a, b[..n], median);
      assert (a + b)[..|a + b| - 1] == a + b[..n];
    }
  }

  lemma SumsOfOne(v: int, median: real)
    requires v != 0
    ensures RealSum([v]) == 1000000.0 / v as real
    ensures RealWeightedSum([v], median) * v as real == 1000000.0 * Contribution(v as real, median)
    ensures SumContribution([v], median) == Contribution(v as real, median)
  {
    hide Contribution;
    assert [v][..0] == [];
    assert RealWeighted(v, median) * v as real == Contribution(v as real, median) * SCALE;
  }

  lemma InverseDrops(x: real, v: int, w: int)
    requires 0.0 < x && 0 < v < w
    ensures x / w as real < x / v as real
  {
    var a, b := x / v as real, x / w as real;
    assert a * v as real == x && b * w as real == x;
    assert (a - b) * w as real == a * (w - v) as real;
  }

  /** The extreme throughputs are a million over the longest and the shortest time. */
  lemma ExtremesOfTimes(s: seq<int>, lo: Double, hi: Double)
    requires AllPositive(s) && ThroughputExtremes(s, lo, hi)
    ensures exists longest :: IsMax(s, longest) && longest != 0 && lo == Finite(1000000.0 / longest as real)
    ensures exists shortest :: IsMin(s, shortest) && shortest != 0 && hi == Finite(1000000.0 / shortest as real)
  {
    ExtremesAreNumbers(s, lo, hi);
    var a :| a in s && Throughput(a) == lo;
    var b :| b in s && Throughput(b) == hi;
    ThroughputKind(a);
    ThroughputKind(b);
    forall v | v in s ensures b <= v <= a {
      ThroughputKind(v);
      if a < v {
        InverseDrops(SCALE, a, v);
      }
      if v < b {
        InverseDrops(SCALE, v, b);
      }
    }
    assert IsMax(s, a) && IsMin(s, b);
  }

  lemma PositivesAreNotZero(s: seq<int>)
    requires AllPositive(s)
    ensures 0 !in s
  {
  }

  /** The order of the scores: every score is a number; min <= mean <= max throughput,
      the weighted throughput lies between zero and the mean, and the two agree exactly
      when consistency is 100, which is exactly when every value is within [90, 110)
      percent of the median of the medians. */
  lemma ScoresAreOrdered(results: seq<Result>, reference: real, score: TestScore)
    requires Comparable(results) && Scorable(results) && IsCombinedScore(results, reference, score)
    ensures score.minThroughput.Finite? && score.meanThroughput.Finite? && score.maxThroughput.Finite?
    ensures score.wgtThroughput.Finite? && score.consistency.Finite? && score.score.Finite?
    ensures score.minThroughput.value <= score.meanThroughput.value <= score.maxThroughput.value
    ensures 0.0 <= score.wgtThroughput.value <= score.meanThroughput.value
    ensures 0.0 <= score.consistency.value <= 100.0
    ensures score.wgtThroughput == score.meanThroughput <==> score.consistency.value == 100.0
    ensures 0.0 < MedianOf(Medians(results))
    ensures score.consistency.value == 100.0 <==> AllClose(AllValues(results), MedianOf(Medians(results)))
  {
    hide MedianOf, SumThroughput, SumWeighted, SumContribution, RealSum, RealWeightedSum, AllClose, RealThroughput;
    hide AllValues, ThroughputExtremes, Comparable, Divisor, Throughput;
    ComparableIsScorable(results);
    var s, median := AllValues(results), MedianOf(Medians(results));
    var n := |s| as real;
    SumsAreOrdered(s, median);
    SumsAreFiniteExactlyWhen(s, median);
    ExtremesAreNumbers(s, score.minThroughput, score.maxThroughput);
    ThroughputWithin(s, score.minThroughput.value, score.maxThroughput.value);
    Divided(RealSum(s), n, score.minThroughput.value, score.maxThroughput.value);
    Divided(SumContribution(s, median), n, 0.0, 100.0);
    DividedTwice(RealWeightedSum(s, median), n);
    SameQuotient(RealWeightedSum(s, median) / 100.0, RealSum(s), n);
    SameQuotient(0.0, RealWeightedSum(s, median) / 100.0, n);
  }

  /** The figures of a score are those sums over the number of values, the contributions
      in percent, and the reference over the median of medians. */
  lemma ScoreFigures(results: seq<Result>, reference: real, score: TestScore)
    requires Comparable(results) && Scorable(results) && IsCombinedScore(results, reference, score)
    ensures score.meanThroughput.Finite? && score.wgtThroughput.Finite?
    ensures score.consistency.Finite? && score.score.Finite?
    ensures var s, median := AllValues(results), MedianOf(Medians(results));
            && 0 !in s && s != []
            && score.consistency.value * |s| as real == SumContribution(s, median)
            && score.meanThroughput.value * |s| as real == RealSum(s)
            && score.wgtThroughput.value * (|s| as real * 100.0) == RealWeightedSum(s, median)
            && score.score.value * median == reference
            && (exists longest :: IsMax(s, longest) && longest != 0
                                  && score.minThroughput == Finite(1000000.0 / longest as real))
            && (exists shortest :: IsMin(s, shortest) && shortest != 0
                                   && score.maxThroughput == Finite(1000000.0 / shortest as real))
  {
    hide MedianOf, SumThroughput, SumWeighted, SumContribution, RealSum, RealWeightedSum;
    hide AllValues, ThroughputExtremes, Comparable, Divisor, IsMax, IsMin;
    ComparableIsScorable(results);
    var s, median := AllValues(results), MedianOf(Medians(results));
    PositivesAreNotZero(s);
    ScoresAreOrdered(results, reference, score);
    SumsAreFiniteExactlyWhen(s, median);
    ExtremesOfTimes(s, score.minThroughput, score.maxThroughput);
    QuotientTimes(SumContribution(s, median), |s| as real);
    QuotientTimes(RealSum(s), |s| as real);
    QuotientTimes(RealWeightedSum(s, median), |s| as real * 100.0);
    QuotientTimes(reference, median);
  }

  // --------------------------------------------------------------- unequal lengths

  lemma {:induction false} PositiveSum(s: seq<int>)
    requires AllPositive(s)
    ensures 0 !in s && (s != [] ==> RealSum(s) > 0.0)
  {
    if s == [] {
    } else {
      var n := |s| - 1;
      assert s[n] in s && forall v :: v in s[..n] ==> v in s;
      PositiveSum(s[..n]);
    }
  }

  lemma EqualQuotients(a: real, m: real, n: real)
    requires 0.0 < a && 0.0 < m && 0.0 < n
    ensures a / m == a / n <==> m == n
  {
    var q := a / m;
    assert q * m == a;
    if q == a / n {
      assert q * n == a;
      assert q * (m - n) == 0.0;
    }
  }

  lemma LastLengthInAll(results: seq<Result>)
    requires results != []
    ensures |results[|results| - 1].values| <= |AllValues(results)|
  {
  }

  /** Results of any lengths: the mean throughput is the mean of the throughputs exactly
      when the divisor, the count of results times the length of the last one, is the
      number of values. */
  lemma MeanIsExactExactlyWhen(results: seq<Result>, reference: real, score: TestScore)
    requires Scorable(results) && IsCombinedScore(results, reference, score)
    requires AllPositive(AllValues(results)) && results[|results| - 1].values != []
    ensures score.meanThroughput.Finite? && 0 !in AllValues(results) && AllValues(results) != []
    ensures var s := AllValues(results);
            score.meanThroughput.value == RealSum(s) / |s| as real <==> Divisor(results) == |s|
  {
    var s := AllValues(results);
    LastLengthInAll(results);
    DivisorIsZeroExactlyWhen(results);
    hide AllValues, SumThroughput, SumWeighted, SumContribution, RealSum, ThroughputExtremes, Divisor, AllPositive;
    SumsAreFiniteExactlyWhen(s, MedianOf(Medians(results)));
    PositiveSum(s);
    EqualQuotients(RealSum(s), Divisor(results) as real, |s| as real);
  }

  /** With times [1, 1] and [1] the mean lies above the maximum. */
  lemma MeanCanExceedMaximum(reference: real, score: TestScore)
    requires IsCombinedScore([Result([1, 1], 1.0), Result([1], 1.0)], reference, score)
    ensures score.meanThroughput.Finite? && score.maxThroughput.Finite?
    ensures score.meanThroughput.value > score.maxThroughput.value
  {
    hide MedianOf, SumWeighted, SumContribution;
    ValuesOfTwoResults();
    ThreeOnes();
    ThroughputKind(1);
    assert Divisor([Result([1, 1], 1.0), Result([1], 1.0)]) == 2;
  }

  lemma ValuesOfTwoResults()
    ensures AllValues([Result([1, 1], 1.0), Result([1], 1.0)]) == [1, 1, 1]
  {
    var results := [Result([1, 1], 1.0), Result([1], 1.0)];
    assert results[..1] == [results[0]] && results[..1][..0] == [];
    assert AllValues(results[..1]) == [] + [1, 1];
  }

  lemma ThreeOnes()
    ensures SumThroughput([1, 1, 1]) == Finite(3.0 * SCALE)
  {
    var s := [1, 1, 1];
    assert s[..2][..1] == s[..1] == [1] && s[..1][..0] == [] && s[..2] == [1, 1];
    ThroughputKind(1);
    hide Throughput;
    assert SumThroughput(s[..1]) == Finite(SCALE);
    assert SumThroughput(s[..2]) == Finite(2.0 * SCALE);
  }

  // ---------------------------------------------------- passing implies determinism

  lemma ConformingIsClose(v: int, median: real, range: real)
    requires 0.0 < median && range < 10.0
    requires Conforms(v, NegativeLimit(median, range), PositiveLimit(median, range))
    ensures 90.0 <= Percent(v as real, median) < 110.0
  {
    InsideTen(median / 100.0, range, v as real);
    PercentAgainst(v as real, median, 90.0);
    PercentAgainst(v as real, median, 110.0);
  }

  lemma InsideTen(k: real, range: real, v: real)
    requires 0.0 < k && range < 10.0 && k * (100.0 - range) <= v <= k * (100.0 + range)
    ensures k * 90.0 < v < k * 110.0
  {
    assert 0.0 < k * (10.0 - range);
    assert k * (100.0 - range) == k * 90.0 + k * (10.0 - range);
    assert k * (100.0 + range) == k * 110.0 - k * (10.0 - range);
  }

  lemma {:induction false} ConformingContribute(s: seq<int>, median: real, range: real)
    requires AllPositive(s) && 0.0 < median && range < 10.0
    ensures Outliers(s, NegativeLimit(median, range), PositiveLimit(median, range)) <= |s|
    ensures SumContribution(s, median)
            >= 100.0 * (|s| - Outliers(s, NegativeLimit(median, range), PositiveLimit(median, range))) as real
  {
    hide Contribution, Percent, NegativeLimit, PositiveLimit, AllPositive, RealThroughput, RealWeighted;
    if s == [] {
    } else {
      var n := |s| - 1;
      SplitLast(s, median);
      ConformingContribute(s[..n], median, range);
      OneValue(s[n], median);
      if Conforms(s[n], NegativeLimit(median, range), PositiveLimit(median, range)) {
        ConformingIsClose(s[n], median, range);
      }
    }
  }

  /** Passing implies determinism: a positive sample that passes with a range below 10
      percent scores at least the acceptable share in consistency. */
  lemma PassingImpliesDeterminism(s: seq<int>, median: real, range: real, acceptable: real,
                                  reference: real, score: TestScore)
    requires s != [] && AllPositive(s) && 0.0 < median && range < 10.0
    requires Passes(s, median, range, acceptable)
    requires IsCombinedScore([Result(s, median)], reference, score)
    ensures score.consistency.Finite?
    ensures score.consistency.value >= (100 * (|s| as real * acceptable / 100.0).Floor) as real / |s| as real
  {
    hide SumThroughput, SumWeighted, SumContribution, ThroughputExtremes, Passes, CountWithin, Contribution;
    SingleResult(s, median);
    ConformingContribute(s, median, range);
    OutliersAreTheRest(s, median, range);
    PassesExactlyWhen(s, median, range, acceptable);
    SameQuotient((100 * (|s| as real * acceptable / 100.0).Floor) as real, SumContribution(s, median), |s| as real);
  }

  lemma SingleResult(s: seq<int>, median: real)
    ensures AllValues([Result(s, median)]) == s
    ensures MedianOf(Medians([Result(s, median)])) == median
    ensures Divisor([Result(s, median)]) == |s|
  {
    var results := [Result(s, median)];
    assert results[..0] == [];
    assert AllValues(results) == [] + s;
    assert Medians(results) == [median];
    assert [median][1..] == [];
  }
}
