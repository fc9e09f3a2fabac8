/** The C++ result record: the same history of values as the C record, with a
    maximum that starts from zero, a deviation divided over floating point and a
    median that is not truncated; and the limits the configuration tests judge by. */
module CppResults {
  import opened Statistics
  import opened Verdict
  import CResults = TestResults

  /** What a maximum that starts from zero and is only ever raised has seen. */
  ghost predicate IsMaxFromZero(s: seq<int>, m: int) {
    && 0 <= m && (m == 0 || m in s)
    && forall v :: v in s ==> v <= m
  }

  /** It is the maximum of the values exactly when one of them is not negative. */
  lemma MaxIsExactExactlyWhen(s: seq<int>, m: int)
    requires s != [] && IsMaxFromZero(s, m)
    ensures IsMax(s, m) <==> exists v :: v in s && 0 <= v
  {
    if v :| v in s && 0 <= v {
      assert v <= m;
    }
  }

  /** The mean squared deviation, divided over floating point. */
  function MeanSqDiffReal(s: seq<int>): real
    requires 0 < |s|
  {
    SumSqDiff(s, MeanOf(s)) as real * 1.0 / |s| as real
  }

  function Square(x: real): real { x * x }

  lemma ExcessOverReals(n: real, sum: real, w: real, d: real, t: real, m: real, scaled: real)
    requires 0.0 < n && n * sum == w + d * d && scaled == n * w && t == d + n * m
    ensures sum / n - scaled / n / n / n == Square(t / n - m)
  {
    var x, y, z := sum / n, scaled / n / n / n, t / n;
    assert x * n == sum && z * n == t;
    assert ((y * n) * n) * n == scaled == w * n;
    assert (y * n) * n == w;
    assert (z - m) * n == d;
    assert (x - y) * n == sum - y * n;
    assert ((x - y) * n) * n == n * sum - w;
    ExcessIsSquare(n, n * sum - w, d, z - m, x - y);
  }

  lemma ExcessIsSquare(n: real, gap: real, d: real, e: real, x: real)
    requires 0.0 < n && gap == d * d && e * n == d && (x * n) * n == gap
    ensures x == e * e
  {
    var square := e * e;
    assert (square * n) * n == gap by { SquareOfProduct(e, n, d); }
    CancelTwice(x, square, n, gap);
  }

  lemma SquareOfProduct(e: real, n: real, d: real)
    requires e * n == d
    ensures ((e * e) * n) * n == d * d
  {
    assert (e * e) * n == e * d;
  }

  lemma CancelOnce(x: real, y: real, n: real)
    requires 0.0 < n && x * n == y * n
    ensures x == y
  {
    assert (x - y) * n == 0.0;
  }

  lemma CancelTwice(x: real, y: real, n: real, p: real)
    requires 0.0 < n && (x * n) * n == p && (y * n) * n == p
    ensures x == y
  {
    CancelOnce(x * n, y * n, n);
    CancelOnce(x, y, n);
  }

  lemma SquareOfFraction(f: real)
    requires -1.0 < f < 1.0
    ensures 0.0 <= f * f < 1.0
  {
    assert 0.0 < (1.0 - f) * (1.0 + f) == 1.0 - f * f;
  }

  lemma ShareBelowOne(f: real, n: real, d: real)
    requires 0.0 < n && f * n == d && -n < d < n
    ensures 0.0 <= f * f < 1.0
  {
    assert f >= 1.0 ==> f * n >= n;
    assert f <= -1.0 ==> f * n <= -n;
    SquareOfFraction(f);
  }

  lemma FractionBelowOne(t: int, n: int, m: int, f: real)
    requires 0 < n && Abs(t - n * m) < n && f == t as real / n as real - m as real
    ensures 0.0 <= Square(f) < 1.0
  {
    var d := t - n * m;
    assert f * n as real == d as real by {
      QuotientTimes(t as real, n as real);
      ProductToReal(n, m);
    }
    ShareBelowOne(f, n as real, d as real);
  }

  /** The computed squared deviation exceeds the population variance by exactly the
      square of the fraction that truncating the mean has dropped. */
  lemma ExcessIsSquaredFraction(s: seq<int>)
    requires 0 < |s|
    ensures var fraction := Sum(s) as real / |s| as real - MeanOf(s) as real;
            MeanSqDiffReal(s) - PopulationVariance(s) == Square(fraction) && 0.0 <= Square(fraction) < 1.0
  {
    hide Sum, SumSq, SumSqDiff, SqAround, TruncDiv, Square;
    var n, m, t, w := |s|, MeanOf(s), Sum(s), |s| * SumSq(s) - Sum(s) * Sum(s);
    KeyIdentity(s, m);
    ScaledVariance(s);
    TruncDivRemainder(t, n);
    FractionBelowOne(t, n, m, t as real / n as real - m as real);
    ExcessOfIntegers(n, SumSqDiff(s, m), w, t - n * m, t, m, SqAround(s, n, t));
  }

  lemma ExcessOfIntegers(n: int, sum: int, w: int, d: int, t: int, m: int, scaled: int)
    requires 0 < n && n * sum == w + d * d && scaled == n * w && t == d + n * m
    ensures sum as real / n as real - scaled as real / n as real / n as real / n as real
            == Square(t as real / n as real - m as real)
  {
    ProductToReal(n, sum);
    ProductToReal(d, d);
    ProductToReal(n, w);
    ProductToReal(n, m);
    ExcessOverReals(n as real, sum as real, w as real, d as real, t as real, m as real, scaled as real);
  }

  /** The limits written with factors are those written with percentages. */
  function FactorAbove(median: real, range: real): (limit: real)
    ensures limit == PositiveLimit(median, range)
  {
    median * (1.0 + range / 100.0)
  }

  function FactorBelow(median: real, range: real): (limit: real)
    ensures limit == NegativeLimit(median, range)
  {
    median * (1.0 - range / 100.0)
  }

  function MinAcceptableIters(n: nat, acceptable: real): (least: int)
    ensures least == MinAcceptable(n, acceptable)
  {
    Trunc(acceptable / 100.0 * n as real)
  }

  lemma PassesByCount(s: seq<int>, median: real, range: real, acceptable: real, outliers: nat)
    requires outliers == Outliers(s, FactorBelow(median, range), FactorAbove(median, range))
    ensures Passes(s, median, range, acceptable) <==> |s| - outliers >= MinAcceptableIters(|s|, acceptable)
  {
    hide FactorAbove, FactorBelow, MinAcceptable, PositiveLimit, NegativeLimit, MinAcceptableIters;
  }

  ghost predicate HasExtremes(s: seq<int>, min: int, max: int) {
    (s != [] ==> IsMin(s, min)) && IsMaxFromZero(s, max)
  }

  lemma ExtremesAfter(s: seq<int>, v: int, min: int, max: int)
    requires HasExtremes(s, min, max)
    ensures HasExtremes(s + [v], if s == [] || v < min then v else min, if v > max then v else max)
  {
    assert v in s + [v];
  }

  ghost predicate IsSummary(s: seq<int>, mean: int, meanSqDiff: real, median: real)
    requires 0 < |s|
  {
    mean == MeanOf(s) && meanSqDiff == MeanSqDiffReal(s) && median == MedianOf(Reals(s))
  }

  class TestResults {
    var values: array<int>
    var entries: nat
    var maxEntries: nat
    var min: int
    var minUpdated: bool
    var max: int
    var mean: int
    var median: real
    var meanSqDiff: real // _stdDev is its square root
    var conformingIterations: int
    var nonConformingIterations: int
    var positiveLimit: real
    var negativeLimit: real

    ghost function Entries(): seq<int>
      reads this, values
      requires entries <= values.Length
    {
      values[..entries]
    }

    ghost predicate Valid()
      reads this, values
    {
      && entries <= maxEntries <= values.Length
      && (minUpdated <==> 0 < entries)
      && HasExtremes(Entries(), min, max)
      && (0 < entries == maxEntries ==> IsSummary(Entries(), mean, meanSqDiff, median))
    }

    constructor (iterations: nat)
      ensures Valid() && fresh(values) && entries == 0 && maxEntries == iterations == values.Length
    {
      min, max, mean, meanSqDiff, minUpdated := 0, 0, 0, 0.0, false;
      entries, maxEntries := 0, iterations;
      values := new int[iterations](_ => 0);
    }

    method SetMin()
      requires entries < values.Length
      modifies this`min, this`minUpdated
      ensures minUpdated
      ensures min == if !old(minUpdated) || values[entries] < old(min) then values[entries] else old(min)
    {
      if !minUpdated {
        min := values[entries];
        minUpdated := true;
      } else if values[entries] < min {
        min := values[entries];
      }
    }

    method SetMax()
      requires entries < values.Length
      modifies this`max
      ensures max == if values[entries] > old(max) then values[entries] else old(max)
    {
      if values[entries] > max {
        max := values[entries];
      }
    }

    method SetStdDev()
      requires 0 < entries <= values.Length
      modifies this`mean, this`meanSqDiff
      ensures mean == MeanOf(Entries()) && meanSqDiff == MeanSqDiffReal(Entries())
    {
      var sum := 0;
      for i := 0 to entries
        invariant sum == Sum(values[..i])
      {
        assert values[..i + 1][..i] == values[..i];
        sum := sum + values[i];
      }
      mean := TruncDiv(sum, entries);
      var total := 0;
      for i := 0 to entries
        invariant total == SumSqDiff(values[..i], mean)
      {
        assert values[..i + 1][..i] == values[..i];
        var diff := values[i] - mean;
        total := total + diff * diff;
      }
      meanSqDiff := total as real * 1.0 / entries as real;
    }

    method SetMedian()
      requires 0 < entries <= values.Length
      modifies this`median
      ensures median == MedianOf(Reals(Entries()))
    {
      var temp := new int[entries];
      for i := 0 to entries
        invariant temp[..i] == values[..i]
      {
        temp[i] := values[i];
      }
      assert temp[..] == values[..entries];
      var sorted := Sort(Reals(temp[..]));
      if entries % 2 == 0 {
        median := (sorted[entries / 2] + sorted[entries / 2 - 1]) / 2.0;
      } else {
        median := sorted[entries / 2];
      }
    }

    method SetValuesAtNextIndex(v: int)
      requires Valid() && entries < maxEntries
      modifies this`min, this`minUpdated, this`max, this`entries, this`mean, this`meanSqDiff, this`median, values
      ensures Valid()
      ensures entries == old(entries) + 1 && Entries() == old(Entries()) + [v]
      ensures entries < maxEntries ==> median == old(median) && mean == old(mean)
    {
      hide MeanOf, MeanSqDiffReal, MedianOf, Reals, HasExtremes;
      ghost var before := Entries();
      ExtremesAfter(before, v, min, max);
      values[entries] := v;
      assert values[..entries] == before;
      SetMax();
      SetMin();
      entries := entries + 1;
      assert Entries() == before + [v];
      if entries == maxEntries {
        SetStdDev();
        SetMedian();
      }
    }

    method RemoveOldValues()
      requires Valid()
      modifies this`min, this`max, this`mean, this`median, this`meanSqDiff, this`minUpdated, this`entries
      ensures Valid() && entries == 0
      ensures min == 0 && max == 0 && mean == 0 && median == 0.0 && meanSqDiff == 0.0 && !minUpdated
    {
      min, max, mean, median, meanSqDiff, minUpdated, entries := 0, 0, 0, 0.0, 0.0, false, 0;
    }

    /** The assignment of the whole record, short of the array: statistics first. */
    method CopyStatistics(source: TestResults)
      modifies this
      ensures values == old(values) && entries == source.entries && maxEntries == source.maxEntries
      ensures min == source.min && minUpdated == source.minUpdated && max == source.max
      ensures mean == source.mean && median == source.median && meanSqDiff == source.meanSqDiff
    {
      entries, maxEntries := source.entries, source.maxEntries;
      min, minUpdated, max := source.min, source.minUpdated, source.max;
      mean, median, meanSqDiff := source.mean, source.median, source.meanSqDiff;
    }

    method CopyVerdict(source: TestResults)
      modifies this`conformingIterations, this`nonConformingIterations, this`positiveLimit, this`negativeLimit
      ensures conformingIterations == source.conformingIterations
      ensures nonConformingIterations == source.nonConformingIterations
      ensures positiveLimit == source.positiveLimit && negativeLimit == source.negativeLimit
    {
      conformingIterations, nonConformingIterations := source.conformingIterations, source.nonConformingIterations;
      positiveLimit, negativeLimit := source.positiveLimit, source.negativeLimit;
    }

    /** Copies the source record, keeps its own array and copies the values into it. */
    method CloneValues(source: TestResults)
      requires source.Valid() && this != source && values != source.values
      requires source.maxEntries <= values.Length
      modifies this, values
      ensures values == old(values) && Valid() && Entries() == source.Entries()
      ensures maxEntries == source.maxEntries && min == source.min && max == source.max
      ensures mean == source.mean && median == source.median && meanSqDiff == source.meanSqDiff
      ensures conformingIterations == source.conformingIterations
      ensures nonConformingIterations == source.nonConformingIterations
      ensures positiveLimit == source.positiveLimit && negativeLimit == source.negativeLimit
    {
      hide HasExtremes, IsSummary;
      CopyStatistics(source);
      CopyVerdict(source);
      CResults.CopyValues(values, source.values, entries);
      assert Entries() == source.Entries();
    }

    method CountOutliers(lo: real, hi: real) returns (outliers: nat)
      requires entries <= values.Length
      ensures outliers == Outliers(Entries(), lo, hi)
    {
      outliers := 0;
      for i := 0 to entries
        invariant outliers == Outliers(values[..i], lo, hi)
      {
        assert values[..i + 1][..i] == values[..i];
        if values[i] as real > hi || (values[i] as real) < lo {
          outliers := outliers + 1;
        }
      }
    }

    /** The verdict, written with factors instead of percentages of the median. */
    method CheckStdDev(range: real, acceptable: real) returns (ok: bool)
      requires 0 < entries <= values.Length && 0.0 < range < 100.0 && 0.0 < acceptable < 100.0
      modifies this`mean, this`meanSqDiff, this`conformingIterations, this`nonConformingIterations,
               this`positiveLimit, this`negativeLimit
      ensures ok <==> Passes(Entries(), median, range, acceptable)
      ensures negativeLimit == NegativeLimit(median, range) && positiveLimit == PositiveLimit(median, range)
      ensures nonConformingIterations == Outliers(Entries(), negativeLimit, positiveLimit)
      ensures conformingIterations + nonConformingIterations == entries
      ensures conformingIterations == CountWithin(Entries(), median, range)
      ensures ok <==> conformingIterations >= (entries as real * acceptable / 100.0).Floor
      ensures mean == MeanOf(Entries()) && meanSqDiff == MeanSqDiffReal(Entries())
    {
      hide FactorAbove, FactorBelow, PositiveLimit, NegativeLimit, MinAcceptableIters, MinAcceptable;
      hide Outliers, MeanOf, MeanSqDiffReal, Passes;
      SetStdDev();
      var hi := FactorAbove(median, range);
      var lo := FactorBelow(median, range);
      var outliers := CountOutliers(lo, hi);
      ok := entries - outliers >= MinAcceptableIters(entries, acceptable);
      PassesByCount(Entries(), median, range, acceptable, outliers);
      VerdictOfCount(Entries(), median, range, acceptable, outliers);
      conformingIterations, nonConformingIterations := entries - outliers, outliers;
      positiveLimit, negativeLimit := hi, lo;
    }
  }

  /** The maximum can miss every value: a record of one negative time has maximum 0. */
  method NegativeTimeHasMaximumZero(v: int) returns (result: TestResults)
    requires v < 0
    ensures fresh(result) && result.Valid() && result.Entries() == [v]
    ensures result.min == v && result.max == 0
    ensures !IsMax(result.Entries(), result.max)
  {
    result := new TestResults(1);
    result.SetValuesAtNextIndex(v);
    assert v in result.Entries();
  }

  // -------------------------------------------------------- the configuration tests

  const CONFIG_RANGE_PCT := 20.0
  const CONFIG_ACCEPTABLE_PCT := 99.9

  class RTThreadArgs {
    var threshold: int
    var iterations: int
    var tResult: TestResults
    var rangePct: real
    var acceptablePct: real
    var clockAccuracy: int
    var ret: bool

    /** Takes the user's limits and tightens them where they are loose. */
    constructor (iters: int, thresh: int, tr: TestResults, userRange: real, userAcceptable: real, clockAcc: int)
      ensures tResult == tr && iterations == iters && threshold == thresh && clockAccuracy == clockAcc && ret
      ensures rangePct <= userRange && rangePct <= 20.0 && rangePct in {userRange, 20.0}
      ensures userAcceptable <= acceptablePct && 99.9 <= acceptablePct
      ensures acceptablePct in {userAcceptable, 99.9}
    {
      threshold, iterations, tResult := thresh, iters, tr;
      rangePct, acceptablePct := userRange, userAcceptable;
      clockAccuracy, ret := clockAcc, true;
      new;
      if rangePct > CONFIG_RANGE_PCT {
        rangePct := CONFIG_RANGE_PCT;
      }
      if acceptablePct < CONFIG_ACCEPTABLE_PCT {
        acceptablePct := CONFIG_ACCEPTABLE_PCT;
      }
    }
  }

  /** The clamp is sound: whatever the sample, a result that passes under the limits
      of its thread arguments passes the user's own limits as well. */
  method ConfigVerdict(result: TestResults, iters: int, thresh: int, userRange: real, userAcceptable: real, clock: int)
    returns (ok: bool)
    requires result.Valid() && 0 < result.entries
    requires 0.0 < userRange < 100.0 && 0.0 < userAcceptable < 100.0
    modifies result`mean, result`meanSqDiff, result`conformingIterations, result`nonConformingIterations,
             result`positiveLimit, result`negativeLimit
    ensures ok ==> Passes(result.Entries(), result.median, userRange, userAcceptable)
    ensures !Passes(result.Entries(), result.median, CONFIG_RANGE_PCT, CONFIG_ACCEPTABLE_PCT) ==> !ok
    ensures ok ==> result.Entries() == old(result.Entries()) && result.median == old(result.median)
  {
    hide Passes;
    var args := new RTThreadArgs(iters, thresh, result, userRange, userAcceptable, clock);
    ok := args.tResult.CheckStdDev(args.rangePct, args.acceptablePct);
    if ok {
      VerdictIsMonotone(result.Entries(), result.median, args.rangePct, args.acceptablePct, userRange, userAcceptable);
      VerdictIsMonotone(result.Entries(), result.median, args.rangePct, args.acceptablePct,
                        CONFIG_RANGE_PCT, CONFIG_ACCEPTABLE_PCT);
    }
  }
}
