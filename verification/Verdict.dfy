/** The pass verdict of check_pass_criteria and checkStdDev: enough values lie
    within a percentage range of the median. */
module Verdict {
  import opened Statistics

  function PositiveLimit(median: real, range: real): real { median / 100.0 * (100.0 + range) }

  function NegativeLimit(median: real, range: real): real { median / 100.0 * (100.0 - range) }

  predicate Conforms(v: int, lo: real, hi: real) { lo <= v as real <= hi }

  function Outliers(s: seq<int>, lo: real, hi: real): nat {
    if s == [] then 0
    else Outliers(s[..|s| - 1], lo, hi) + if Conforms(s[|s| - 1], lo, hi) then 0 else 1
  }

  function MinAcceptable(n: nat, acceptable: real): int {
    Trunc(n as real / 100.0 * acceptable)
  }

  predicate Passes(s: seq<int>, median: real, range: real, acceptable: real) {
    |s| - Outliers(s, NegativeLimit(median, range), PositiveLimit(median, range)) >= MinAcceptable(|s|, acceptable)
  }

  // -------------------------------------------------------- what the verdict means

  /** Reference: the distance from the median is at most `range` percent of it. */
  predicate Within(v: int, median: real, range: real) {
    var distance := 100.0 * v as real - 100.0 * median;
    (if distance < 0.0 then -distance else distance) <= range * median
  }

  function CountWithin(s: seq<int>, median: real, range: real): nat {
    if s == [] then 0 else CountWithin(s[1..], median, range) + if Within(s[0], median, range) then 1 else 0
  }

  lemma ConformsExactlyWhen(v: int, median: real, range: real)
    ensures Conforms(v, NegativeLimit(median, range), PositiveLimit(median, range)) <==> Within(v, median, range)
  {
    var k := median / 100.0;
    assert 100.0 * (k * (100.0 + range)) == 100.0 * median + range * median;
    assert 100.0 * (k * (100.0 - range)) == 100.0 * median - range * median;
  }

  lemma {:induction false} CountAppend(s: seq<int>, v: int, median: real, range: real)
    ensures CountWithin(s + [v], median, range)
            == CountWithin(s, median, range) + if Within(v, median, range) then 1 else 0
  {
    hide Within;
    if s == [] {
      assert (s + [v])[1..] == [];
    } else {
      CountAppend(s[1..], v, median, range);
      assert (s + [v])[1..] == s[1..] + [v];
    }
  }

  /** Every value within the range conforms, every other is an outlier. */
  lemma {:induction false} OutliersAreTheRest(s: seq<int>, median: real, range: real)
    ensures Outliers(s, NegativeLimit(median, range), PositiveLimit(median, range))
            == |s| - CountWithin(s, median, range)
  {
    hide Within, Conforms, NegativeLimit, PositiveLimit;
    if s == [] {
    } else {
      var n := |s| - 1;
      OutliersAreTheRest(s[..n], median, range);
      assert s == s[..n] + [s[n]];
      CountAppend(s[..n], s[n], median, range);
      ConformsExactlyWhen(s[n], median, range);
    }
  }

  /** The required count is the acceptable share of the sample, cut off toward zero. */
  lemma MinAcceptableBounds(n: nat, acceptable: real)
    ensures var share, least := n as real * acceptable, 100.0 * MinAcceptable(n, acceptable) as real;
            if 0.0 <= acceptable then share - 100.0 < least <= share else share <= least < share + 100.0
  {
    hide Trunc;
    var x := n as real / 100.0 * acceptable;
    assert 100.0 * x == n as real * acceptable;
    SignOfProduct(n as real, acceptable);
    TruncTowardZero(x);
  }

  lemma SignOfProduct(n: real, a: real)
    requires 0.0 <= n
    ensures 0.0 <= a ==> 0.0 <= n * a
    ensures a <= 0.0 ==> n * a <= 0.0
  {
  }

  lemma ReachesFloor(count: nat, share: real, least: int)
    requires if 0.0 <= share then share - 100.0 < 100.0 * least as real <= share
             else 100.0 * least as real < share + 100.0
    ensures count >= least <==> share < 100.0 * (count + 1) as real
    ensures count >= least <==> count >= (share / 100.0).Floor
  {
  }

  /** Exactly when a sample passes: so many values lie within the range of the median
      that with one more they would exceed the acceptable share; in other words, at
      least floor(n*a/100). */
  lemma PassesExactlyWhen(s: seq<int>, median: real, range: real, acceptable: real)
    ensures Passes(s, median, range, acceptable)
            <==> |s| as real * acceptable < 100.0 * (CountWithin(s, median, range) + 1) as real
    ensures Passes(s, median, range, acceptable)
            <==> CountWithin(s, median, range) >= (|s| as real * acceptable / 100.0).Floor
  {
    hide MinAcceptable, NegativeLimit, PositiveLimit, Outliers, CountWithin;
    OutliersAreTheRest(s, median, range);
    MinAcceptableBounds(|s|, acceptable);
    SignOfProduct(|s| as real, acceptable);
    ReachesFloor(CountWithin(s, median, range), |s| as real * acceptable, MinAcceptable(|s|, acceptable));
  }

  /** The verdict of a counting loop. */
  lemma VerdictOfCount(s: seq<int>, median: real, range: real, acceptable: real, outliers: int)
    requires outliers == Outliers(s, NegativeLimit(median, range), PositiveLimit(median, range))
    ensures outliers == |s| - CountWithin(s, median, range)
    ensures |s| - outliers >= MinAcceptable(|s|, acceptable) <==> Passes(s, median, range, acceptable)
    ensures Passes(s, median, range, acceptable)
            <==> CountWithin(s, median, range) >= (|s| as real * acceptable / 100.0).Floor
  {
    OutliersAreTheRest(s, median, range);
    PassesExactlyWhen(s, median, range, acceptable);
  }

  // ------------------------------------------------------------------- monotonicity

  lemma {:induction false} OutliersShrink(s: seq<int>, lo: real, hi: real, lo': real, hi': real)
    requires forall v :: v in s && Conforms(v, lo, hi) ==> Conforms(v, lo', hi')
    ensures Outliers(s, lo', hi') <= Outliers(s, lo, hi) <= |s|
  {
    if s == [] {
    } else {
      OutliersShrink(s[..|s| - 1], lo, hi, lo', hi');
      assert s[|s| - 1] in s;
    }
  }

  lemma TruncIsMonotone(x: real, y: real)
    requires x <= y
    ensures Trunc(x) <= Trunc(y)
  {
  }

  lemma ScaleIsMonotone(k: real, x: real, y: real)
    requires 0.0 <= k && x <= y
    ensures k * x <= k * y
  {
  }

  /** Widening a positive range, or any range around a median that is not negative,
      loses no conforming value. */
  lemma RangeIsMonotone(v: int, median: real, range: real, range': real)
    requires range <= range' && (0.0 <= median || 0.0 < range)
    requires Conforms(v, NegativeLimit(median, range), PositiveLimit(median, range))
    ensures Conforms(v, NegativeLimit(median, range'), PositiveLimit(median, range'))
  {
    var k := median / 100.0;
    if 0.0 <= median {
      ScaleIsMonotone(k, 100.0 + range, 100.0 + range');
      ScaleIsMonotone(k, 100.0 - range', 100.0 - range);
    } else {
      NothingConforms(v, median, range);
    }
  }

  /** Around a negative median a positive range is turned inside out. */
  lemma NothingConforms(v: int, median: real, range: real)
    requires median < 0.0 < range
    ensures !Conforms(v, NegativeLimit(median, range), PositiveLimit(median, range))
  {
    var k := median / 100.0;
    assert k * range < 0.0;
    assert k * (100.0 + range) - k * (100.0 - range) == 2.0 * (k * range);
  }

  /** The verdict is monotone: widening the range or lowering the acceptable
      percentage never turns a pass into a fail. */
  lemma VerdictIsMonotone(s: seq<int>, median: real, range: real, acceptable: real, range': real, acceptable': real)
    requires Passes(s, median, range, acceptable)
    requires range <= range' && acceptable' <= acceptable
    requires 0.0 <= median || 0.0 < range
    ensures Passes(s, median, range', acceptable')
  {
    forall v | v in s && Conforms(v, NegativeLimit(median, range), PositiveLimit(median, range))
      ensures Conforms(v, NegativeLimit(median, range'), PositiveLimit(median, range'))
    {
      RangeIsMonotone(v, median, range, range');
    }
    OutliersShrink(s, NegativeLimit(median, range), PositiveLimit(median, range),
                   NegativeLimit(median, range'), PositiveLimit(median, range'));
    ScaleIsMonotone(|s| as real / 100.0, acceptable', acceptable);
    TruncIsMonotone(|s| as real / 100.0 * acceptable', |s| as real / 100.0 * acceptable);
  }

  /** The condition is needed: around any negative median a range that is not positive
      accepts the median itself, and every positive range rejects it. */
  lemma NegativeMedianBreaksMonotonicity(median: int, range: real, range': real)
    requires median < 0 && range <= 0.0 < range'
    ensures Passes([median], median as real, range, 100.0)
    ensures !Passes([median], median as real, range', 100.0)
  {
    hide NegativeLimit, PositiveLimit;
    NothingConforms(median, median as real, range');
    MedianConforms(median, range);
    OneOutlier(median, NegativeLimit(median as real, range), PositiveLimit(median as real, range));
    OneOutlier(median, NegativeLimit(median as real, range'), PositiveLimit(median as real, range'));
    assert 1 as real / 100.0 * 100.0 == 1.0;
  }

  lemma OneOutlier(v: int, lo: real, hi: real)
    ensures Outliers([v], lo, hi) == if Conforms(v, lo, hi) then 0 else 1
  {
    assert [v][..0] == [];
  }

  lemma MedianConforms(median: int, range: real)
    requires median < 0 && range <= 0.0
    ensures Conforms(median, NegativeLimit(median as real, range), PositiveLimit(median as real, range))
  {
    var k := median as real / 100.0;
    assert 0.0 <= k * range;
    assert k * (100.0 + range) == median as real + k * range;
    assert k * (100.0 - range) == median as real - k * range;
  }

  /** Loosening the limits keeps a pass around this median. */
  ghost predicate KeepsPass(s: seq<int>, median: int, range: real, acceptable: real, range': real, acceptable': real) {
    Passes(s, median as real, range, acceptable) && range <= range' && acceptable' <= acceptable
    ==> Passes(s, median as real, range', acceptable')
  }

  /** Exactly when the verdict at a median and a range is monotone: over all samples
      and percentages, loosening the limits keeps every pass if and only if the median
      is not negative or the range is positive. */
  lemma MonotoneExactlyWhen(median: int, range: real)
    ensures (forall s, acceptable, range', acceptable' ::
               KeepsPass(s, median, range, acceptable, range', acceptable'))
            <==> 0 <= median || 0.0 < range
  {
    hide Passes;
    if 0 <= median || 0.0 < range {
      forall s, acceptable, range', acceptable'
        ensures KeepsPass(s, median, range, acceptable, range', acceptable')
      {
        if Passes(s, median as real, range, acceptable) && range <= range' && acceptable' <= acceptable {
          VerdictIsMonotone(s, median as real, range, acceptable, range', acceptable');
        }
      }
    } else {
      NegativeMedianBreaksMonotonicity(median, range, 1.0);
      assert !KeepsPass([median], median, range, 100.0, 1.0, 100.0);
    }
  }
}
