/** The result record of one test run: add_entry, compute_std_time, get_median,
    check_pass_criteria, free_chain and clone_results on the fields and the array
    they update in place. */
module TestResults {
  import opened Statistics
  import opened Verdict

  ghost predicate HasExtremes(s: seq<int>, least: int, most: int) {
    IsMin(s, least) && IsMax(s, most)
  }

  ghost predicate IsSummary(s: seq<int>, mean: int, meanSqDiff: int, median: int)
    requires 0 < |s|
  {
    mean == MeanOf(s) && meanSqDiff == MeanSqDiff(s) && median == Trunc(MedianOf(Reals(s)))
  }

  class TestResults {
    var meantime: int
    var mediantime: int
    var meanSqDiff: int // stdtime is its square root
    var maxtime: int
    var mintime: int
    var numEntries: nat
    var opernAmount: int
    var values: array<int>
    var maxEntries: nat
    var nonConforming: int
    var minAcceptable: int
    var negativeLimit: real
    var positiveLimit: real

    /** The entries recorded since the last free_chain. */
    ghost function Entries(): seq<int>
      reads this, values
      requires numEntries <= values.Length
    {
      values[..numEntries]
    }

    /** When entries are present the recorded extremes are theirs; when the record
        is full the mean, deviation and median are theirs as well. */
    ghost predicate Valid()
      reads this, values
    {
      && numEntries <= maxEntries <= values.Length
      && (0 < numEntries ==> HasExtremes(Entries(), mintime, maxtime))
      && (0 < numEntries == maxEntries ==> IsSummary(Entries(), meantime, meanSqDiff, mediantime))
    }

    constructor (iters: nat)
      ensures Valid() && fresh(values) && numEntries == 0 && maxEntries == iters == values.Length
      ensures mediantime == 0
    {
      meantime, mediantime, meanSqDiff, maxtime, mintime := 0, 0, 0, 0, 0;
      numEntries, opernAmount, maxEntries := 0, 0, iters;
      nonConforming, minAcceptable, negativeLimit, positiveLimit := 0, 0, 0.0, 0.0;
      values := new int[iters](_ => 0);
    }

    /** Mean and squared deviation of the entries, by two passes over the array. */
    method ComputeStdTime()
      requires 0 < numEntries <= values.Length
      modifies this`meantime, this`meanSqDiff
      ensures meantime == MeanOf(Entries()) && meanSqDiff == MeanSqDiff(Entries())
    {
      var sum := 0;
      for i := 0 to numEntries
        invariant sum == Sum(values[..i])
      {
        assert values[..i + 1][..i] == values[..i];
        sum := sum + values[i];
      }
      meantime := TruncDiv(sum, numEntries);
      var total := 0;
      for i := 0 to numEntries
        invariant total == SumSqDiff(values[..i], meantime)
      {
        assert values[..i + 1][..i] == values[..i];
        var diff := values[i] - meantime;
        total := total + diff * diff;
      }
      meanSqDiff := TruncDiv(total, numEntries);
    }

    method AddEntry(t: int)
      requires Valid() && numEntries < maxEntries
      modifies this`mintime, this`maxtime, this`numEntries, this`meantime, this`meanSqDiff, this`mediantime, values
      ensures Valid()
      ensures numEntries == old(numEntries) + 1 && Entries() == old(Entries()) + [t]
      ensures numEntries < maxEntries ==> mediantime == old(mediantime) && meantime == old(meantime)
    {
      hide MeanOf, MeanSqDiff, MedianOf, Reals, Trunc, HasExtremes;
      ghost var before, least, most := Entries(), mintime, maxtime;
      if numEntries == 0 {
        mintime := t;
        maxtime := t;
      } else {
        if t > maxtime {
          maxtime := t;
        }
        if t < mintime {
          mintime := t;
        }
      }
      values[numEntries] := t;
      numEntries := numEntries + 1;
      assert Entries() == before + [t];
      ExtremesAfter(before, t, least, most);
      if numEntries == maxEntries {
        ComputeStdTime();
        var median := GetMedian(values, numEntries);
        mediantime := Trunc(median);
      }
    }

    method FreeChain()
      requires Valid()
      modifies this`numEntries
      ensures Valid() && numEntries == 0
    {
      numEntries := 0;
    }

    method CheckPassCriteria(range: real, acceptable: real) returns (ok: bool)
      requires numEntries <= values.Length
      modifies this`nonConforming, this`minAcceptable, this`negativeLimit, this`positiveLimit
      ensures ok <==> Passes(Entries(), mediantime as real, range, acceptable)
      ensures negativeLimit == NegativeLimit(mediantime as real, range)
      ensures positiveLimit == PositiveLimit(mediantime as real, range)
      ensures nonConforming == Outliers(Entries(), negativeLimit, positiveLimit)
      ensures minAcceptable == MinAcceptable(numEntries, acceptable)
      ensures nonConforming == numEntries - CountWithin(Entries(), mediantime as real, range)
      ensures ok <==> CountWithin(Entries(), mediantime as real, range)
                      >= (numEntries as real * acceptable / 100.0).Floor
    {
      hide PositiveLimit, NegativeLimit, MinAcceptable, Passes, CountWithin;
      var outliers := 0;
      var least := MinAcceptable(numEntries, acceptable);
      var hi := PositiveLimit(mediantime as real, range);
      var lo := NegativeLimit(mediantime as real, range);
      for i := 0 to numEntries
        invariant outliers == Outliers(values[..i], lo, hi)
      {
        assert values[..i + 1][..i] == values[..i];
        if values[i] as real > hi || (values[i] as real) < lo {
          outliers := outliers + 1;
        }
      }
      ok := numEntries - outliers >= least;
      VerdictOfCount(Entries(), mediantime as real, range, acceptable, outliers);
      nonConforming, positiveLimit, negativeLimit, minAcceptable := outliers, hi, lo, least;
    }
  }

  lemma ExtremesAfter(s: seq<int>, t: int, least: int, most: int)
    requires s != [] ==> HasExtremes(s, least, most)
    ensures HasExtremes(s + [t], if s == [] || t < least then t else least, if s == [] || t > most then t else most)
  {
    assert t in s + [t];
  }

  /** Copies, sorts and takes the middle. */
  method GetMedian(values: array<int>, n: nat) returns (median: real)
    requires 0 < n <= values.Length
    ensures median == MedianOf(Reals(values[..n]))
  {
    var temp := new int[n];
    for i := 0 to n
      invariant temp[..i] == values[..i]
    {
      temp[i] := values[i];
    }
    assert temp[..] == values[..n];
    var sorted := Sort(Reals(temp[..]));
    if n % 2 == 1 {
      median := sorted[n / 2];
    } else {
      median := (sorted[n / 2 - 1] + sorted[n / 2]) / 2.0;
    }
  }

  method CopyValues(dest: array<int>, source: array<int>, n: nat)
    requires dest != source && n <= dest.Length && n <= source.Length
    modifies dest
    ensures dest[..n] == source[..n]
  {
    for i := 0 to n
      invariant dest[..i] == source[..i]
    {
      dest[i] := source[i];
    }
  }

  /** Every field of the source but the array itself, whose entries are copied. */
  method CloneResults(dest: TestResults, source: TestResults)
    requires source.Valid() && dest != source && dest.values != source.values
    requires source.maxEntries <= dest.values.Length
    modifies dest, dest.values
    ensures dest.values == old(dest.values)
    ensures dest.Valid() && dest.Entries() == source.Entries()
    ensures dest.meantime == source.meantime && dest.mediantime == source.mediantime
    ensures dest.meanSqDiff == source.meanSqDiff
    ensures dest.mintime == source.mintime && dest.maxtime == source.maxtime
    ensures dest.maxEntries == source.maxEntries && dest.opernAmount == source.opernAmount
    ensures dest.nonConforming == source.nonConforming && dest.minAcceptable == source.minAcceptable
    ensures dest.negativeLimit == source.negativeLimit && dest.positiveLimit == source.positiveLimit
  {
    dest.meantime, dest.mediantime, dest.meanSqDiff := source.meantime, source.mediantime, source.meanSqDiff;
    dest.maxtime, dest.mintime := source.maxtime, source.mintime;
    dest.numEntries, dest.opernAmount, dest.maxEntries := source.numEntries, source.opernAmount, source.maxEntries;
    dest.nonConforming, dest.minAcceptable := source.nonConforming, source.minAcceptable;
    dest.negativeLimit, dest.positiveLimit := source.negativeLimit, source.positiveLimit;
    hide HasExtremes, IsSummary;
    CopyValues(dest.values, source.values, source.numEntries);
    assert dest.Entries() == source.Entries();
  }

  /** Recording into the source after it was cloned, as the calibration does when it
      keeps its best result, leaves the clone as it was. */
  method CloneThenRecord(dest: TestResults, source: TestResults, times: seq<int>)
    requires source.Valid() && dest != source && dest.values != source.values
    requires source.maxEntries <= dest.values.Length && |times| <= source.maxEntries
    modifies dest, dest.values, source, source.values
    ensures dest.values == old(dest.values) && source.values == old(source.values)
    ensures dest.Valid() && dest.Entries() == old(source.Entries())
    ensures dest.mintime == old(source.mintime) && dest.maxtime == old(source.maxtime)
    ensures dest.meantime == old(source.meantime) && dest.mediantime == old(source.mediantime)
    ensures source.Valid() && source.Entries() == times
  {
    hide HasExtremes, IsSummary;
    CloneResults(dest, source);
    source.FreeChain();
    RecordAll(source, times);
  }

  method RecordAll(result: TestResults, times: seq<int>)
    requires result.Valid() && result.numEntries == 0 && |times| <= result.maxEntries
    modifies result, result.values
    ensures result.Valid() && result.Entries() == times
    ensures result.values == old(result.values) && result.maxEntries == old(result.maxEntries)
    ensures result.opernAmount == old(result.opernAmount)
  {
    hide HasExtremes, IsSummary;
    for i := 0 to |times|
      invariant result.Valid() && result.numEntries == i && result.Entries() == times[..i]
      invariant result.values == old(result.values) && result.maxEntries == old(result.maxEntries)
      invariant result.opernAmount == old(result.opernAmount)
    {
      result.AddEntry(times[i]);
      assert times[..i + 1] == times[..i] + [times[i]];
    }
    assert times[..|times|] == times;
  }
}
