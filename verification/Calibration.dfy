/** The timer calibration: the work quantum is doubled until the measured times
    pass, then the least passing quantum is searched for by bisection while the
    best result so far is kept in a second record. */
module Calibration {
  import opened Median
  import opened Powers
  import opened Statistics
  import opened Verdict
  import opened TestResults

  const NANOSLEEP_TIME := 2000

  /** The clock accuracy to exceed and the limits of the verdict. */
  datatype Limits = Limits(clock: real, range: real, acceptable: real)

  function MedianTime(s: seq<int>): int
    requires 0 < |s|
  {
    Trunc(MedianOf(Reals(s)))
  }

  predicate LongEnough(l: Limits, s: seq<int>)
    requires 0 < |s|
  {
    MedianTime(s) as real > l.clock
  }

  predicate Accepts(l: Limits, s: seq<int>)
    requires 0 < |s|
  {
    LongEnough(l, s) && Passes(s, MedianTime(s) as real, l.range, l.acceptable)
  }

  /** What the k-th measurement at a quantum returns: a sleep never ends early. */
  ghost predicate IsSleep(o: (nat, nat) -> seq<int>, iters: nat) {
    forall k, q :: |o(k, q)| == iters && forall v :: v in o(k, q) ==> q <= v
  }

  /** The k-th measurement, made at quantum q, passes. */
  predicate AcceptsAt(o: (nat, nat) -> seq<int>, l: Limits, k: nat, q: nat) {
    0 < |o(k, q)| && Accepts(l, o(k, q))
  }

  /** Passing does not depend on when one measures, and longer work passes too. */
  ghost predicate PassingIsMonotone(o: (nat, nat) -> seq<int>, l: Limits) {
    forall k: nat, q: nat, k': nat, q': nat :: q <= q' && AcceptsAt(o, l, k, q) ==> AcceptsAt(o, l, k', q')
  }

  ghost predicate FailsBelow(o: (nat, nat) -> seq<int>, l: Limits, bound: int) {
    forall k: nat, q: nat :: q < bound ==> !AcceptsAt(o, l, k, q)
  }

  lemma FailureFailsBelow(o: (nat, nat) -> seq<int>, l: Limits, k: nat, q: nat)
    requires !AcceptsAt(o, l, k, q)
    ensures PassingIsMonotone(o, l) ==> FailsBelow(o, l, q + 1)
  {
  }

  /** The sample is one of the first `bound` measurements, made at quantum q. */
  ghost predicate WasMeasured(o: (nat, nat) -> seq<int>, bound: nat, sample: seq<int>, q: int) {
    0 <= q && exists k: nat :: k < bound && sample == o(k, q)
  }

  /** One of the first `bound` measurements was made at quantum q and failed. */
  ghost predicate FailedAt(o: (nat, nat) -> seq<int>, l: Limits, bound: nat, q: int) {
    0 <= q && exists k: nat :: k < bound && !AcceptsAt(o, l, k, q)
  }

  /** Whatever the oracle: the quantum is the lower end of the range, or a measurement
      just below it failed, or it is the upper end and failed when measured again. */
  ghost predicate LocallyLeast(o: (nat, nat) -> seq<int>, l: Limits, bound: nat, prev: nat, num: nat, q: int) {
    q == prev || FailedAt(o, l, bound, q - 1) || (q == num && FailedAt(o, l, bound, num))
  }

  lemma ProbeFailed(o: (nat, nat) -> seq<int>, l: Limits, bound: nat, q: nat)
    ensures FailedAt(o, l, bound, q) ==> FailedAt(o, l, bound + 1, q)
    ensures !AcceptsAt(o, l, bound, q) ==> FailedAt(o, l, bound + 1, q)
  {
  }

  lemma MedianTimeAtMost(s: seq<int>, q: int)
    requires 0 < |s| && forall v :: v in s ==> v <= q
    ensures MedianTime(s) <= q
  {
    forall v | v in Reals(s) ensures v <= q as real {
      var i :| 0 <= i < |s| && Reals(s)[i] == v;
      assert s[i] in s;
    }
    MedianAtMost(Reals(s), q as real);
  }

  lemma MedianTimeAtLeast(s: seq<int>, q: int)
    requires 0 < |s| && forall v :: v in s ==> q <= v
    ensures q <= MedianTime(s)
  {
    forall v | v in Reals(s) ensures q as real <= v {
      var i :| 0 <= i < |s| && Reals(s)[i] == v;
      assert s[i] in s;
    }
    MedianAtLeast(Reals(s), q as real);
  }

  /** Times that all exceed the clock accuracy are long enough, and times none of which
      exceeds it are not. */
  lemma LongEnoughBounds(l: Limits, s: seq<int>)
    requires 0 < |s|
    ensures (forall v :: v in s ==> l.clock < v as real) ==> LongEnough(l, s)
    ensures (forall v :: v in s ==> v as real <= l.clock) ==> !LongEnough(l, s)
  {
    hide MedianTime;
    var c := l.clock.Floor;
    if forall v :: v in s ==> l.clock < v as real {
      MedianTimeAtLeast(s, c + 1);
    }
    if forall v :: v in s ==> v as real <= l.clock {
      MedianTimeAtMost(s, c);
    }
  }

  lemma SleepIsLongEnough(o: (nat, nat) -> seq<int>, iters: nat, k: nat, q: nat)
    requires IsSleep(o, iters) && 0 < iters
    ensures q <= MedianTime(o(k, q))
  {
    MedianTimeAtLeast(o(k, q), q);
  }

  /** The test both phases make of a filled record. */
  method Judge(result: TestResults, l: Limits) returns (longEnough: bool, ok: bool)
    requires result.Valid() && 0 < result.numEntries == result.maxEntries
    modifies result`nonConforming, result`minAcceptable, result`negativeLimit, result`positiveLimit
    ensures longEnough <==> LongEnough(l, result.Entries())
    ensures ok <==> Accepts(l, result.Entries())
  {
    longEnough := result.mediantime as real > l.clock;
    ok := false;
    if longEnough {
      ok := result.CheckPassCriteria(l.range, l.acceptable);
    }
  }

  // ------------------------------------------------------------- the doubling phase

  /** The quantum of the k-th attempt. */
  function Quantum(k: nat): nat { 2000 * Pow2(k) }

  predicate LongEnoughAt(o: (nat, nat) -> seq<int>, l: Limits, k: nat, q: nat) {
    0 < |o(k, q)| && LongEnough(l, o(k, q))
  }

  /** How many of the first `attempts` doubling measurements are long enough. */
  function LongAttempts(o: (nat, nat) -> seq<int>, l: Limits, attempts: nat): nat {
    if attempts == 0 then 0
    else LongAttempts(o, l, attempts - 1) + if LongEnoughAt(o, l, attempts - 1, Quantum(attempts - 1)) then 1 else 0
  }

  /** None of the first `attempts` is accepted, and fewer than `threshold` of them were
      long enough. */
  ghost predicate KeepsTrying(o: (nat, nat) -> seq<int>, l: Limits, threshold: nat, attempts: nat) {
    && (forall k: nat :: k < attempts ==> !AcceptsAt(o, l, k, Quantum(k)))
    && LongAttempts(o, l, attempts) < threshold
  }

  /** A doubling phase of this many attempts: it keeps trying up to the last one, which
      is accepted, or is the `threshold`-th to fail although it was long enough. */
  ghost predicate IsDoubling(o: (nat, nat) -> seq<int>, l: Limits, threshold: nat, attempts: nat, passed: bool) {
    && 0 < attempts && KeepsTrying(o, l, threshold, attempts - 1)
    && (passed <==> AcceptsAt(o, l, attempts - 1, Quantum(attempts - 1)))
    && (!passed ==> LongAttempts(o, l, attempts) == threshold)
  }

  lemma {:induction false} LongAttemptsGrow(o: (nat, nat) -> seq<int>, l: Limits, j: nat, k: nat)
    requires j <= k
    ensures LongAttempts(o, l, j) <= LongAttempts(o, l, k)
  {
    hide LongEnoughAt;
    if j < k {
      LongAttemptsGrow(o, l, j, k - 1);
    }
  }

  /** An oracle, a clock and a threshold leave one doubling phase. */
  lemma DoublingIsUnique(o: (nat, nat) -> seq<int>, l: Limits, threshold: nat,
                         attempts: nat, passed: bool, attempts': nat, passed': bool)
    requires IsDoubling(o, l, threshold, attempts, passed)
    requires IsDoubling(o, l, threshold, attempts', passed')
    ensures attempts == attempts' && passed == passed'
  {
    hide AcceptsAt, LongAttempts;
    if attempts < attempts' {
      LongAttemptsGrow(o, l, attempts, attempts' - 1);
    } else if attempts' < attempts {
      LongAttemptsGrow(o, l, attempts', attempts - 1);
    }
  }

  /** It passes exactly when some attempt is accepted that fewer than `threshold` long
      enough ones come before. */
  lemma DoublingPassesExactlyWhen(o: (nat, nat) -> seq<int>, l: Limits, threshold: nat, attempts: nat, passed: bool)
    requires IsDoubling(o, l, threshold, attempts, passed)
    ensures passed <==> exists k: nat :: AcceptsAt(o, l, k, Quantum(k)) && LongAttempts(o, l, k) < threshold
  {
    hide AcceptsAt, LongAttempts;
    if !passed {
      forall k: nat | AcceptsAt(o, l, k, Quantum(k)) ensures LongAttempts(o, l, k) >= threshold {
        LongAttemptsGrow(o, l, attempts, if attempts <= k then k else attempts);
      }
    }
  }

  lemma StartsTrying(o: (nat, nat) -> seq<int>, l: Limits, threshold: nat)
    requires 0 < threshold
    ensures KeepsTrying(o, l, threshold, 0) && LongAttempts(o, l, 0) == 0 && Quantum(0) == NANOSLEEP_TIME
  {
    assert Pow2(0) == 1;
  }

  /** One attempt more. */
  lemma OneMoreAttempt(o: (nat, nat) -> seq<int>, l: Limits, threshold: nat, k: nat)
    requires KeepsTrying(o, l, threshold, k) && 0 < |o(k, Quantum(k))|
    ensures Quantum(k + 1) == 2 * Quantum(k)
    ensures LongAttempts(o, l, k + 1)
            == LongAttempts(o, l, k) + if LongEnough(l, o(k, Quantum(k))) then 1 else 0
    ensures AcceptsAt(o, l, k, Quantum(k)) ==> IsDoubling(o, l, threshold, k + 1, true)
    ensures !AcceptsAt(o, l, k, Quantum(k)) ==>
              if LongAttempts(o, l, k + 1) < threshold then KeepsTrying(o, l, threshold, k + 1)
              else IsDoubling(o, l, threshold, k + 1, false)
  {
    hide AcceptsAt, LongEnough;
  }

  /** The doubling phase.  It ends: a quantum beyond the clock accuracy is long
      enough, and only `threshold` of those may fail. */
  method Double(o: (nat, nat) -> seq<int>, l: Limits, threshold: nat, result: TestResults)
    returns (passed: bool, num: nat, prev: nat, probes: nat)
    requires 0 < threshold && 0 < result.maxEntries && IsSleep(o, result.maxEntries)
    requires result.Valid() && result.numEntries == 0
    modifies result, result.values
    ensures result.Valid() && result.values == old(result.values) && result.maxEntries == old(result.maxEntries)
    ensures 0 < probes && result.Entries() == o(probes - 1, num) && 0 < result.numEntries == result.maxEntries
    ensures LongEnough(l, result.Entries())
    ensures passed <==> AcceptsAt(o, l, probes - 1, num)
    ensures IsDoubling(o, l, threshold, probes, passed) && num == Quantum(probes - 1)
    ensures prev == if probes == 1 then 0 else Quantum(probes - 2)
    ensures probes > 1 ==> num == 2 * prev && !AcceptsAt(o, l, probes - 2, prev)
  {
    hide Accepts, LongEnough, Passes, MedianOf, Reals, Trunc, MeanOf, MeanSqDiff, HasExtremes;
    hide Quantum, LongAttempts, IsDoubling, KeepsTrying;
    StartsTrying(o, l, threshold);
    num, prev, probes, passed := NANOSLEEP_TIME, 0, 0, false;
    var count := 0;
    while true
      invariant result.Valid() && result.numEntries == 0
      invariant result.values == old(result.values) && result.maxEntries == old(result.maxEntries)
      invariant 0 < num == Quantum(probes) && KeepsTrying(o, l, threshold, probes)
      invariant count == LongAttempts(o, l, probes) < threshold
      invariant prev == if probes == 0 then 0 else Quantum(probes - 1)
      invariant probes > 0 ==> num == 2 * prev && !AcceptsAt(o, l, probes - 1, prev)
      decreases threshold - count, if num as real <= l.clock then l.clock.Floor + 1 - num else 0
    {
      RecordAll(result, o(probes, num));
      var longEnough;
      longEnough, passed := Judge(result, l);
      ShortMeansBelowClock(o, result.maxEntries, l, probes, num);
      OneMoreAttempt(o, l, threshold, probes);
      probes := probes + 1;
      if longEnough {
        if passed {
          return;
        }
        count := count + 1;
        if count == threshold {
          return;
        }
      }
      result.FreeChain();
      prev := num;
      num := num * 2;
    }
  }

  lemma ShortMeansBelowClock(o: (nat, nat) -> seq<int>, iters: nat, l: Limits, k: nat, q: nat)
    requires IsSleep(o, iters) && 0 < iters
    ensures |o(k, q)| == iters
    ensures !LongEnough(l, o(k, q)) ==> q as real <= l.clock && !Accepts(l, o(k, q))
  {
    SleepIsLongEnough(o, iters, k, q);
  }

  /** What the search has established: everything below `start` is known to fail if
      passing is monotone, and at most a 2^-probes share of the range is left. */
  ghost predicate Narrowed(o: (nat, nat) -> seq<int>, l: Limits, prev: nat, total: nat, probes: nat,
                           start: int, left: nat)
  {
    && (PassingIsMonotone(o, l) && FailsBelow(o, l, prev) ==> FailsBelow(o, l, start))
    && left * Pow2(probes) <= total
    && (probes > 0 ==> Pow2(probes - 1) <= total)
  }

  lemma ProbeNarrows(o: (nat, nat) -> seq<int>, l: Limits, prev: nat, total: nat, probes: nat,
                     start: nat, stop: nat, k: nat)
    requires start <= stop && Narrowed(o, l, prev, total, probes, start, stop - start + 1)
    ensures var mid := (start + stop) / 2;
            if AcceptsAt(o, l, k, mid) then Narrowed(o, l, prev, total, probes + 1, start, mid - start)
            else Narrowed(o, l, prev, total, probes + 1, mid + 1, stop - mid)
  {
    hide AcceptsAt;
    var mid, left := (start + stop) / 2, stop - start + 1;
    Halve(left, mid - start, Pow2(probes), total);
    Halve(left, stop - mid, Pow2(probes), total);
    AtLeastOnce(left, Pow2(probes));
    if !AcceptsAt(o, l, k, mid) {
      FailureFailsBelow(o, l, k, mid);
    }
  }

  lemma StartsNarrowed(o: (nat, nat) -> seq<int>, l: Limits, prev: nat, total: nat)
    ensures Narrowed(o, l, prev, total, 0, prev, total)
  {
    assert Pow2(0) == 1;
  }

  lemma NarrowedEnough(o: (nat, nat) -> seq<int>, l: Limits, prev: nat, total: nat, probes: nat,
                       start: int, left: nat, bound: int)
    requires Narrowed(o, l, prev, total, probes, start, left) && bound <= start
    ensures probes > 0 ==> Pow2(probes - 1) <= total
    ensures PassingIsMonotone(o, l) && FailsBelow(o, l, prev) ==> FailsBelow(o, l, bound)
  {
  }

  /** One probe of the search: measure at `mid` and keep the record if it passes. */
  method Probe(l: Limits, result: TestResults, best: TestResults, sample: seq<int>, mid: nat)
    returns (ok: bool)
    requires result != best && result.values != best.values
    requires 0 < result.maxEntries == best.maxEntries == |sample|
    requires result.Valid() && best.Valid()
    modifies result, result.values, best, best.values
    ensures result.Valid() && result.maxEntries == old(result.maxEntries) && result.values == old(result.values)
    ensures best.Valid() && best.maxEntries == old(best.maxEntries) && best.values == old(best.values)
    ensures ok <==> Accepts(l, sample)
    ensures if ok then best.Entries() == sample && best.opernAmount == mid
            else best.Entries() == old(best.Entries()) && best.opernAmount == old(best.opernAmount)
  {
    hide Accepts, Passes, LongEnough, MedianOf, Reals, Trunc, MeanOf, MeanSqDiff, HasExtremes;
    result.FreeChain();
    RecordAll(result, sample);
    var longEnough;
    longEnough, ok := Judge(result, l);
    if ok {
      result.opernAmount := mid;
      CloneResults(best, result);
    }
  }

  /** The search phase, from a record that passed at `num`. */
  method Bisect(o: (nat, nat) -> seq<int>, l: Limits, result: TestResults, best: TestResults,
                prev: nat, num: nat, first: nat)
    returns (probes: nat)
    requires result != best && result.values != best.values
    requires 0 < result.maxEntries == best.maxEntries && IsSleep(o, result.maxEntries)
    requires result.Valid() && best.Valid() && best.numEntries == best.maxEntries
    requires prev <= num == best.opernAmount
    requires WasMeasured(o, first, best.Entries(), num) && Accepts(l, best.Entries())
    modifies result, result.values, best, best.values
    ensures best.Valid() && 0 < best.numEntries == best.maxEntries && best.values == old(best.values)
    ensures prev <= best.opernAmount <= num && Accepts(l, best.Entries())
    ensures WasMeasured(o, first + probes, best.Entries(), best.opernAmount)
    ensures probes > 0 && Pow2(probes - 1) <= num - prev + 1
    ensures PassingIsMonotone(o, l) && FailsBelow(o, l, prev) ==> FailsBelow(o, l, best.opernAmount)
    ensures LocallyLeast(o, l, first + probes, prev, num, best.opernAmount)
  {
    hide Accepts, PassingIsMonotone, FailsBelow, Narrowed, Pow2, HasExtremes, IsSummary, FailedAt;
    hide MeanOf, MeanSqDiff, MedianOf, Reals, Trunc;
    var start: int, stop: int := prev, num;
    probes := 0;
    StartsNarrowed(o, l, prev, num - prev + 1);
    while start <= stop
      invariant prev <= start <= stop + 1 <= num + 1
      invariant result.Valid() && result.maxEntries == old(result.maxEntries) && result.values == old(result.values)
      invariant best.Valid() && 0 < best.numEntries == best.maxEntries == result.maxEntries
      invariant best.values == old(best.values)
      invariant prev <= best.opernAmount <= num && best.opernAmount - 1 <= stop
      invariant Accepts(l, best.Entries()) && WasMeasured(o, first + probes, best.Entries(), best.opernAmount)
      invariant Narrowed(o, l, prev, num - prev + 1, probes, start, stop - start + 1)
      invariant probes == 0 ==> start == prev && stop == num
      invariant start == prev || FailedAt(o, l, first + probes, start - 1)
      invariant stop == best.opernAmount - 1 || best.opernAmount == num == stop
      decreases stop - start
    {
      var mid := (start + stop) / 2;
      var ok := Probe(l, result, best, o(first + probes, mid), mid);
      ProbeNarrows(o, l, prev, num - prev + 1, probes, start, stop, first + probes);
      ProbeFailed(o, l, first + probes, mid);
      if start > prev {
        ProbeFailed(o, l, first + probes, start - 1);
      }
      probes := probes + 1;
      if !ok {
        start := mid + 1;
      } else {
        stop := mid - 1;
      }
    }
    NarrowedEnough(o, l, prev, num - prev + 1, probes, start, stop - start + 1, best.opernAmount);
  }

  lemma AcceptedIsLongEnough(l: Limits, s: seq<int>)
    requires 0 < |s| && Accepts(l, s)
    ensures LongEnough(l, s)
  {
  }

  lemma AcceptedIsLongEnoughAndPasses(l: Limits, s: seq<int>)
    requires 0 < |s| && LongEnough(l, s)
    ensures MedianTime(s) as real > l.clock
    ensures Accepts(l, s) <==> Passes(s, MedianTime(s) as real, l.range, l.acceptable)
  {
  }

  /** The whole calibration.  The doubling phase is the one that the oracle determines.
      If it passes, the record returned holds a measurement made at its own quantum that
      passes; if passing is monotone that quantum is the least passing one of all; if
      not, its lower neighbour was measured and failed, short of the ends of the range;
      and the search takes logarithmically many probes.  Otherwise it holds the last,
      failing, measurement. */
  method TimerConfig(o: (nat, nat) -> seq<int>, l: Limits, iters: nat, threshold: nat)
    returns (result: TestResults, passed: bool, num: nat, prev: nat, doublings: nat, probes: nat)
    requires 0 < threshold && 0 < iters && IsSleep(o, iters)
    ensures result.Valid() && result.numEntries == result.maxEntries == iters
    ensures WasMeasured(o, doublings + probes, result.Entries(), result.opernAmount)
    ensures LongEnough(l, result.Entries()) && (passed <==> Accepts(l, result.Entries()))
    ensures result.mediantime == MedianTime(result.Entries()) && result.meantime == MeanOf(result.Entries())
    ensures passed && PassingIsMonotone(o, l) ==> FailsBelow(o, l, result.opernAmount)
    ensures passed ==> prev <= result.opernAmount <= num && probes > 0 && Pow2(probes - 1) <= num - prev + 1
    ensures passed ==> LocallyLeast(o, l, doublings + probes, prev, num, result.opernAmount)
    ensures prev == 0 || FailedAt(o, l, doublings, prev)
    ensures !passed ==> result.opernAmount == num
    ensures IsDoubling(o, l, threshold, doublings, passed)
    ensures num == Quantum(doublings - 1) && prev == if doublings == 1 then 0 else Quantum(doublings - 2)
    ensures result.mediantime as real > l.clock
    ensures passed <==> Passes(result.Entries(), result.mediantime as real, l.range, l.acceptable)
  {
    hide Accepts, Passes, LongEnough, PassingIsMonotone, FailsBelow, HasExtremes, LocallyLeast;
    hide MedianOf, Reals, Trunc, MeanOf, MeanSqDiff, IsDoubling, Quantum;
    result := new TestResults(iters);
    var best := new TestResults(iters);
    passed, num, prev, doublings := Double(o, l, threshold, result);
    result.opernAmount := num;
    probes := 0;
    assert WasMeasured(o, doublings, result.Entries(), num);
    assert prev == 0 || FailedAt(o, l, doublings, prev);
    if passed {
      CloneResults(best, result);
      probes := Bisect(o, l, result, best, prev, num, doublings);
      FailsBelowPrevious(o, l, prev, doublings);
      best.ComputeStdTime();
      result := best;
      AcceptedIsLongEnough(l, result.Entries());
    }
    AcceptedIsLongEnoughAndPasses(l, result.Entries());
  }

  lemma FailsBelowPrevious(o: (nat, nat) -> seq<int>, l: Limits, prev: nat, doublings: nat)
    requires if doublings <= 1 then prev == 0 else !AcceptsAt(o, l, doublings - 2, prev)
    ensures PassingIsMonotone(o, l) ==> FailsBelow(o, l, prev)
  {
    if doublings > 1 {
      FailureFailsBelow(o, l, doublings - 2, prev);
    }
  }
}
