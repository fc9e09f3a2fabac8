/** The exchange sort that the C scoring engine runs in place on the medians of its
    results before it takes the middle. */
module MedianOfMedians {
  import opened Statistics
  import opened Scores

  /** Everything before i is in its final place. */
  ghost predicate Settled(s: seq<real>, i: int) {
    forall p, q :: 0 <= p < i && p < q < |s| ==> s[p] <= s[q]
  }

  /** Nothing between i and j is below the element at i. */
  ghost predicate LeastUntil(s: seq<real>, i: int, j: int)
    requires 0 <= i < |s|
  {
    forall q :: i < q < j && q < |s| ==> s[i] <= s[q]
  }

  /** One comparison of the inner loop. */
  lemma Exchange(s: seq<real>, i: int, j: int)
    requires 0 <= i < j < |s| && Settled(s, i) && LeastUntil(s, i, j)
    ensures var t := if s[i] > s[j] then s[i := s[j]][j := s[i]] else s;
            Settled(t, i) && LeastUntil(t, i, j + 1) && multiset(t) == multiset(s)
  {
  }

  method ExchangeSort(a: array<real>)
    modifies a
    ensures a[..] == Sort(old(a[..]))
  {
    hide Settled, LeastUntil, Sort;
    ghost var s := a[..];
    var n := a.Length;
    var i := 0;
    assert Settled(a[..], 0) by { NothingSettled(s); }
    while i < n - 1
      invariant 0 <= i && (i < n || n == 0)
      invariant Settled(a[..], i) && multiset(a[..]) == multiset(s)
    {
      NothingCompared(a[..], i);
      for j := i + 1 to n
        invariant Settled(a[..], i) && LeastUntil(a[..], i, j) && multiset(a[..]) == multiset(s)
      {
        Exchange(a[..], i, j);
        ghost var before := a[..];
        if a[i] > a[j] {
          a[i], a[j] := a[j], a[i];
          assert a[..] == before[i := before[j]][j := before[i]];
        }
      }
      OneMoreSettled(a[..], i);
      i := i + 1;
    }
    AllSettled(a[..], i);
    SortSorts(s);
    SortedIsUnique(a[..], Sort(s));
  }

  lemma NothingSettled(s: seq<real>)
    ensures Settled(s, 0)
  {
  }

  lemma NothingCompared(s: seq<real>, i: int)
    requires 0 <= i < |s|
    ensures LeastUntil(s, i, i + 1)
  {
  }

  lemma OneMoreSettled(s: seq<real>, i: int)
    requires 0 <= i < |s| && Settled(s, i) && LeastUntil(s, i, |s|)
    ensures Settled(s, i + 1)
  {
  }

  lemma AllSettled(s: seq<real>, i: int)
    requires Settled(s, i) && |s| - 1 <= i
    ensures IsSorted(s)
  {
  }

  /** The median of medians that every score is measured against. */
  method FindMedianOfMedians(results: seq<Result>) returns (median: real)
    requires results != []
    ensures median == MedianOf(Medians(results))
  {
    hide Sort;
    var n := |results|;
    var medians := new real[n];
    for k := 0 to n
      invariant forall i :: 0 <= i < k ==> medians[i] == results[i].median
    {
      medians[k] := results[k].median;
    }
    assert medians[..] == Medians(results);
    ExchangeSort(medians);
    if n % 2 == 0 {
      median := (medians[n / 2] + medians[n / 2 - 1]) / 2.0;
    } else {
      median := medians[n / 2];
    }
  }
}
