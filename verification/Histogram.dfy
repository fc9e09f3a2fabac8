/** The histogram of a report's execution times: the data are sorted in place and cut
    into intervals of a fiftieth of their range. */
module Histogram {
  import opened Statistics

  const BUCKETS: nat := 50

  /** One plotted entry; its height is the count plus one. */
  datatype Bucket = Bucket(start: real, end: real, height: nat)

  // ------------------------------------------------------------------------- edges

  function Edge(first: real, size: real, k: nat): real {
    first + k as real * size
  }

  lemma EdgeNext(first: real, size: real, k: nat)
    ensures Edge(first, size, 0) == first
    ensures Edge(first, size, k + 1) == Edge(first, size, k) + size
  {
    assert (k + 1) as real * size == k as real * size + size;
  }

  lemma EdgeOrder(first: real, size: real, j: nat, k: nat)
    requires 0.0 <= size && j <= k
    ensures Edge(first, size, j) <= Edge(first, size, k)
    ensures 0.0 < size && j < k ==> Edge(first, size, j) < Edge(first, size, k)
  {
    assert Edge(first, size, k) - Edge(first, size, j) == (k - j) as real * size;
  }

  lemma LastEdge(first: real, last: real)
    ensures Edge(first, (last - first) / 50.0, BUCKETS) == last
  {
  }

  // -------------------------------------------------------------- what is emitted

  /** The data counted by the entries. */
  function Counted(out: seq<Bucket>): int {
    if out == [] then 0 else Counted(out[..|out| - 1]) + out[|out| - 1].height - 1
  }

  /** The k-th entry spans the k-th interval, and none has height zero. */
  ghost predicate Shaped(out: seq<Bucket>, first: real, size: real) {
    forall k: nat :: k < |out| ==>
      out[k].start == Edge(first, size, k) && out[k].end == Edge(first, size, k + 1) && 1 <= out[k].height
  }

  ghost predicate Within(s: seq<real>, from: int, to: int, lo: real, hi: real) {
    forall j :: 0 <= j < |s| && from <= j < to ==> lo <= s[j] <= hi
  }

  /** The entries count the data in order, each in an interval that contains it. */
  ghost predicate Placed(s: seq<real>, out: seq<Bucket>) {
    out != [] ==>
      var n := |out| - 1;
      Placed(s, out[..n]) && Within(s, Counted(out[..n]), Counted(out), out[n].start, out[n].end)
  }

  /** What is emitted for sorted data. */
  ghost predicate IsHistogram(s: seq<real>, out: seq<Bucket>)
    requires s != []
  {
    var first, last := s[0], s[|s| - 1];
    && first <= last
    && Shaped(out, first, (last - first) / 50.0) && Placed(s, out) && Counted(out) == |s|
    && (if first < last then BUCKETS <= |out| <= BUCKETS + 1 else |out| == |s| + 1)
  }

  // -------------------------------------------------------------- how many entries

  /** The first i of the sorted data carry the loop to interval j or beyond: one of them
      lies above the lower edge of j, or on that edge when the interval before it was
      already reached. */
  ghost predicate Reaches(s: seq<real>, size: real, i: nat, j: nat)
    requires i <= |s|
    decreases j
  {
    || j == 0
    || exists p: nat :: p < i && ReachesAt(s, size, p, j)
  }

  ghost predicate ReachesAt(s: seq<real>, size: real, p: nat, j: nat)
    requires p < |s| && 0 < j
    decreases j, 0
  {
    || Edge(s[0], size, j) < s[p]
    || (s[p] == Edge(s[0], size, j) && Reaches(s, size, p, j - 1))
  }

  /** The loop has come to interval k. */
  ghost predicate AtInterval(s: seq<real>, size: real, i: nat, k: nat)
    requires i <= |s|
  {
    forall j: nat :: j <= k <==> Reaches(s, size, i, j)
  }

  lemma StartsAtFirst(s: seq<real>, size: real)
    ensures AtInterval(s, size, 0, 0)
  {
  }

  lemma ReachesOneMore(s: seq<real>, size: real, i: nat, j: nat)
    requires i < |s| && 0 < j
    ensures Reaches(s, size, i + 1, j) <==> Reaches(s, size, i, j) || ReachesAt(s, size, i, j)
  {
    hide ReachesAt;
  }

  /** A datum below the upper edge keeps the loop where it is. */
  lemma StaysAt(s: seq<real>, size: real, i: nat, k: nat)
    requires 0.0 <= size && i < |s| && AtInterval(s, size, i, k) && s[i] < Edge(s[0], size, k + 1)
    ensures AtInterval(s, size, i + 1, k)
  {
    var i' := i + 1;
    forall j: nat ensures j <= k <==> Reaches(s, size, i', j) {
      if j > 0 {
        ReachesOneMore(s, size, i, j);
        if k < j {
          EdgeOrder(s[0], size, k + 1, j);
        }
      }
      hide Edge;
    }
  }

  /** A datum at or beyond the upper edge takes it on to the first interval whose upper
      edge it does not exceed. */
  lemma MovesTo(s: seq<real>, size: real, i: nat, k: nat, k': nat)
    requires 0.0 < size && i < |s| && AtInterval(s, size, i, k) && k < k'
    requires Edge(s[0], size, k + 1) <= s[i] <= Edge(s[0], size, k' + 1)
    requires k' == k + 1 || Edge(s[0], size, k') < s[i]
    ensures AtInterval(s, size, i + 1, k')
  {
    var i' := i + 1;
    forall j: nat ensures j <= k' <==> Reaches(s, size, i', j) {
      if j > 0 {
        ReachesOneMore(s, size, i, j);
        if j <= k' {
          EdgeOrder(s[0], size, j, k');
        } else {
          EdgeOrder(s[0], size, k' + 1, j);
        }
      }
      hide Edge;
    }
  }

  /** After all the data the loop is at the last edge exactly when it had reached the
      last interval before the last datum. */
  lemma LastDatumDecides(s: seq<real>, size: real, k: nat)
    requires s != [] && IsSorted(s) && 0.0 < size && AtInterval(s, size, |s|, k)
    requires Edge(s[0], size, BUCKETS) == s[|s| - 1]
    ensures BUCKETS <= k <==> Reaches(s, size, |s| - 1, BUCKETS - 1)
  {
    var n := |s| - 1;
    assert BUCKETS <= k <==> Reaches(s, size, |s|, BUCKETS);
    hide Edge;
    ReachesOneMore(s, size, n, BUCKETS);
    if Reaches(s, size, n, BUCKETS) {
      var p: nat :| p < n && ReachesAt(s, size, p, BUCKETS);
      assert s[p] <= s[n];
      MoreDataReachMore(s, size, p, n, BUCKETS - 1);
    }
  }

  lemma MoreDataReachMore(s: seq<real>, size: real, p: nat, i: nat, j: nat)
    requires p <= i <= |s| && Reaches(s, size, p, j)
    ensures Reaches(s, size, i, j)
  {
    hide ReachesAt;
  }

  /** If no datum lies on the 49th edge, the last interval is reached before the last
      datum exactly when at least two data lie above that edge. */
  lemma OffTheEdge(s: seq<real>, size: real)
    requires s != [] && IsSorted(s)
    requires forall p :: 0 <= p < |s| ==> s[p] != Edge(s[0], size, BUCKETS - 1)
    ensures Reaches(s, size, |s| - 1, BUCKETS - 1)
            <==> 2 <= |s| && Edge(s[0], size, BUCKETS - 1) < s[|s| - 2]
  {
    hide Edge;
    var n := |s| - 1;
    if Reaches(s, size, n, BUCKETS - 1) {
      var p: nat :| p < n && ReachesAt(s, size, p, BUCKETS - 1);
      assert s[p] <= s[n - 1];
    } else if 2 <= |s| {
      assert !ReachesAt(s, size, n - 1, BUCKETS - 1);
    }
  }

  /** On the edge two data above it are not needed: one datum above the 49th edge and two
      on it are enough. */
  lemma TwoOnTheEdge()
    ensures Reaches([0.0, 49.0, 49.0, 50.0], 1.0, 3, BUCKETS - 1)
    ensures Edge(0.0, 1.0, BUCKETS - 1) == 49.0
  {
    var s := [0.0, 49.0, 49.0, 50.0];
    assert ReachesAt(s, 1.0, 1, BUCKETS - 2);
    assert Reaches(s, 1.0, 2, BUCKETS - 2);
    assert ReachesAt(s, 1.0, 2, BUCKETS - 1);
  }

  // ----------------------------------------------------------------------- the loop

  /** The entries written for the first i - count data; the open interval, which
      holds the last `count` of the first i data, runs from prev to next. */
  ghost predicate Open(s: seq<real>, size: real, i: int, out: seq<Bucket>, count: nat, prev: real, next: real) {
    && s != [] && 0.0 <= size
    && prev == Edge(s[0], size, |out|) && next == Edge(s[0], size, |out| + 1)
    && Shaped(out, s[0], size) && Placed(s, out) && Counted(out) + count == i <= |s|
    && Within(s, i - count, i, prev, next)
  }

  lemma NothingWritten(s: seq<real>, size: real)
    requires s != [] && 0.0 <= size
    ensures Open(s, size, 0, [], 0, s[0], s[0] + size)
  {
    EdgeNext(s[0], size, 0);
  }

  lemma OpenEdges(s: seq<real>, size: real, i: int, out: seq<Bucket>, count: nat, prev: real, next: real)
    requires Open(s, size, i, out, count, prev, next)
    ensures prev == Edge(s[0], size, |out|) && next == Edge(s[0], size, |out| + 1)
  {
  }

  lemma WriteEntry(s: seq<real>, size: real, i: int, out: seq<Bucket>, count: nat, prev: real, next: real)
    requires Open(s, size, i, out, count, prev, next)
    ensures Open(s, size, i, out + [Bucket(prev, next, count + 1)], 0, next, next + size)
  {
    EdgeNext(s[0], size, |out| + 1);
    var out' := out + [Bucket(prev, next, count + 1)];
    assert out'[..|out|] == out;
    hide Edge;
  }

  lemma CountOne(s: seq<real>, size: real, i: int, out: seq<Bucket>, count: nat, prev: real, next: real)
    requires Open(s, size, i, out, count, prev, next) && 0 <= i < |s| && prev <= s[i] <= next
    ensures Open(s, size, i + 1, out, count + 1, prev, next)
  {
    hide Edge, Shaped, Placed, Counted;
  }

  /** A datum at or beyond an edge bounds the number of that edge. */
  lemma EdgeBelow(s: seq<real>, size: real, v: real, k: nat)
    requires s != [] && 0.0 <= size && Edge(s[0], size, BUCKETS) == s[|s| - 1] && v <= s[|s| - 1]
    ensures Edge(s[0], size, k) < v ==> k < BUCKETS && 0.0 < size
    ensures 0.0 < size && Edge(s[0], size, k) <= v ==> k <= BUCKETS
    ensures 0.0 < size && v == s[|s| - 1] <= Edge(s[0], size, k) ==> BUCKETS <= k
  {
    assert size == 0.0 ==> k as real * size == 0.0;
    if k <= BUCKETS {
      EdgeOrder(s[0], size, k, BUCKETS);
    } else {
      EdgeOrder(s[0], size, BUCKETS, k);
    }
  }

  lemma NotBelowOpen(s: seq<real>, size: real, i: int, out: seq<Bucket>, count: nat, prev: real, next: real)
    requires IsSorted(s) && Open(s, size, i, out, count, prev, next) && 0 <= i < |s|
    requires if i == 0 then out == [] else 0 < count
    ensures prev <= s[i]
  {
    EdgeNext(s[0], size, 0);
    if i > 0 {
      assert prev <= s[i - 1] <= s[i];
    }
  }

  // ------------------------------------------------------------- which entry counts it

  /** With the datum at position p the loop has come to interval k. */
  ghost predicate LandsIn(s: seq<real>, size: real, p: nat, k: nat)
    requires p < |s|
  {
    AtInterval(s, size, p + 1, k)
  }

  /** The datum at position p is among those that entry k counts. */
  ghost predicate CountedBy(out: seq<Bucket>, k: nat, p: nat)
    requires k < |out|
  {
    Counted(out[..k]) <= p < Counted(out[..k + 1])
  }

  /** The data that an entry counts are those with which the loop came to its interval. */
  ghost predicate Located(s: seq<real>, size: real, out: seq<Bucket>) {
    forall k: nat, p: nat :: k < |out| && p < |s| && CountedBy(out, k, p) ==> LandsIn(s, size, p, k)
  }

  /** So are the last `count` of the first i data, counted for interval k. */
  ghost predicate LocatedTail(s: seq<real>, size: real, i: int, count: int, k: nat) {
    forall p: nat :: p < |s| && i - count <= p < i ==> LandsIn(s, size, p, k)
  }

  /** Data that are all the same: nothing in the first interval, one in each after it. */
  ghost predicate OneEach(out: seq<Bucket>) {
    forall k :: 0 <= k < |out| ==> out[k].height == if k == 0 then 1 else 2
  }

  lemma LocateEntry(s: seq<real>, size: real, i: int, out: seq<Bucket>, count: nat, prev: real, next: real)
    requires Open(s, size, i, out, count, prev, next)
    requires Located(s, size, out) && LocatedTail(s, size, i, count, |out|)
    ensures Located(s, size, out + [Bucket(prev, next, count + 1)])
  {
    hide AtInterval, Edge, Placed, Shaped;
    var out' := out + [Bucket(prev, next, count + 1)];
    assert out'[..|out|] == out && out'[..|out| + 1] == out';
    forall k: nat, p: nat | k < |out'| && p < |s| && CountedBy(out', k, p) ensures LandsIn(s, size, p, k) {
      if k < |out| {
        assert out'[..k] == out[..k] && out'[..k + 1] == out[..k + 1];
        assert CountedBy(out, k, p);
      }
    }
  }

  lemma LocateDatum(s: seq<real>, size: real, i: nat, count: nat, k: nat)
    requires i < |s| && LocatedTail(s, size, i, count, k) && AtInterval(s, size, i + 1, k)
    ensures LocatedTail(s, size, i + 1, count + 1, k)
  {
    hide AtInterval;
  }

  lemma NothingLocated(s: seq<real>, size: real)
    ensures Located(s, size, []) && LocatedTail(s, size, 0, 0, 0)
  {
  }

  lemma NoTail(s: seq<real>, size: real, i: int, k: nat)
    ensures LocatedTail(s, size, i, 0, k)
  {
  }

  method SortInPlace(data: array<real>)
    modifies data
    ensures data[..] == Sort(old(data[..]))
  {
    var sorted := Sort(data[..]);
    for i := 0 to data.Length
      invariant data[..i] == sorted[..i]
    {
      data[i] := sorted[i];
    }
  }

  method Write(data: array<real>) returns (out: seq<Bucket>)
    requires 0 < data.Length
    modifies data
    ensures data[..] == Sort(old(data[..])) && IsSorted(data[..]) && multiset(data[..]) == multiset(old(data[..]))
    ensures IsHistogram(data[..], out)
    ensures var s := data[..];
            s[0] < s[|s| - 1] ==>
              && (|out| == BUCKETS + 1 <==> Reaches(s, (s[|s| - 1] - s[0]) / 50.0, |s| - 1, BUCKETS - 1))
              && Located(s, (s[|s| - 1] - s[0]) / 50.0, out)
    ensures data[0] == data[data.Length - 1] ==> OneEach(out)
  {
    hide Edge, Open, Sort, Insert, IsHistogram, Reaches, AtInterval, Located, LocatedTail;
    SortSorts(data[..]);
    SortInPlace(data);
    ghost var s := data[..];
    var smallest, largest := data[0], data[data.Length - 1];
    assert forall i :: 0 <= i < |s| ==> s[i] <= largest;
    var size := (largest - smallest) / 50.0;
    LastEdge(smallest, largest);
    var prev, next, count := smallest, smallest + size, 0;
    out := [];
    NothingWritten(s, size);
    StartsAtFirst(s, size);
    NothingLocated(s, size);
    for i := 0 to data.Length
      modifies {}
      invariant Open(s, size, i, out, count, prev, next)
      invariant if i == 0 then out == [] else 0 < count
      invariant if size > 0.0 then |out| <= BUCKETS else |out| == i
      invariant size > 0.0 ==> AtInterval(s, size, i, |out|)
      invariant size > 0.0 ==> Located(s, size, out) && LocatedTail(s, size, i, count, |out|)
      invariant size == 0.0 ==> OneEach(out) && count == if i == 0 then 0 else 1
    {
      NotBelowOpen(s, size, i, out, count, prev, next);
      OpenEdges(s, size, i, out, count, prev, next);
      if data[i] < next {
        BelowEnd(s, size, i, out, count, prev, next);
        StaysAt(s, size, i, |out|);
        LocateDatum(s, size, i, count, |out|);
        count := count + 1;
      } else {
        ghost var from := |out|;
        NextInterval(s, size, i, out, count, prev, next);
        if size > 0.0 {
          LocateEntry(s, size, i, out, count, prev, next);
        }
        out := out + [Bucket(prev, next, count + 1)];
        count, prev, next := 0, next, next + size;
        while data[i] > next
          invariant Open(s, size, i, out, 0, prev, next) && prev <= data[i]
          invariant if size > 0.0 then |out| <= BUCKETS else |out| == i + 1
          invariant from < |out| && (|out| == from + 1 || prev < data[i])
          invariant if size > 0.0 then Located(s, size, out) else OneEach(out)
          decreases BUCKETS - |out|
        {
          NextInterval(s, size, i, out, 0, prev, next);
          NoTail(s, size, i, |out|);
          LocateEntry(s, size, i, out, 0, prev, next);
          out := out + [Bucket(prev, next, 1)];
          prev, next := next, next + size;
        }
        CountOne(s, size, i, out, 0, prev, next);
        OpenEdges(s, size, i, out, 0, prev, next);
        if size > 0.0 {
          MovesTo(s, size, i, from, |out|);
          NoTail(s, size, i, |out|);
          LocateDatum(s, size, i, 0, |out|);
        }
        count := 1;
      }
    }
    LastInterval(s, size, out, count, prev, next);
    if size > 0.0 {
      LastDatumDecides(s, size, |out|);
      LocateEntry(s, size, |s|, out, count, prev, next);
    }
    out := out + [Bucket(prev, next, count + 1)];
  }

  lemma BelowEnd(s: seq<real>, size: real, i: int, out: seq<Bucket>, count: nat, prev: real, next: real)
    requires Open(s, size, i, out, count, prev, next) && 0 <= i < |s| && prev <= s[i] < next
    requires Edge(s[0], size, BUCKETS) == s[|s| - 1]
    requires IsSorted(s) && (size > 0.0 || |out| == i)
    ensures Open(s, size, i + 1, out, count + 1, prev, next)
    ensures size > 0.0
  {
    CountOne(s, size, i, out, count, prev, next);
    EdgeOrder(s[0], size, |out|, |out| + 1);
    EdgeNext(s[0], size, |out|);
  }

  lemma NextInterval(s: seq<real>, size: real, i: int, out: seq<Bucket>, count: nat, prev: real, next: real)
    requires Open(s, size, i, out, count, prev, next) && 0 <= i < |s| && next <= s[i] <= s[|s| - 1]
    requires Edge(s[0], size, BUCKETS) == s[|s| - 1]
    ensures Open(s, size, i, out + [Bucket(prev, next, count + 1)], 0, next, next + size)
    ensures size > 0.0 ==> |out| + 1 <= BUCKETS
    ensures next < s[i] ==> |out| + 1 < BUCKETS && size > 0.0
  {
    WriteEntry(s, size, i, out, count, prev, next);
    EdgeBelow(s, size, s[i], |out| + 1);
  }

  lemma LastInterval(s: seq<real>, size: real, out: seq<Bucket>, count: nat, prev: real, next: real)
    requires Open(s, size, |s|, out, count, prev, next) && 0 < count && size == (s[|s| - 1] - s[0]) / 50.0
    requires Edge(s[0], size, BUCKETS) == s[|s| - 1]
    requires if size > 0.0 then |out| <= BUCKETS else |out| == |s|
    ensures IsHistogram(s, out + [Bucket(prev, next, count + 1)])
  {
    hide Edge;
    WriteEntry(s, size, |s|, out, count, prev, next);
    if size > 0.0 {
      assert prev <= s[|s| - 1] <= next;
      EdgeBelow(s, size, s[|s| - 1], |out| + 1);
    }
  }

  // ------------------------------------------------------------- what a reader sees

  lemma IntervalsAbut(s: seq<real>, out: seq<Bucket>, k: nat)
    requires s != [] && IsHistogram(s, out) && k + 1 < |out|
    ensures out[k].end == out[k + 1].start
    ensures out[0].start == s[0]
  {
    EdgeNext(s[0], (s[|s| - 1] - s[0]) / 50.0, 0);
    hide Edge;
  }

  lemma {:induction false} CountedGrows(out: seq<Bucket>, first: real, size: real, k: nat)
    requires Shaped(out, first, size) && k <= |out|
    ensures 0 <= Counted(out[..k]) <= Counted(out)
    decreases |out|
  {
    hide Edge;
    if k == |out| {
      assert out[..k] == out;
    }
    if out != [] {
      var n := |out| - 1;
      CountedGrows(out[..n], first, size, if k < n then k else n);
      assert out[..n][..n] == out[..n];
      if k < |out| {
        assert out[..n][..k] == out[..k];
      }
    }
  }

  lemma {:induction false} PlacedAt(s: seq<real>, out: seq<Bucket>, k: nat)
    requires Placed(s, out) && k < |out|
    ensures Within(s, Counted(out[..k]), Counted(out[..k + 1]), out[k].start, out[k].end)
  {
    var n := |out| - 1;
    if k < n {
      PlacedAt(s, out[..n], k);
      assert out[..n][..k] == out[..k] && out[..n][..k + 1] == out[..k + 1];
    } else {
      assert out[..k + 1] == out;
    }
  }

  /** The entry that the datum at position j falls to. */
  lemma {:induction false} EntryOf(out: seq<Bucket>, j: nat) returns (k: nat)
    requires j < Counted(out)
    ensures k < |out| && Counted(out[..k]) <= j < Counted(out[..k + 1])
  {
    assert out != [];
    hide Counted;
    var n := |out| - 1;
    assert out[..n + 1] == out;
    if j < Counted(out[..n]) {
      k := EntryOf(out[..n], j);
      assert out[..n][..k] == out[..k] && out[..n][..k + 1] == out[..k + 1];
    } else {
      k := n;
    }
  }

  /** Every datum is counted by the entry its position falls to, in a closed interval
      that contains it. */
  lemma EveryDatumIsCounted(s: seq<real>, out: seq<Bucket>, j: nat)
    requires Placed(s, out) && j < |s| && j < Counted(out)
    ensures exists k: nat :: k < |out| && Counted(out[..k]) <= j < Counted(out[..k + 1])
                             && out[k].start <= s[j] <= out[k].end
  {
    hide Counted, Placed;
    var k := EntryOf(out, j);
    PlacedAt(s, out, k);
  }

  lemma {:induction false} BeforeIsBelow(s: seq<real>, out: seq<Bucket>, first: real, size: real, k: nat, j: nat)
    requires Placed(s, out) && Shaped(out, first, size) && 0.0 <= size && k <= |out|
    requires j < |s| && j < Counted(out[..k])
    ensures s[j] <= Edge(first, size, k)
  {
    hide Edge;
    if k > 0 {
      assert out[..k][..k - 1] == out[..k - 1];
      EdgeOrder(first, size, k - 1, k);
      PlacedAt(s, out, k - 1);
      if j < Counted(out[..k - 1]) {
        BeforeIsBelow(s, out, first, size, k - 1, j);
      }
    }
  }

  lemma {:induction false} AfterIsAbove(s: seq<real>, out: seq<Bucket>, first: real, size: real, k: nat, j: nat)
    requires Placed(s, out) && Shaped(out, first, size) && 0.0 <= size && k <= |out|
    requires j < |s| && Counted(out[..k]) <= j < Counted(out)
    ensures Edge(first, size, k) <= s[j]
    decreases |out| - k
  {
    hide Edge;
    assert out[..|out|] == out;
    if k < |out| {
      EdgeOrder(first, size, k, k + 1);
      PlacedAt(s, out, k);
      if Counted(out[..k + 1]) <= j {
        AfterIsAbove(s, out, first, size, k + 1, j);
      }
    }
  }

  /** How many data lie strictly inside, or in the closed interval. */
  function Inside(s: seq<real>, lo: real, hi: real): nat {
    if s == [] then 0 else Inside(s[..|s| - 1], lo, hi) + if lo < s[|s| - 1] < hi then 1 else 0
  }

  function InClosed(s: seq<real>, lo: real, hi: real): nat {
    if s == [] then 0 else InClosed(s[..|s| - 1], lo, hi) + if lo <= s[|s| - 1] <= hi then 1 else 0
  }

  /** If the data from `from` to `to` lie in the closed interval and no others lie
      strictly inside, their number is between the two counts. */
  lemma {:induction false} CountsBracket(s: seq<real>, from: int, to: int, lo: real, hi: real)
    requires 0 <= from <= to && Within(s, from, to, lo, hi)
    requires forall j :: 0 <= j < |s| && !(from <= j < to) ==> s[j] <= lo || hi <= s[j]
    ensures var n := if to <= |s| then to - from else if from <= |s| then |s| - from else 0;
            Inside(s, lo, hi) <= n <= InClosed(s, lo, hi)
  {
    if s != [] {
      CountsBracket(s[..|s| - 1], from, to, lo, hi);
    }
  }

  /** The counts are right: each lies between the number of data strictly inside its
      interval and the number in the closed interval. */
  lemma CountsAreRight(s: seq<real>, out: seq<Bucket>, k: nat)
    requires s != [] && IsHistogram(s, out) && k < |out|
    ensures Inside(s, out[k].start, out[k].end) <= out[k].height - 1 <= InClosed(s, out[k].start, out[k].end)
  {
    hide Edge;
    var first, size := s[0], (s[|s| - 1] - s[0]) / 50.0;
    var from, to := Counted(out[..k]), Counted(out[..k + 1]);
    assert out[..k + 1][..k] == out[..k];
    CountedGrows(out, first, size, k);
    CountedGrows(out, first, size, k + 1);
    PlacedAt(s, out, k);
    forall j: nat | j < |s| && !(from <= j < to) ensures s[j] <= out[k].start || out[k].end <= s[j] {
      if j < from {
        BeforeIsBelow(s, out, first, size, k, j);
      } else {
        AfterIsAbove(s, out, first, size, k + 1, j);
      }
    }
    CountsBracket(s, from, to, out[k].start, out[k].end);
  }
}
