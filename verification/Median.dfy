/** What the median is, said of the sample itself and not of its sorted copy: the
    average of the two values that have at most half of the sample on either side. */
module Median {
  import opened Statistics

  function CountBelow(s: seq<real>, x: real): nat {
    if s == [] then 0 else CountBelow(s[1..], x) + if s[0] < x then 1 else 0
  }

  function CountAbove(s: seq<real>, x: real): nat {
    if s == [] then 0 else CountAbove(s[1..], x) + if s[0] > x then 1 else 0
  }

  /** Fewer than half of the sample are below this value of it, at most half above. */
  predicate IsLower(s: seq<real>, x: real) {
    x in s && 2 * CountBelow(s, x) < |s| && 2 * CountAbove(s, x) <= |s|
  }

  predicate IsUpper(s: seq<real>, x: real) {
    x in s && 2 * CountBelow(s, x) <= |s| && 2 * CountAbove(s, x) < |s|
  }

  ghost predicate IsCentral(s: seq<real>, m: real) {
    exists lo, hi :: IsLower(s, lo) && IsUpper(s, hi) && m == (lo + hi) / 2.0
  }

  // ------------------------------------------------------- counting in sorted order

  lemma {:induction false} CountsOfInsert(s: seq<real>, v: real, x: real)
    ensures CountBelow(Insert(s, v), x) == CountBelow(s, x) + if v < x then 1 else 0
    ensures CountAbove(Insert(s, v), x) == CountAbove(s, x) + if v > x then 1 else 0
  {
    if s == [] || v <= s[0] {
      assert ([v] + s)[1..] == s;
    } else {
      CountsOfInsert(s[1..], v, x);
      assert ([s[0]] + Insert(s[1..], v))[1..] == Insert(s[1..], v);
    }
  }

  lemma {:induction false} CountsOfSort(s: seq<real>, x: real)
    ensures CountBelow(Sort(s), x) == CountBelow(s, x)
    ensures CountAbove(Sort(s), x) == CountAbove(s, x)
  {
    hide Insert;
    if s != [] {
      CountsOfSort(s[1..], x);
      CountsOfInsert(Sort(s[1..]), s[0], x);
    }
  }

  /** In a sorted sequence at most `k` values are below its k-th, and at most those
      behind it are above it. */
  lemma {:induction false} CountsAt(t: seq<real>, k: nat, x: real)
    requires IsSorted(t) && k <= |t|
    ensures (forall i :: k <= i < |t| ==> x <= t[i]) ==> CountBelow(t, x) <= k
    ensures (forall i :: 0 <= i < k ==> t[i] <= x) ==> CountAbove(t, x) <= |t| - k
  {
    if t == [] {
    } else if k == 0 {
      CountsAt(t[1..], 0, x);
    } else {
      CountsAt(t[1..], k - 1, x);
    }
  }

  lemma SortedAt(t: seq<real>, i: nat, k: nat)
    requires IsSorted(t) && i <= k < |t|
    ensures t[i] <= t[k]
  {
  }

  /** The value at position k of the sorted sample. */
  lemma AtPosition(s: seq<real>, k: nat)
    requires k < |s|
    ensures Sort(s)[k] in s && CountBelow(s, Sort(s)[k]) <= k && CountAbove(s, Sort(s)[k]) <= |s| - 1 - k
  {
    hide Sort, IsSorted, CountBelow, CountAbove;
    var t := Sort(s);
    SortSorts(s);
    assert t[k] in multiset(t);
    CountsOfSort(s, t[k]);
    forall i | k <= i < |t| ensures t[k] <= t[i] { SortedAt(t, k, i); }
    forall i | 0 <= i < k + 1 ensures t[i] <= t[k] { SortedAt(t, i, k); }
    CountsAt(t, k, t[k]);
    CountsAt(t, k + 1, t[k]);
  }

  lemma MedianIsCentral(s: seq<real>)
    requires 0 < |s|
    ensures IsCentral(s, MedianOf(s))
  {
    hide Sort, CountBelow, CountAbove;
    var k := |s| / 2;
    AtPosition(s, k);
    if |s| % 2 == 0 {
      AtPosition(s, k - 1);
      assert IsLower(s, Sort(s)[k - 1]) && IsUpper(s, Sort(s)[k]);
    } else {
      assert IsLower(s, Sort(s)[k]) && IsUpper(s, Sort(s)[k]);
    }
  }

  // --------------------------------------------------------------------- uniqueness

  /** Of two different values every element is above the lower one or below the other. */
  lemma {:induction false} BothSides(s: seq<real>, x: real, y: real)
    requires x < y
    ensures CountAbove(s, x) + CountBelow(s, y) >= |s|
  {
    if s != [] {
      BothSides(s[1..], x, y);
    }
  }

  lemma CentralIsUnique(s: seq<real>, m: real, m': real)
    requires IsCentral(s, m) && IsCentral(s, m')
    ensures m == m'
  {
    hide CountBelow, CountAbove;
    var lo, hi :| IsLower(s, lo) && IsUpper(s, hi) && m == (lo + hi) / 2.0;
    var lo', hi' :| IsLower(s, lo') && IsUpper(s, hi') && m' == (lo' + hi') / 2.0;
    if lo < lo' {
      BothSides(s, lo, lo');
    } else if lo' < lo {
      BothSides(s, lo', lo);
    }
    if hi < hi' {
      BothSides(s, hi, hi');
    } else if hi' < hi {
      BothSides(s, hi', hi);
    }
  }

  /** The computed median is the central value of the sample, and nothing else is. */
  lemma MedianExactlyWhen(s: seq<real>, m: real)
    requires 0 < |s|
    ensures m == MedianOf(s) <==> IsCentral(s, m)
  {
    hide IsCentral, MedianOf;
    MedianIsCentral(s);
    if IsCentral(s, m) {
      CentralIsUnique(s, m, MedianOf(s));
    }
  }

  // --------------------------------------------------------------------- its laws

  lemma {:induction false} CountsGrow(s: seq<real>, x: real, y: real)
    requires x <= y
    ensures CountBelow(s, x) <= CountBelow(s, y) && CountAbove(s, y) <= CountAbove(s, x)
    ensures CountBelow(s, x) + CountAbove(s, x) <= |s|
  {
    if s != [] {
      CountsGrow(s[1..], x, y);
    }
  }

  /** The upper of the two central values is not below the lower one, and in a sample of
      odd length they are the same. */
  lemma LowerAndUpper(s: seq<real>, lo: real, hi: real)
    requires IsLower(s, lo) && IsUpper(s, hi)
    ensures lo <= hi && (|s| % 2 == 1 ==> lo == hi)
  {
    hide CountBelow, CountAbove;
    if hi < lo {
      BothSides(s, hi, lo);
    } else if lo < hi {
      BothSides(s, lo, hi);
    }
  }

  /** At most half of the values are below the median and at most half above it; the
      median of an odd number of values is one of them. */
  lemma MedianHalves(s: seq<real>)
    requires 0 < |s|
    ensures 2 * CountBelow(s, MedianOf(s)) <= |s| && 2 * CountAbove(s, MedianOf(s)) <= |s|
    ensures |s| % 2 == 1 ==> MedianOf(s) in s
  {
    hide CountBelow, CountAbove, MedianOf;
    MedianIsCentral(s);
    var m := MedianOf(s);
    var lo, hi :| IsLower(s, lo) && IsUpper(s, hi) && m == (lo + hi) / 2.0;
    LowerAndUpper(s, lo, hi);
    CountsGrow(s, m, hi);
    CountsGrow(s, lo, m);
  }

  function Negated(s: seq<real>): (r: seq<real>)
    ensures |r| == |s| && forall i :: 0 <= i < |s| ==> r[i] == -s[i]
  {
    seq(|s|, i requires 0 <= i < |s| => -s[i])
  }

  lemma {:induction false} CountsOfNegated(s: seq<real>, x: real)
    ensures CountBelow(Negated(s), -x) == CountAbove(s, x) && CountAbove(Negated(s), -x) == CountBelow(s, x)
  {
    if s != [] {
      assert Negated(s)[1..] == Negated(s[1..]);
      CountsOfNegated(s[1..], x);
    }
  }

  lemma NegatedMember(s: seq<real>, x: real)
    requires x in s
    ensures -x in Negated(s)
  {
    var i :| 0 <= i < |s| && s[i] == x;
    assert Negated(s)[i] == -x;
  }

  /** Reflection: the median of the negated sample is the negated median. */
  lemma MedianReflects(s: seq<real>)
    requires 0 < |s|
    ensures MedianOf(Negated(s)) == -MedianOf(s)
  {
    hide CountBelow, CountAbove, MedianOf, Negated;
    MedianIsCentral(s);
    var m := MedianOf(s);
    var lo, hi :| IsLower(s, lo) && IsUpper(s, hi) && m == (lo + hi) / 2.0;
    CountsOfNegated(s, lo);
    CountsOfNegated(s, hi);
    NegatedMember(s, lo);
    NegatedMember(s, hi);
    assert IsLower(Negated(s), -hi) && IsUpper(Negated(s), -lo) && -m == (-hi + -lo) / 2.0;
    MedianExactlyWhen(Negated(s), -m);
  }

  lemma MedianAtMost(s: seq<real>, hi: real)
    requires 0 < |s| && forall v :: v in s ==> v <= hi
    ensures MedianOf(s) <= hi
  {
    hide MedianOf;
    forall v | v in Negated(s) ensures -hi <= v {
      var i :| 0 <= i < |s| && Negated(s)[i] == v;
      assert s[i] in s;
    }
    MedianAtLeast(Negated(s), -hi);
    MedianReflects(s);
  }
}
