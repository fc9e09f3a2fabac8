/** The arithmetic of the result tables on plain sequences: C's truncating
    division and casts, sums, extremes, the median, and the two variances that
    are compared. */
module Statistics {

  /** Division of C integers: truncation toward zero. */
  function TruncDiv(a: int, b: int): int
    requires b != 0
  {
    if (a >= 0) == (b > 0) then Abs(a) / Abs(b) else -(Abs(a) / Abs(b))
  }

  function Abs(a: int): nat { if a < 0 then -a else a }

  /** A C cast from floating point to integer: truncation toward zero. */
  function Trunc(x: real): int {
    if x >= 0.0 then x.Floor else -((-x).Floor)
  }

  /** What is cut off has the sign of the number and is less than one. */
  lemma TruncTowardZero(x: real)
    ensures if 0.0 <= x then 0.0 <= Trunc(x) as real <= x < Trunc(x) as real + 1.0
            else Trunc(x) as real - 1.0 < x <= Trunc(x) as real <= 0.0
  {
  }

  lemma NatDivision(x: nat, n: nat)
    requires 0 < n
    ensures 0 <= n * (x / n) <= x < n * (x / n) + n
  {
    assert x == n * (x / n) + x % n;
  }

  lemma OneMore(n: int, q: int)
    ensures n * (q + 1) == n * q + n && n * (-q) == -(n * q) && n * (-q - 1) == -(n * q) - n
  {
  }

  /** The remainder of a division has the sign of the dividend. */
  lemma TruncDivTowardZero(a: int, n: nat)
    requires 0 < n
    ensures if 0 <= a then 0 <= n * TruncDiv(a, n) <= a < n * (TruncDiv(a, n) + 1)
            else n * (TruncDiv(a, n) - 1) < a <= n * TruncDiv(a, n) <= 0
  {
    var x: int, q: int := Abs(a), Abs(a) / n;
    assert Abs(n) == n && TruncDiv(a, n) == if 0 <= a then q else -q;
    assert if 0 <= a then a == x else a == -x;
    hide *;
    NatDivision(x, n);
    OneMore(n, q);
  }

  function Sum(s: seq<int>): int {
    if s == [] then 0 else Sum(s[..|s| - 1]) + s[|s| - 1]
  }

  /** The mean as the code computes it. */
  function MeanOf(s: seq<int>): int
    requires 0 < |s|
  {
    TruncDiv(Sum(s), |s|)
  }

  function SumSqDiff(s: seq<int>, m: int): int {
    if s == [] then 0 else SumSqDiff(s[..|s| - 1], m) + (s[|s| - 1] - m) * (s[|s| - 1] - m)
  }

  /** The squared deviation as the code computes it: an integer division of the
      sum of squares around the truncated mean. */
  function MeanSqDiff(s: seq<int>): int
    requires 0 < |s|
  {
    TruncDiv(SumSqDiff(s, MeanOf(s)), |s|)
  }

  /** The mean is cut off toward zero, and so is the mean of the squares, which are
      not negative. */
  lemma MeansAreTruncated(s: seq<int>)
    requires 0 < |s|
    ensures 0 <= Sum(s) ==> 0 <= |s| * MeanOf(s) <= Sum(s) < |s| * (MeanOf(s) + 1)
    ensures Sum(s) < 0 ==> |s| * (MeanOf(s) - 1) < Sum(s) <= |s| * MeanOf(s) <= 0
    ensures 0 <= |s| * MeanSqDiff(s) <= SumSqDiff(s, MeanOf(s)) < |s| * (MeanSqDiff(s) + 1)
  {
    hide Sum, SumSqDiff, SqAround, TruncDiv;
    TruncDivTowardZero(Sum(s), |s|);
    TruncDivTowardZero(SumSqDiff(s, MeanOf(s)), |s|);
    SqDiffIsSqAround(s, MeanOf(s));
  }

  ghost predicate IsMin(s: seq<int>, m: int) { m in s && forall v :: v in s ==> m <= v }
  ghost predicate IsMax(s: seq<int>, m: int) { m in s && forall v :: v in s ==> v <= m }

  // ---------------------------------------------------------------------- variance

  /** The sum of the squares of k*v - c. */
  function SqAround(s: seq<int>, k: int, c: int): int {
    if s == [] then 0 else SqAround(s[..|s| - 1], k, c) + (k * s[|s| - 1] - c) * (k * s[|s| - 1] - c)
  }

  /** Reference: the population variance, the mean of the squared distances from the
      exact mean sum/n.  Each distance v - sum/n is (n*v - sum)/n, so that the sum of
      squares is taken over integers and divided by n^3 once. */
  function PopulationVariance(s: seq<int>): real
    requires 0 < |s|
  {
    SqAround(s, |s|, Sum(s)) as real / |s| as real / |s| as real / |s| as real
  }

  function SumSq(s: seq<int>): int {
    if s == [] then 0 else SumSq(s[..|s| - 1]) + s[|s| - 1] * s[|s| - 1]
  }

  lemma AddOneSquare(k: int, c: int, q: int, t: int, n: int, v: int)
    ensures k * k * q - 2 * k * c * t + n * c * c + (k * v - c) * (k * v - c)
            == k * k * (q + v * v) - 2 * k * c * (t + v) + (n + 1) * c * c
  {
  }

  lemma {:induction false} ExpandSqAround(s: seq<int>, k: int, c: int)
    ensures SqAround(s, k, c) == k * k * SumSq(s) - 2 * k * c * Sum(s) + |s| * c * c
  {
    if s == [] {
    } else {
      var n := |s| - 1;
      ExpandSqAround(s[..n], k, c);
      AddOneSquare(k, c, SumSq(s[..n]), Sum(s[..n]), n, s[n]);
    }
  }

  lemma {:induction false} SqDiffIsSqAround(s: seq<int>, m: int)
    ensures SumSqDiff(s, m) == SqAround(s, 1, m) && 0 <= SumSqDiff(s, m)
  {
    if s == [] {
    } else {
      SqDiffIsSqAround(s[..|s| - 1], m);
      SquareIsNat(s[|s| - 1] - m);
    }
  }

  lemma SquareIsNat(x: int)
    ensures 0 <= x * x
  {
  }

  /** The truncated mean misses the sum by less than the number of samples. */
  lemma TruncDivRemainder(a: int, n: nat)
    requires 0 < n
    ensures Abs(a - n * TruncDiv(a, n)) < n
  {
    hide TruncDiv;
    TruncDivTowardZero(a, n);
  }

  lemma Times(n: int, a: int, b: int)
    requires a == b
    ensures n * a == n * b
  {
  }

  /** The key step: n*sum (v-m)^2 == n*sum v^2 - (sum v)^2 + (sum v - n*m)^2. */
  lemma KeyIdentity(s: seq<int>, m: int)
    ensures |s| * SumSqDiff(s, m)
            == |s| * SumSq(s) - Sum(s) * Sum(s) + (Sum(s) - |s| * m) * (Sum(s) - |s| * m)
  {
    hide *;
    SqDiffIsSqAround(s, m);
    ExpandSqAround(s, 1, m);
    Times(|s|, SumSqDiff(s, m), SumSq(s) - 2 * m * Sum(s) + |s| * m * m);
  }

  /** The scaled reference: sum (n*v - sum)^2 == n * (n*sum v^2 - (sum v)^2). */
  lemma ScaledVariance(s: seq<int>)
    ensures SqAround(s, |s|, Sum(s)) == |s| * (|s| * SumSq(s) - Sum(s) * Sum(s))
  {
    hide *;
    ExpandSqAround(s, |s|, Sum(s));
  }

  lemma SquareBelow(d: int, n: int)
    requires -n < d < n
    ensures 0 <= d * d < n * n
  {
    assert 0 < (n - d) * (n + d);
  }

  /** With n*sum == w + d^2 and v the floor of sum/n. */
  lemma ScaledGap(n: int, sum: int, v: int, r: int, w: int, d: int)
    requires 0 < n && sum == n * v + r && 0 <= r < n && n * sum == w + d * d && -n < d < n
    ensures -(n * n) < n * (n * v) - w < n * n
  {
    SquareBelow(d, n);
    Times(n, sum, n * v + r);
    assert 0 <= n * r < n * n;
  }

  lemma TimesBounds(n: int, x: int, b: int)
    requires 0 < n && -b < x < b
    ensures -(n * b) < n * x < n * b
  {
  }

  lemma QuotientTimes(a: real, b: real)
    requires b != 0.0
    ensures b * (a / b) == a
  {
  }

  lemma DivideBounds(a: real, b: real, y: real, c: real)
    requires 0.0 < b && -(b * c) < b * y - a < b * c
    ensures -c < y - a / b < c
  {
    QuotientTimes(a, b);
    var x := y - a / b;
    assert b * x == b * y - a;
    assert x >= c ==> b * x >= b * c;
    assert x <= -c ==> b * x <= b * -c;
  }

  lemma WithinOneReal(a: real, b: real, x: real)
    requires 0.0 < b && -(b * (b * b)) < b * (b * (b * x)) - a < b * (b * b)
    ensures -1.0 < x - a / b / b / b < 1.0
  {
    DivideBounds(a, b, b * (b * x), b * b);
    DivideBounds(a / b, b, b * x, b);
    assert b == b * 1.0;
    DivideBounds(a / b / b, b, x, 1.0);
  }

  /** -n^3 < n^3*v - a < n^3 means that v is within one of a/n/n/n. */
  lemma WithinOne(a: int, n: int, v: int)
    requires 0 < n && -(n * (n * n)) < n * (n * (n * v)) - a < n * (n * n)
    ensures -1.0 < v as real - a as real / n as real / n as real / n as real < 1.0
  {
    CubeToReal(n, v);
    WithinOneReal(a as real, n as real, v as real);
  }

  lemma CubeToReal(n: int, v: int)
    ensures (n * (n * (n * v))) as real == n as real * (n as real * (n as real * v as real))
    ensures (n * (n * n)) as real == n as real * (n as real * n as real)
  {
    ProductToReal(n, v);
    ProductToReal(n, n * v);
    ProductToReal(n, n * (n * v));
    ProductToReal(n, n);
    ProductToReal(n, n * n);
  }

  lemma ProductToReal(a: int, b: int)
    ensures (a * b) as real == a as real * b as real
  {
  }

  lemma ScaledChain(n: int, sum: int, v: int, r: int, w: int, d: int, scaled: int)
    requires 0 < n && -n < d < n && sum == n * v + r && 0 <= r < n
    requires n * sum == w + d * d && scaled == n * w
    ensures -(n * (n * n)) < n * (n * (n * v)) - scaled < n * (n * n)
  {
    ScaledGap(n, sum, v, r, w, d);
    TimesBounds(n, n * (n * v) - w, n * n);
    Distributes(n, n * (n * v), w);
  }

  lemma Distributes(n: int, x: int, y: int)
    ensures n * (x - y) == n * x - n * y
  {
  }

  /** The same bound over the integers, scaled by n^3. */
  lemma ScaledVarianceBound(s: seq<int>, m: int, v: int, r: int)
    requires 0 < |s| && -|s| < Sum(s) - |s| * m < |s| && SumSqDiff(s, m) == |s| * v + r && 0 <= r < |s|
    ensures var n := |s|;
            -(n * (n * n)) < n * (n * (n * v)) - SqAround(s, n, Sum(s)) < n * (n * n)
  {
    hide *;
    KeyIdentity(s, m);
    ScaledVariance(s);
    ScaledChain(|s|, SumSqDiff(s, m), v, r, |s| * SumSq(s) - Sum(s) * Sum(s), Sum(s) - |s| * m,
                SqAround(s, |s|, Sum(s)));
  }

  /** The variance error bound: for every sample the computed squared deviation is
      less than one away from the true population variance, on either side. */
  lemma VarianceWithinOne(s: seq<int>)
    requires 0 < |s|
    ensures -1.0 < MeanSqDiff(s) as real - PopulationVariance(s) < 1.0
  {
    TruncDivRemainder(Sum(s), |s|);
    SqDiffIsSqAround(s, MeanOf(s));
    ScaledVarianceBound(s, MeanOf(s), MeanSqDiff(s), SumSqDiff(s, MeanOf(s)) % |s|);
    WithinOne(SqAround(s, |s|, Sum(s)), |s|, MeanSqDiff(s));
  }

  // ------------------------------------------------------------- sorting and median

  ghost predicate IsSorted(s: seq<real>) {
    forall i, j :: 0 <= i < j < |s| ==> s[i] <= s[j]
  }

  function Insert(s: seq<real>, x: real): (r: seq<real>)
    ensures |r| == |s| + 1
  {
    if s == [] || x <= s[0] then [x] + s else [s[0]] + Insert(s[1..], x)
  }

  /** What the library sorts (qsort, std::sort, Arrays.sort) leave behind. */
  function Sort(s: seq<real>): (r: seq<real>)
    ensures |r| == |s|
  {
    if s == [] then [] else Insert(Sort(s[1..]), s[0])
  }

  lemma {:induction false} InsertMembers(s: seq<real>, x: real)
    ensures multiset(Insert(s, x)) == multiset(s) + multiset{x}
    ensures forall v :: v in Insert(s, x) ==> v == x || v in s
  {
    if s == [] || x <= s[0] {
    } else {
      InsertMembers(s[1..], x);
      assert s == [s[0]] + s[1..];
    }
  }

  lemma {:induction false} InsertSorts(s: seq<real>, x: real)
    requires IsSorted(s)
    ensures IsSorted(Insert(s, x))
  {
    if s == [] || x <= s[0] {
    } else {
      InsertSorts(s[1..], x);
      InsertMembers(s[1..], x);
      var r := Insert(s[1..], x);
      forall j | 0 <= j < |r| ensures s[0] <= r[j] {
        assert r[j] in r;
      }
    }
  }

  lemma {:induction false} SortSorts(s: seq<real>)
    ensures IsSorted(Sort(s)) && multiset(Sort(s)) == multiset(s)
  {
    hide Insert;
    if s == [] {
    } else {
      SortSorts(s[1..]);
      InsertSorts(Sort(s[1..]), s[0]);
      InsertMembers(Sort(s[1..]), s[0]);
      assert s == [s[0]] + s[1..];
    }
  }

  lemma HeadAtMost(s: seq<real>, v: real)
    requires IsSorted(s) && v in multiset(s)
    ensures s[0] <= v
  {
    assert v in s;
  }

  lemma SameHead(s: seq<real>, t: seq<real>)
    requires s != [] && t != [] && IsSorted(s) && IsSorted(t) && multiset(s) == multiset(t)
    ensures s[0] == t[0]
  {
    assert s[0] in multiset(s) && t[0] in multiset(t);
    HeadAtMost(s, t[0]);
    HeadAtMost(t, s[0]);
  }

  lemma TailMultiset(s: seq<real>)
    requires s != []
    ensures multiset(s[1..]) == multiset(s) - multiset{s[0]}
  {
    assert s == [s[0]] + s[1..];
  }

  /** A sequence has one sorted permutation. */
  lemma {:induction false} SortedIsUnique(s: seq<real>, t: seq<real>)
    requires IsSorted(s) && IsSorted(t) && multiset(s) == multiset(t)
    ensures s == t
  {
    assert |s| == |multiset(s)| && |t| == |multiset(t)|;
    if s == [] {
    } else {
      SameHead(s, t);
      TailMultiset(s);
      TailMultiset(t);
      SortedIsUnique(s[1..], t[1..]);
      assert s == [s[0]] + s[1..] && t == [t[0]] + t[1..];
    }
  }

  function Middle(s: seq<real>): real
    requires 0 < |s|
  {
    if |s| % 2 == 1 then s[|s| / 2] else (s[|s| / 2 - 1] + s[|s| / 2]) / 2.0
  }

  function MedianOf(s: seq<real>): real
    requires 0 < |s|
  {
    Middle(Sort(s))
  }

  /** The median is the middle of every sorted permutation of the sample. */
  lemma MedianIsMiddle(s: seq<real>, t: seq<real>)
    requires 0 < |s| && IsSorted(t) && multiset(t) == multiset(s)
    ensures |t| == |s| && MedianOf(s) == Middle(t)
  {
    SortSorts(s);
    SortedIsUnique(t, Sort(s));
  }

  lemma MedianAtLeast(s: seq<real>, lo: real)
    requires 0 < |s| && forall v :: v in s ==> lo <= v
    ensures lo <= MedianOf(s)
  {
    SortSorts(s);
    var t := Sort(s);
    forall i | 0 <= i < |t| ensures lo <= t[i] {
      assert t[i] in multiset(t);
      assert t[i] in s;
    }
  }

  lemma MedianIsPositive(s: seq<real>)
    requires 0 < |s| && forall v :: v in s ==> 0.0 < v
    ensures 0.0 < MedianOf(s)
  {
    SortSorts(s);
    var t := Sort(s);
    forall i | 0 <= i < |t| ensures 0.0 < t[i] {
      assert t[i] in multiset(t);
      assert t[i] in s;
    }
  }

  function Reals(s: seq<int>): (r: seq<real>)
    ensures |r| == |s| && forall i :: 0 <= i < |s| ==> r[i] == s[i] as real
  {
    seq(|s|, i requires 0 <= i < |s| => s[i] as real)
  }
}
