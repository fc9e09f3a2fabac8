/** The integer and the floating-point loop whose speed is measured.  Both divide by
    a j that falls from 10000 through zero; the callers take -1 for an error. */
module Kernels {
  import opened Powers
  import opened Statistics

  const ERROR := -1

  /** Both loops: after i - 2 rounds j is 10003 less the i-th triangular number. */
  predicate IsRound(i: int, j: int) {
    2 <= i && 2 * j == 20006 - i * (i + 1)
  }

  lemma NextRound(i: int, j: int)
    requires IsRound(i, j)
    ensures IsRound(i + 1, j - (i + 1))
  {
    assert (i + 1) * (i + 2) == i * (i + 1) + 2 * (i + 1);
  }

  lemma SquareOrder(i: int, k: int)
    requires 0 <= i <= k
    ensures i * (i + 1) <= k * (k + 1)
  {
    assert k * (k + 1) - i * (i + 1) == (k - i) * (k + i + 1);
    assert 0 <= (k - i) * (k + i + 1);
  }

  /** 10003 is not triangular: j passes from 133 in round 140 to -8 in round 141, and
      it passes i on the way without meeting it. */
  lemma RoundBounds(i: int, j: int)
    requires IsRound(i, j)
    ensures 2 <= i && (i <= 139 ==> 273 <= j)
    ensures i == 140 ==> j == 133
    ensures i == 141 ==> j == -8
    ensures 142 <= i ==> i < -j
    ensures j != 0 && j - i != 0
  {
    if i <= 139 {
      SquareOrder(i, 139);
    } else if 142 <= i {
      SquareOrder(141, i - 1);
      assert i * (i + 1) == (i - 1) * i + 2 * i;
    }
  }

  lemma SmallerQuotient(b: int, q: int, r: int, q': int, r': int)
    requires q < q' && 0 <= r < b && 0 <= r'
    ensures b * q + r < b * q' + r'
  {
    AtLeastOnce(q' - q, b);
    assert b * (q' - q) == b * q' - b * q;
  }

  lemma QuotientIsUnique(b: int, q: int, r: int, q': int, r': int)
    requires b * q + r == b * q' + r' && 0 <= r < b && 0 <= r' < b
    ensures q == q'
  {
    if q < q' {
      SmallerQuotient(b, q, r, q', r');
    } else if q' < q {
      SmallerQuotient(b, q', r', q, r);
    }
  }

  lemma DivideWithRemainder(a: int, b: int, q: int, r: int)
    requires a == b * q + r && 0 <= r < b
    ensures a / b == q
  {
    QuotientIsUnique(b, q, r, a / b, a % b);
  }

  lemma TruncDivSameSign(a: int, b: int, q: int, r: int)
    requires Abs(a) == Abs(b) * q + r && 0 <= r < Abs(b)
    requires (a >= 0) == (b > 0)
    ensures TruncDiv(a, b) == q
  {
    DivideWithRemainder(Abs(a), Abs(b), q, r);
  }

  // --------------------------------------------------------------- integer kernel

  /** What round i leaves in res. */
  function IntResult(i: int): int {
    if i <= 139 then i - 2
    else if i == 140 then 137
    else if i == 141 then 157
    else i - 1
  }

  lemma IntRound(i: int, j: int)
    requires IsRound(i, j)
    ensures j != 0 && TruncDiv(j * i - (j + i), j) == IntResult(i)
  {
    hide TruncDiv, IsRound;
    RoundBounds(i, j);
    var a := j * i - (j + i);
    if i <= 139 {
      ProductIsNat(j, i - 2);
      assert a == j * (i - 2) + (j - i);
      TruncDivSameSign(a, j, i - 2, j - i);
    } else if i == 140 {
      TruncDivSameSign(a, j, 137, 126);
    } else if i == 141 {
      TruncDivSameSign(a, j, 157, 5);
    } else {
      ProductIsNat(-j, i - 1);
      assert -a == -j * (i - 1) + i;
      TruncDivSameSign(a, j, i - 1, i);
    }
  }

  lemma ProductIsNat(a: nat, b: nat)
    ensures 0 <= a * b
  {
  }

  /** The divisions are safe for every number of rounds, and the result is never
      negative, so that no result is taken for an error. */
  method DoSimpleIntOpern(num: int) returns (res: int)
    ensures res == if num <= 2 then 0 else IntResult(num - 1)
    ensures 0 <= res && res != ERROR
  {
    var i, j := 2, 10000;
    res := 0;
    while i < num
      invariant IsRound(i, j) && (i == 2 || i <= num)
      invariant res == if i == 2 then 0 else IntResult(i - 1)
    {
      hide TruncDiv, IsRound;
      IntRound(i, j);
      res := TruncDiv(j * i - (j + i), j);
      NextRound(i, j);
      i := i + 1;
      j := j - i;
    }
  }

  // -------------------------------------------------------- floating-point kernel

  /** (j*k)/(j-i) with k == j/i. */
  function FloatScaled(i: real, j: real): real
    requires i != 0.0 && j - i != 0.0
  {
    var k := j / i;
    j * k / (j - i)
  }

  function FloatResult(i: real, j: real): real
    requires i != 0.0 && j - i != 0.0
  {
    FloatScaled(i, j) / i
  }

  lemma FloatBound(i: real, j: real)
    requires 0.0 < i && j - i != 0.0
    requires j > i || j * j < i * i * (i - j)
    ensures FloatResult(i, j) > -1.0
  {
    hide FloatScaled;
    ScaledResult(i, j);
    AboveMinusOne(FloatScaled(i, j), i);
  }

  lemma ScaledResult(i: real, j: real)
    requires 0.0 < i && j - i != 0.0
    requires j > i || j * j < i * i * (i - j)
    ensures FloatScaled(i, j) > -i
  {
    var k, d := j / i, j - i;
    QuotientTimes(j, i);
    var p := j * k;
    QuotientTimes(p, d);
    BoundScaled(i, j, k, p / d);
  }

  lemma AboveMinusOne(m: real, i: real)
    requires 0.0 < i && m > -i
    ensures m / i > -1.0
  {
    var f := m / i;
    assert f * i == m;
    assert f <= -1.0 ==> f * i <= -1.0 * i;
  }

  lemma BoundScaled(i: real, j: real, k: real, m: real)
    requires 0.0 < i && j - i != 0.0 && k * i == j && m * (j - i) == j * k
    requires j > i || j * j < i * i * (i - j)
    ensures m > -i
  {
    assert j * k * i == j * j;
    if j > i {
      assert 0.0 < k;
      assert 0.0 < j * k;
      assert m <= 0.0 ==> m * (j - i) <= 0.0;
    } else {
      var d := i - j;
      assert m * d * i == -(j * j);
      assert m <= -i ==> m * d <= -i * d;
      assert m * d <= -i * d ==> m * d * i <= -i * d * i;
    }
  }

  lemma SmallSquare(i: int, j: int)
    requires IsRound(i, j) && j < i
    ensures j * j < i * i * (i - j)
  {
    RoundBounds(i, j);
    if 142 <= i {
      var a := -j;
      assert a < i * i;
      assert a * a < i * i * a;
      assert i * i * (i - j) == i * i * i + i * i * a;
      assert 0 < i * i && 0 < i * i * i;
    }
  }

  lemma FloatRound(i: int, j: int)
    requires IsRound(i, j)
    ensures j as real - i as real != 0.0 && FloatResult(i as real, j as real) > -1.0
  {
    RoundBounds(i, j);
    if j < i {
      SmallSquare(i, j);
      ProductToReal(j, j);
      ProductToReal(i, i);
      ProductToReal(i * i, i - j);
    }
    FloatBound(i as real, j as real);
  }

  /** In closed form the result of round i is j*j / (i*i*(j-i)). */
  ghost predicate IsFloatResult(i: int, res: real) {
    exists j: int :: IsRound(i, j) && IsRatio(i as real, j as real, res)
  }

  predicate IsRatio(i: real, j: real, res: real) {
    res * (i * i * (j - i)) == j * j
  }

  lemma ClosedForm(i: real, j: real)
    requires i != 0.0 && j - i != 0.0
    ensures IsRatio(i, j, FloatResult(i, j))
  {
    var k, d := j / i, j - i;
    QuotientTimes(j, i);
    QuotientTimes(j * k, d);
    QuotientTimes(FloatScaled(i, j), i);
    Ratio(i, j, d, k, FloatScaled(i, j), FloatResult(i, j));
  }

  lemma Ratio(i: real, j: real, d: real, k: real, m: real, r: real)
    requires i * k == j && d * m == j * k && i * r == m
    ensures r * (i * i * d) == j * j
  {
    assert r * (i * i * d) == (i * r) * d * i;
    assert m * d * i == j * k * i;
    assert j * k * i == j * j;
  }

  /** Every division is safe, and the result stays above -1, so that no result is
      taken for an error. */
  method DoSimpleFloatOpern(num: int) returns (res: real)
    ensures if num <= 2 then res == 0.0 else IsFloatResult(num - 1, res)
    ensures res > -1.0 && res != ERROR as real
  {
    hide FloatResult, IsRatio;
    var i, j := 2.0, 10000.0;
    res := 0.0;
    ghost var round, left := 2, 10000;
    while i < num as real
      invariant IsRound(round, left) && i == round as real && j == left as real && res > -1.0
      invariant round == 2 || round <= num
      invariant if round == 2 then res == 0.0 else IsFloatResult(round - 1, res)
      decreases num - round
    {
      FloatRound(round, left);
      RoundBounds(round, left);
      NextRound(round, left);
      ClosedForm(i, j);
      res := FloatResult(i, j);
      assert IsFloatResult(round, res);
      i := i + 1.0;
      j := j - i;
      round, left := round + 1, left - (round + 1);
    }
  }
}
