/** Powers of two, and a product's lower bound. */
module Powers {
  function Pow2(n: nat): (p: nat)
    ensures 1 <= p
  {
    if n == 0 then 1 else 2 * Pow2(n - 1)
  }

  lemma AtLeastOnce(times: int, b: nat)
    requires 1 <= times
    ensures b <= times * b
  {
  }

  lemma Halve(range: nat, half: nat, power: nat, total: nat)
    requires 2 * half <= range && range * power <= total
    ensures half * (2 * power) <= total
  {
    assert half * (2 * power) == (2 * half) * power;
    assert (2 * half) * power <= range * power;
  }
}
