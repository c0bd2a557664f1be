/** Integer division and multiplication facts used where divisors and factors are variables. */
module Arith {

  lemma AtLeastFactor(k: int, s: int)
    requires k >= 1 && s >= 1
    ensures k * s >= s
  {
  }

  lemma Distributes(q: int, p: int, s: int)
    ensures (q - p) * s == q * s - p * s
  {
  }

  lemma Division(a: int, s: int)
    requires s >= 1
    ensures a == (a / s) * s + a % s && 0 <= a % s < s
  {
  }

  lemma DivisionUnique(a: int, q: int, r: int, s: int)
    requires s >= 1 && a == q * s + r && 0 <= r < s
    ensures a / s == q && a % s == r
  {
    var p := a / s;
    Division(a, s);
    Distributes(q, p, s);
    Distributes(p, q, s);
    if q > p { AtLeastFactor(q - p, s); }
    if p > q { AtLeastFactor(p - q, s); }
  }

  function Pow10(n: nat): (p: int)
    ensures p >= 1
  {
    if n == 0 then 1 else 10 * Pow10(n - 1)
  }

  lemma {:induction false} Pow10Add(m: nat, n: nat)
    ensures Pow10(m) * Pow10(n) == Pow10(m + n)
  {
    if m > 0 {
      Pow10Add(m - 1, n);
      assert 10 * Pow10(m - 1) * Pow10(n) == 10 * (Pow10(m - 1) * Pow10(n));
    }
  }
}
