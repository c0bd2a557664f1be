/** Exact rounding of rationals, and currency conversion with it. A rational is a numerator over a positive denominator. */
module Rounding {
  import opened Arith
  import opened Int64

  /** A value outside the two declared modes truncates. */
  datatype Mode = HalfEven | HalfUp | Undeclared

  /** Round `num / den` to an integer. */
  function RoundRat(num: int, den: int, mode: Mode): int
    requires den > 0
  {
    var q, rem := Quo(num, den), Rem(num, den);
    if rem == 0 then q
    else
      var twice := 2 * Abs(rem);
      var away :=
        match mode
        case HalfUp => twice >= den
        case HalfEven => twice > den || (twice == den && q % 2 == 1)
        case Undeclared => false;
      if !away then q else if num < 0 then q - 1 else q + 1
  }

  /** Twice the distance from `r` to `num / den`, in units of `1 / den`. */
  function TwiceOff(num: int, den: int, r: int): nat {
    Abs(2 * (num - r * den))
  }

  /** `r` is nearest to `num / den`; of two equally near, the even one or the one farther from zero. */
  predicate IsNearest(num: int, den: int, mode: Mode, r: int) {
    && TwiceOff(num, den, r) <= den
    && (TwiceOff(num, den, r) == den ==>
          match mode
          case HalfEven => r % 2 == 0
          case HalfUp => Abs(r * den) > Abs(num)
          case Undeclared => true)
  }

  lemma TruncatedDivision(num: int, den: int)
    requires den > 0
    ensures num == Quo(num, den) * den + Rem(num, den)
    ensures Abs(Rem(num, den)) < den
    ensures if num >= 0 then Rem(num, den) >= 0 && Quo(num, den) >= 0 else Rem(num, den) <= 0 && Quo(num, den) <= 0
  {
    Division(Abs(num), den);
    var q := Abs(num) / den;
    if q < 0 { AtLeastFactor(-q, den); }
    assert -(q * den) == -q * den;
  }

  /** Rounding is to nearest with the declared tie rule. */
  lemma RoundsToNearest(num: int, den: int, mode: Mode)
    requires den > 0 && mode != Undeclared
    ensures IsNearest(num, den, mode, RoundRat(num, den, mode))
  {
    TruncatedDivision(num, den);
    RoundedQuotient(num, den, mode, Quo(num, den), Rem(num, den));
  }

  lemma RoundedQuotient(num: int, den: int, mode: Mode, q: int, rem: int)
    requires den > 0 && mode != Undeclared && num == q * den + rem && Abs(rem) < den
    requires if num >= 0 then rem >= 0 && q >= 0 else rem <= 0 && q <= 0
    requires q == Quo(num, den) && rem == Rem(num, den)
    ensures IsNearest(num, den, mode, RoundRat(num, den, mode))
  {
    Distributes(q, 1, den);
    Distributes(q, -1, den);
    if q > 0 { AtLeastFactor(q, den); }
    if q < 0 { AtLeastFactor(-q, den); }
  }

  /** The tie rule leaves one nearest integer. */
  lemma NearestUnique(num: int, den: int, mode: Mode, r: int, t: int)
    requires den > 0 && mode != Undeclared && IsNearest(num, den, mode, r) && IsNearest(num, den, mode, t)
    ensures r == t
  {
    if r < t { NearestNotBelow(num, den, mode, r, t); }
    if t < r { NearestNotBelow(num, den, mode, t, r); }
  }

  /** Two nearest integers one apart are both at a tie, which the rule breaks. */
  lemma NearestNotBelow(num: int, den: int, mode: Mode, r: int, t: int)
    requires den > 0 && mode != Undeclared && r < t
    requires IsNearest(num, den, mode, r)
    ensures !IsNearest(num, den, mode, t)
  {
    Distributes(t, r, den);
    AtLeastFactor(t - r, den);
    if t - r >= 2 {
      AtLeastFactor(t - r - 1, den);
      Distributes(t - r, 1, den);
    } else {
      SignOf(r, den);
      SignOf(t, den);
    }
  }

  lemma SignOf(r: int, den: int)
    requires den > 0
    ensures r > 0 ==> r * den >= den
    ensures r == 0 ==> r * den == 0
    ensures r < 0 ==> r * den <= -den
  {
    if r > 0 { AtLeastFactor(r, den); }
    if r < 0 { AtLeastFactor(-r, den); assert -r * den == -(r * den); }
  }

  lemma NearestMirrors(num: int, den: int, mode: Mode, r: int)
    requires IsNearest(num, den, mode, r)
    ensures IsNearest(-num, den, mode, -r)
  {
    assert -r * den == -(r * den);
  }

  lemma OddSymmetric(num: int, den: int, mode: Mode)
    requires den > 0 && mode != Undeclared
    ensures RoundRat(-num, den, mode) == -RoundRat(num, den, mode)
  {
    RoundsToNearest(num, den, mode);
    NearestMirrors(num, den, mode, RoundRat(num, den, mode));
    NearestIsRounded(-num, den, mode, -RoundRat(num, den, mode));
  }

  lemma NearestIsRounded(num: int, den: int, mode: Mode, r: int)
    requires den > 0 && mode != Undeclared && IsNearest(num, den, mode, r)
    ensures RoundRat(num, den, mode) == r
  {
    RoundsToNearest(num, den, mode);
    NearestUnique(num, den, mode, r, RoundRat(num, den, mode));
  }

  /** Only the value counts, not how the fraction is written, so reducing it first changes nothing. */
  lemma SameValueRoundsSame(num: int, den: int, k: int, mode: Mode)
    requires den > 0 && k > 0 && mode != Undeclared && den * k > 0
    ensures RoundRat(num * k, den * k, mode) == RoundRat(num, den, mode)
  {
    var r := RoundRat(num, den, mode);
    RoundsToNearest(num, den, mode);
    RoundsToNearest(num * k, den * k, mode);
    ScaledNearest(num, den, k, mode, r);
    NearestUnique(num * k, den * k, mode, r, RoundRat(num * k, den * k, mode));
  }

  lemma ScaledNearest(num: int, den: int, k: int, mode: Mode, r: int)
    requires den > 0 && k > 0 && IsNearest(num, den, mode, r)
    ensures IsNearest(num * k, den * k, mode, r)
  {
    assert r * (den * k) == (r * den) * k;
    Distributes(num, r * den, k);
    var off := 2 * (num - r * den);
    assert 2 * (num * k - r * (den * k)) == off * k;
    ScaledAbs(off, k);
    ScaledAbs(r * den, k);
    ScaledAbs(num, k);
    ScaleOrder(Abs(off), den, k);
    ScaleOrder(Abs(num), Abs(r * den), k);
  }

  lemma ScaledAbs(x: int, k: int)
    requires k > 0
    ensures Abs(x * k) == Abs(x) * k
  {
    if x > 0 { AtLeastFactor(x, k); }
    if x < 0 { AtLeastFactor(-x, k); assert -x * k == -(x * k); }
  }

  lemma ScaleOrder(x: int, y: int, k: int)
    requires k > 0
    ensures x < y <==> x * k < y * k
    ensures x == y <==> x * k == y * k
  {
    Distributes(x, y, k);
    if x < y { AtLeastFactor(y - x, k); Distributes(y, x, k); }
    if x > y { AtLeastFactor(x - y, k); }
  }

  // ---- Conversion ----

  datatype Money = Money(amount: int, currency: string)

  datatype Rate = Rate(num: int, den: int)

  datatype Result = Converted(money: Money) | UnknownCurrency | BadRate | Overflow

  /** One source minor unit is worth `num / den` target minor units. */
  function Scale(rate: Rate, srcDigits: nat, tgtDigits: nat): Rate {
    if tgtDigits > srcDigits then Rate(rate.num * Pow10(tgtDigits - srcDigits), rate.den)
    else if tgtDigits < srcDigits then Rate(rate.num, rate.den * Pow10(srcDigits - tgtDigits))
    else rate
  }

  lemma ScalePositive(rate: Rate, srcDigits: nat, tgtDigits: nat)
    requires rate.num > 0 && rate.den > 0
    ensures Scale(rate, srcDigits, tgtDigits).num > 0 && Scale(rate, srcDigits, tgtDigits).den > 0
  {
    if tgtDigits > srcDigits { AtLeastFactor(rate.num, Pow10(tgtDigits - srcDigits)); }
    if tgtDigits < srcDigits { AtLeastFactor(rate.den, Pow10(srcDigits - tgtDigits)); }
  }

  /** `digits` is the ISO 4217 table of minor units. */
  function Convert(digits: map<string, nat>, m: Money, rate: Rate, target: string, mode: Mode): Result
    requires rate.den > 0
  {
    if m.currency !in digits || target !in digits then UnknownCurrency
    else if rate.num <= 0 then BadRate
    else
      ScalePositive(rate, digits[m.currency], digits[target]);
      var s := Scale(rate, digits[m.currency], digits[target]);
      var q := RoundRat(m.amount * s.num, s.den, mode);
      if Fits(q) then Converted(Money(q, target)) else Overflow
  }

  function Inverse(rate: Rate): Rate {
    Rate(rate.den, rate.num)
  }

  /** There and back at the exact inverse scale, each way at most half a unit off. */
  lemma ThereAndBack(x: int, num: int, den: int, there: int, back: int)
    requires num > 0 && den > 0
    requires -den <= 2 * (x * num - there * den) <= den
    requires -num <= 2 * (there * den - back * num) <= num
    ensures 2 * Abs(back - x) * num <= num + den
    ensures num >= den ==> back == x
  {
    var xn, td, bn := x * num, there * den, back * num;
    Distributes(back, x, num);
    assert -(num + den) <= 2 * (bn - xn) <= num + den;
    Bounded(back - x, num, num + den);
    if num > den {
      NearZero(back - x, num);
    } else if num == den {
      SameScale(x, there, back, num);
    }
  }

  lemma SameScale(x: int, there: int, back: int, num: int)
    requires num > 0
    requires -num <= 2 * (x * num - there * num) <= num
    requires -num <= 2 * (there * num - back * num) <= num
    ensures back == x
  {
    Distributes(x, there, num);
    Distributes(there, back, num);
    NearZero(x - there, num);
    NearZero(there - back, num);
  }

  lemma Bounded(off: int, num: int, bound: int)
    requires num > 0 && -bound <= 2 * (off * num) <= bound
    ensures 2 * Abs(off) * num <= bound
  {
    ScaledAbs(off, num);
    assert 2 * Abs(off) * num == 2 * (Abs(off) * num);
  }

  lemma NearZero(off: int, num: int)
    requires num > 0 && -2 * num < 2 * (off * num) < 2 * num
    ensures off == 0
  {
    SignOf(off, num);
  }

  /** A scaled fraction is the one over both powers of ten, reduced by the smaller of them. */
  lemma ScaleIsRatio(rate: Rate, srcDigits: nat, tgtDigits: nat)
    ensures
      var s, k := Scale(rate, srcDigits, tgtDigits), Pow10(if srcDigits < tgtDigits then srcDigits else tgtDigits);
      k > 0 && s.num * k == rate.num * Pow10(tgtDigits) && s.den * k == rate.den * Pow10(srcDigits)
  {
    if tgtDigits > srcDigits {
      Pow10Add(tgtDigits - srcDigits, srcDigits);
      assert rate.num * Pow10(tgtDigits - srcDigits) * Pow10(srcDigits) == rate.num * (Pow10(tgtDigits - srcDigits) * Pow10(srcDigits));
    } else if tgtDigits < srcDigits {
      Pow10Add(srcDigits - tgtDigits, tgtDigits);
      assert rate.den * Pow10(srcDigits - tgtDigits) * Pow10(tgtDigits) == rate.den * (Pow10(srcDigits - tgtDigits) * Pow10(tgtDigits));
    }
  }

  lemma ReducedRounds(num: int, den: int, k: int, mode: Mode, bigNum: int, bigDen: int, r: int)
    requires den > 0 && k > 0 && mode != Undeclared
    requires bigNum == num * k && bigDen == den * k && IsNearest(bigNum, bigDen, mode, r)
    ensures RoundRat(num, den, mode) == r
  {
    AtLeastFactor(den, k);
    NearestIsRounded(bigNum, bigDen, mode, r);
    SameValueRoundsSame(num, den, k, mode);
  }

  lemma Regroup(amount: int, num: int, power: int, scaled: int, k: int)
    requires scaled * k == num * power
    ensures amount * num * power == amount * scaled * k
  {
    assert amount * num * power == amount * (num * power);
    assert amount * scaled * k == amount * (scaled * k);
  }

  /** What a conversion is nearest to: the amount in units of the source currency, times the rate, in
      minor units of the target. It is refused exactly when that nearest integer leaves the int64 range. */
  lemma ConvertExact(digits: map<string, nat>, m: Money, rate: Rate, target: string, mode: Mode, r: int)
    requires rate.num > 0 && rate.den > 0 && mode != Undeclared
    requires m.currency in digits && target in digits
    requires IsNearest(m.amount * rate.num * Pow10(digits[target]), rate.den * Pow10(digits[m.currency]), mode, r)
    ensures Convert(digits, m, rate, target, mode) == if Fits(r) then Converted(Money(r, target)) else Overflow
  {
    var s := Scale(rate, digits[m.currency], digits[target]);
    var k := Pow10(if digits[m.currency] < digits[target] then digits[m.currency] else digits[target]);
    ScalePositive(rate, digits[m.currency], digits[target]);
    ScaleIsRatio(rate, digits[m.currency], digits[target]);
    Regroup(m.amount, rate.num, Pow10(digits[target]), s.num, k);
    ReducedRounds(m.amount * s.num, s.den, k, mode, m.amount * rate.num * Pow10(digits[target]), rate.den * Pow10(digits[m.currency]), r);
  }

  /** Before any arithmetic: both currencies are known, and the rate is positive. */
  lemma ConvertRefuses(digits: map<string, nat>, m: Money, rate: Rate, target: string, mode: Mode)
    requires rate.den > 0
    ensures
      var r := Convert(digits, m, rate, target, mode);
      && (r == UnknownCurrency <==> m.currency !in digits || target !in digits)
      && (r == BadRate <==> m.currency in digits && target in digits && rate.num <= 0)
  {
  }

  /** Converting there and back at a rate and its exact inverse is exact when a source minor unit is
      worth at least one target minor unit, and otherwise off by at most 1/(2s) + 1/2, where s is
      what it is worth: the rate times ten to the difference of the digits. */
  lemma ConvertRoundTrip(digits: map<string, nat>, m: Money, rate: Rate, target: string, mode: Mode)
    requires rate.num > 0 && rate.den > 0 && mode != Undeclared
    requires m.currency in digits && target in digits
    requires Convert(digits, m, rate, target, mode).Converted?
    requires Convert(digits, Convert(digits, m, rate, target, mode).money, Inverse(rate), m.currency, mode).Converted?
    ensures
      var back := Convert(digits, Convert(digits, m, rate, target, mode).money, Inverse(rate), m.currency, mode).money;
      var num, den := rate.num * Pow10(digits[target]), rate.den * Pow10(digits[m.currency]);
      && back.currency == m.currency
      && 2 * Abs(back.amount - m.amount) * num <= num + den
      && (num >= den ==> back == m)
  {
    var s := Scale(rate, digits[m.currency], digits[target]);
    var k := Pow10(if digits[m.currency] < digits[target] then digits[m.currency] else digits[target]);
    ScalePositive(rate, digits[m.currency], digits[target]);
    ScaleIsRatio(rate, digits[m.currency], digits[target]);
    assert Scale(Inverse(rate), digits[target], digits[m.currency]) == Inverse(s);
    var there := RoundRat(m.amount * s.num, s.den, mode);
    RoundsToNearest(m.amount * s.num, s.den, mode);
    RoundsToNearest(there * s.den, s.num, mode);
    var back := RoundRat(there * s.den, s.num, mode);
    ThereAndBack(m.amount, s.num, s.den, there, back);
    ScaledBound(2 * Abs(back - m.amount), s.num, s.den, k);
  }

  lemma ScaledBound(off: nat, num: int, den: int, k: int)
    requires k > 0 && off * num <= num + den
    ensures off * (num * k) <= num * k + den * k
    ensures num >= den <==> num * k >= den * k
  {
    ScaleOrder(off * num, num + den, k);
    ScaleOrder(num, den, k);
    assert off * (num * k) == off * num * k && (num + den) * k == num * k + den * k;
  }
}
