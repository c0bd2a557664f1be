/** 64-bit two's-complement integers and truncating division. */
module Int64 {
  const MAX := 0x7FFF_FFFF_FFFF_FFFF
  const MIN := -0x8000_0000_0000_0000
  const PERIOD := 0x1_0000_0000_0000_0000

  predicate Fits(x: int) {
    MIN <= x <= MAX
  }

  /** The int64 an unbounded result wraps to. */
  function Wrap(x: int): (w: int)
    ensures Fits(w)
    ensures Fits(x) ==> w == x
    decreases if x < 0 then -2 * x else 2 * x + 1
  {
    if x > MAX then Wrap(x - 0x1_0000_0000_0000_0000)
    else if x < MIN then Wrap(x + 0x1_0000_0000_0000_0000)
    else x
  }

  lemma WrapPeriod(x: int)
    ensures Wrap(x + 0x1_0000_0000_0000_0000) == Wrap(x)
  {
  }

  lemma {:induction false} WrapAdds(x: int, y: int)
    ensures Wrap(Wrap(x) + y) == Wrap(x + y)
    decreases if x < 0 then -2 * x else 2 * x + 1
  {
    if x > MAX {
      WrapAdds(x - 0x1_0000_0000_0000_0000, y);
      WrapPeriod(x - 0x1_0000_0000_0000_0000 + y);
    } else if x < MIN {
      WrapAdds(x + 0x1_0000_0000_0000_0000, y);
      WrapPeriod(x + y);
    }
  }

  lemma {:induction false} WrapSubtracts(x: int, y: int)
    ensures Wrap(x - Wrap(y)) == Wrap(x - y)
    decreases if y < 0 then -2 * y else 2 * y + 1
  {
    if y > MAX {
      WrapSubtracts(x, y - 0x1_0000_0000_0000_0000);
      WrapPeriod(x - y);
    } else if y < MIN {
      WrapSubtracts(x, y + 0x1_0000_0000_0000_0000);
      WrapPeriod(x - y - 0x1_0000_0000_0000_0000);
    }
  }

  function Abs(x: int): nat {
    if x < 0 then -x else x
  }

  /** The quotient truncated toward zero. */
  function Quo(x: int, y: int): int
    requires y != 0
  {
    if (x < 0) == (y < 0) then Abs(x) / Abs(y) else -(Abs(x) / Abs(y))
  }

  /** The remainder, with the sign of `x`. */
  function Rem(x: int, y: int): int
    requires y != 0
  {
    if x < 0 then -(Abs(x) % Abs(y)) else Abs(x) % Abs(y)
  }
}
