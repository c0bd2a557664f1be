/** Ratios whose exact sum leaves int64: some amount is then always lost or refused by a panic. */
module RatioOverflow {
  import opened Allocate
  import opened Arith
  import opened Int64

  // ---- The order always exists ----

  /** An order of the first `i` indices. */
  ghost predicate Orders(order: seq<nat>, rem: seq<int>, i: nat) {
    && i <= |rem| && |order| == i
    && (forall k :: 0 <= k < |order| ==> order[k] < i)
    && (forall j, k :: 0 <= j < k < |order| ==> Precedes(rem, order[j], order[k]))
    && (forall x: nat :: x < i ==> x in order)
  }

  lemma {:induction false} PlaceFor(rem: seq<int>, order: seq<nat>, i: nat, from: nat) returns (p: nat)
    requires Orders(order, rem, i) && i < |rem| && from <= i
    requires forall k :: from <= k < i ==> Precedes(rem, i, order[k])
    ensures p <= i && (forall k :: p <= k < i ==> Precedes(rem, i, order[k]))
    ensures p > 0 ==> !Precedes(rem, i, order[p - 1])
  {
    if from > 0 && Precedes(rem, i, order[from - 1]) {
      p := PlaceFor(rem, order, i, from - 1);
    } else {
      p := from;
    }
  }

  lemma {:induction false} OrderExists(rem: seq<int>, i: nat) returns (order: seq<nat>)
    requires i <= |rem|
    ensures Orders(order, rem, i)
  {
    if i == 0 {
      order := [];
    } else {
      var before := OrderExists(rem, i - 1);
      var p := PlaceFor(rem, before, i - 1, i - 1);
      order := Inserted(rem, before, p, i - 1);
    }
  }

  // ---- A list of ratios and all amounts ----

  predicate Ratios(ratios: seq<int>) {
    && ratios != [] && |ratios| <= MAX && NonNegative(ratios) && (forall i :: 0 <= i < |ratios| ==> Fits(ratios[i]))
    && Wrap(Sum(ratios)) != 0
  }

  function RemaindersOf(amount: int, ratios: seq<int>): (rem: seq<int>)
    requires Wrap(Sum(ratios)) != 0
    ensures |rem| == |ratios|
  {
    Remainders(Wrap(Abs(amount)), ratios, Wrap(Sum(ratios)))
  }

  /** The call is accepted, does not panic, and its parts sum to the amount. */
  ghost predicate Conserves(amount: int, ratios: seq<int>, order: seq<nat>)
    requires Wrap(Sum(ratios)) != 0 && |order| == |ratios| && forall i :: 0 <= i < |order| ==> order[i] < |ratios|
  {
    var a, total := Wrap(Abs(amount)), Wrap(Sum(ratios));
    Leftover(a, ratios, total) <= |ratios| && Sum(WithSign(amount, Settled(a, ratios, total, order))) == amount
  }

  ghost predicate ConservesAll(ratios: seq<int>)
    requires Wrap(Sum(ratios)) != 0
  {
    forall amount: int, order: seq<nat> ::
      MIN < amount <= MAX && IsOrder(order, RemaindersOf(amount, ratios)) ==> Conserves(amount, ratios, order)
  }

  lemma SplittableConserves(ratios: seq<int>, amount: int, order: seq<nat>)
    requires Splittable(ratios) && MIN < amount <= MAX && IsOrder(order, RemaindersOf(amount, ratios))
    ensures Conserves(amount, ratios, order)
  {
    Settling(amount, ratios, order);
  }

  /** What an amount below the minimum's magnitude comes to when its shares leave nothing to hand out. */
  lemma PaidAsShared(amount: nat, total: int, ratios: seq<int>, order: seq<nat>, shares: seq<int>)
    requires amount <= MAX && total == Wrap(Sum(ratios)) != 0
    requires |order| == |ratios| && forall i :: 0 <= i < |order| ==> order[i] < |ratios|
    requires Floors(amount, ratios, total) == shares && Wrapped(shares) == shares && Wrap(amount - Sum(shares)) <= 0
    ensures Conserves(amount, ratios, order) <==> Sum(shares) == amount
  {
    NothingHandedOut(amount, total, ratios, order, shares);
  }

  lemma ExactShare(total: int, r: int)
    requires total != 0 && r >= 0
    ensures Quo(Abs(total) * r, total) == if total > 0 then r else -r
  {
    Scale(Abs(total), 0, r);
    DivisionUnique(Abs(total) * r, r, 0, Abs(total));
    if total < 0 && r > 0 { AtLeastFactor(r, Abs(total)); }
  }

  function Opposites(s: seq<int>): (r: seq<int>)
    ensures |r| == |s| && forall i :: 0 <= i < |r| ==> r[i] == -s[i]
  {
    seq(|s|, i requires 0 <= i < |s| => -s[i])
  }

  /** What splitting the wrapped sum itself leaves each part: its ratio, or its opposite. */
  function OwnShares(ratios: seq<int>): (r: seq<int>)
    ensures |r| == |ratios|
  {
    if Wrap(Sum(ratios)) > 0 then ratios else Opposites(ratios)
  }

  /** Splitting the wrapped sum itself gives each part its ratio, or its opposite. */
  lemma OwnFloors(ratios: seq<int>, total: int)
    requires Ratios(ratios) && total == Wrap(Sum(ratios)) != MIN
    ensures Floors(Abs(total), ratios, total) == OwnShares(ratios) && Wrapped(OwnShares(ratios)) == OwnShares(ratios)
  {
    var shares := OwnShares(ratios);
    var q := Floors(Abs(total), ratios, total);
    forall i | 0 <= i < |q| ensures q[i] == shares[i] {
      FloorAt(Abs(total), ratios, total, i);
      ExactShare(total, ratios[i]);
    }
    WrappedSame(shares);
  }

  /** They leave nothing to hand out. */
  lemma OwnLeftover(ratios: seq<int>, total: int)
    requires Ratios(ratios) && total == Wrap(Sum(ratios)) != MIN
    ensures Wrap(Abs(total) - Sum(OwnShares(ratios))) == 0
    ensures Sum(OwnShares(ratios)) == if total > 0 then Sum(ratios) else -Sum(ratios)
  {
    NoDifference(Sum(ratios));
    Mirrored(ratios, Opposites(ratios));
  }

  lemma NoDifference(x: int)
    ensures Wrap(Wrap(x) - x) == 0 && Wrap(x - Wrap(x)) == 0
  {
    WrapAdds(x, -x);
    WrapSubtracts(x, x);
  }

  lemma OwnSumLost(ratios: seq<int>, order: seq<nat>, total: int)
    requires Ratios(ratios) && !Splittable(ratios) && total == Wrap(Sum(ratios)) != MIN && |order| == |ratios|
    requires forall i :: 0 <= i < |order| ==> order[i] < |ratios|
    ensures MIN < Abs(total) <= MAX && !Conserves(Abs(total), ratios, order)
  {
    SumNonNegative(ratios);
    OwnFloors(ratios, total);
    OwnLeftover(ratios, total);
    PaidAsShared(Abs(total), total, ratios, order, OwnShares(ratios));
  }

  /** One less for each positive ratio. */
  function Lessened(ratios: seq<int>): (r: seq<int>)
    ensures |r| == |ratios| && forall i :: 0 <= i < |r| ==> r[i] == if ratios[i] > 0 then 1 - ratios[i] else 0
  {
    seq(|ratios|, i requires 0 <= i < |ratios| => if ratios[i] > 0 then 1 - ratios[i] else 0)
  }

  lemma {:induction false} SumLessened(ratios: seq<int>, r: seq<int>)
    requires NonNegative(ratios) && r == Lessened(ratios)
    ensures -Sum(ratios) <= Sum(r) <= |ratios| - Sum(ratios) && Sum(r) <= 0
  {
    if ratios != [] {
      var init := ratios[..|ratios| - 1];
      assert r[..|r| - 1] == Lessened(init);
      SumLessened(init, Lessened(init));
    }
  }

  lemma NearlyWhole(r: int)
    requires 0 <= r <= MAX
    ensures Quo(MAX * r, MIN) == if r > 0 then 1 - r else 0
  {
    if r > 0 { DivisionUnique(MAX * r, r - 1, -MIN - r, -MIN); }
  }

  lemma LargestFloors(ratios: seq<int>)
    requires Ratios(ratios) && Wrap(Sum(ratios)) == MIN
    ensures Floors(MAX, ratios, MIN) == Lessened(ratios) && Wrapped(Lessened(ratios)) == Lessened(ratios)
  {
    var q := Floors(MAX, ratios, MIN);
    forall i | 0 <= i < |q| ensures q[i] == Lessened(ratios)[i] {
      FloorAt(MAX, ratios, MIN, i);
      NearlyWhole(ratios[i]);
    }
    WrappedSame(Lessened(ratios));
  }

  lemma NegativeLeftover(sum: int, shares: int)
    requires Wrap(sum) == MIN && 0 <= sum + shares <= MAX
    ensures Wrap(MAX - shares) < 0
  {
    var z := sum + shares;
    WrapAdds(sum, MAX - z);
    assert Wrap(MIN + (MAX - z)) == -1 - z;
  }

  /** Where the sum wraps to the smallest int64, it is the largest amount that is lost: every share is
      nothing or negative, and nothing is handed out. */
  lemma LargestLost(ratios: seq<int>, order: seq<nat>)
    requires Ratios(ratios) && Wrap(Sum(ratios)) == MIN && |order| == |ratios|
    requires forall i :: 0 <= i < |order| ==> order[i] < |ratios|
    ensures !Conserves(MAX, ratios, order)
  {
    LargestFloors(ratios);
    SumLessened(ratios, Lessened(ratios));
    NegativeLeftover(Sum(ratios), Sum(Lessened(ratios)));
    PaidAsShared(MAX, MIN, ratios, order, Lessened(ratios));
  }

  /** Over all amounts but the minimum int64, accepted ratios lose nothing if and only if their exact sum
      fits int64. */
  lemma ConservesAllExactly(ratios: seq<int>)
    requires Ratios(ratios)
    ensures ConservesAll(ratios) <==> Splittable(ratios)
  {
    if Splittable(ratios) {
      forall amount: int, order: seq<nat> | MIN < amount <= MAX && IsOrder(order, RemaindersOf(amount, ratios))
        ensures Conserves(amount, ratios, order)
      {
        SplittableConserves(ratios, amount, order);
      }
    } else {
      var amount := if Wrap(Sum(ratios)) == MIN then MAX else Abs(Wrap(Sum(ratios)));
      var order := OrderExists(RemaindersOf(amount, ratios), |ratios|);
      assert IsOrder(order, RemaindersOf(amount, ratios));
      if amount == MAX && Wrap(Sum(ratios)) == MIN {
        LargestLost(ratios, order);
      } else {
        OwnSumLost(ratios, order, Wrap(Sum(ratios)));
      }
      assert MIN < amount <= MAX && !Conserves(amount, ratios, order);
    }
  }

  const THREE := [MAX, MAX, 3]

  lemma SumThree()
    ensures Sum(THREE) == PERIOD + 1 && Wrap(Sum(THREE)) == 1
  {
    assert THREE[..2] == [MAX, MAX] && THREE[..2][..1] == [MAX] && THREE[..1][..0] == [];
    assert Sum([MAX]) == MAX;
    assert Sum([MAX, MAX]) == MAX + MAX;
    WrapPeriod(1);
  }

  /** One minor unit over three ratios becomes 2^64 + 1 of them, with no error. */
  lemma OneBecomesMany(order: seq<nat>)
    requires |order| == |THREE| && forall i :: 0 <= i < |order| ==> order[i] < |THREE|
    ensures Ratios(THREE) && Wrap(Sum(THREE)) == 1
    ensures Leftover(1, THREE, 1) == 0 && Settled(1, THREE, 1, order) == THREE && Sum(THREE) == PERIOD + 1
  {
    SumThree();
    OwnFloors(THREE, 1);
    OwnLeftover(THREE, 1);
    NothingHandedOut(1, 1, THREE, order, THREE);
  }
}
