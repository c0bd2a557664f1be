/** Splitting an amount of minor units in proportion to ratios, by largest remainder, in 64-bit integers. */
module Allocate {
  import opened Arith
  import opened Int64

  function Sum(s: seq<int>): int {
    if s == [] then 0 else Sum(s[..|s| - 1]) + s[|s| - 1]
  }

  lemma {:induction false} SumUpdate(s: seq<int>, k: nat, x: int)
    requires k < |s|
    ensures Sum(s[k := x]) == Sum(s) - s[k] + x
  {
    var t := s[k := x];
    if k < |s| - 1 {
      assert t[..|s| - 1] == s[..|s| - 1][k := x];
      SumUpdate(s[..|s| - 1], k, x);
    } else {
      assert t[..|s| - 1] == s[..|s| - 1];
    }
  }

  lemma {:induction false} SumAtMost(s: seq<int>, t: seq<int>)
    requires |s| == |t| && forall i :: 0 <= i < |s| ==> s[i] <= t[i]
    ensures Sum(s) <= Sum(t)
    ensures (exists i :: 0 <= i < |s| && s[i] < t[i]) ==> Sum(s) < Sum(t)
  {
    if s != [] {
      SumAtMost(s[..|s| - 1], t[..|t| - 1]);
      if i :| 0 <= i < |s| && s[i] < t[i] {
        assert i < |s| - 1 ==> s[..|s| - 1][i] < t[..|t| - 1][i];
      }
    }
  }

  predicate NonNegative(s: seq<int>) {
    forall i :: 0 <= i < |s| ==> s[i] >= 0
  }

  lemma {:induction false} SumBounds(s: seq<int>, k: nat)
    requires NonNegative(s) && k < |s|
    ensures s[k] <= Sum(s)
    ensures s[k] == Sum(s) ==> forall i :: 0 <= i < |s| && i != k ==> s[i] == 0
  {
    var init := s[..|s| - 1];
    SumNonNegative(init);
    if k < |init| {
      SumBounds(init, k);
      assert init[k] == s[k];
    } else if Sum(init) == 0 {
      AllZero(init);
    }
    assert forall i :: 0 <= i < |init| ==> init[i] == s[i];
  }

  lemma {:induction false} SumNonNegative(s: seq<int>)
    requires NonNegative(s)
    ensures Sum(s) >= 0
  {
    if s != [] { SumNonNegative(s[..|s| - 1]); }
  }

  lemma {:induction false} AllZero(s: seq<int>)
    requires NonNegative(s) && Sum(s) == 0
    ensures forall i :: 0 <= i < |s| ==> s[i] == 0
  {
    if s != [] {
      SumNonNegative(s[..|s| - 1]);
      AllZero(s[..|s| - 1]);
      assert forall i :: 0 <= i < |s| - 1 ==> s[..|s| - 1][i] == s[i];
    }
  }

  // ---- Largest remainder ----

  function Floors(a: int, ratios: seq<int>, total: int): (q: seq<int>)
    requires total != 0
    ensures |q| == |ratios|
  {
    if ratios == [] then [] else Floors(a, ratios[..|ratios| - 1], total) + [Quo(a * ratios[|ratios| - 1], total)]
  }

  function Remainders(a: int, ratios: seq<int>, total: int): (r: seq<int>)
    requires total != 0
    ensures |r| == |ratios|
  {
    if ratios == [] then [] else Remainders(a, ratios[..|ratios| - 1], total) + [Rem(a * ratios[|ratios| - 1], total)]
  }

  lemma {:induction false} FloorAt(a: int, ratios: seq<int>, total: int, i: nat)
    requires total != 0 && i < |ratios|
    ensures Floors(a, ratios, total)[i] == Quo(a * ratios[i], total)
    ensures Remainders(a, ratios, total)[i] == Rem(a * ratios[i], total)
  {
    if i < |ratios| - 1 {
      FloorAt(a, ratios[..|ratios| - 1], total, i);
    }
  }

  /** Part `i` is served before part `j`: the larger remainder first, ties to the lower index. */
  predicate Precedes(rem: seq<int>, i: int, j: int)
    requires 0 <= i < |rem| && 0 <= j < |rem|
  {
    rem[i] > rem[j] || (rem[i] == rem[j] && i < j)
  }

  /** What the callers of an allocation may assume: ratios whose exact sum is a positive int64. */
  predicate Splittable(ratios: seq<int>) {
    NonNegative(ratios) && 0 < Sum(ratios) <= MAX
  }

  /** Every part is its floor or one more, and the parts raised are those served first. */
  ghost predicate Served(q: seq<int>, rem: seq<int>, parts: seq<int>) {
    && |q| == |rem| == |parts|
    && (forall i :: 0 <= i < |parts| ==> parts[i] == q[i] || parts[i] == q[i] + 1)
    && (forall i, j :: 0 <= i < |parts| && 0 <= j < |parts| && parts[i] == q[i] + 1 && parts[j] == q[j] ==> Precedes(rem, i, j))
  }

  /** `parts` splits the magnitude `a` by largest remainder. */
  ghost predicate LargestRemainder(a: nat, ratios: seq<int>, parts: seq<int>)
    requires Splittable(ratios)
  {
    Sum(parts) == a && Served(Floors(a, ratios, Sum(ratios)), Remainders(a, ratios, Sum(ratios)), parts)
  }

  /** The exact share of a part is its floor plus its remainder over the total. */
  lemma Shares(a: nat, ratios: seq<int>, i: nat)
    requires Splittable(ratios) && i < |ratios|
    ensures
      var total := Sum(ratios);
      var q, rem := Floors(a, ratios, total)[i], Remainders(a, ratios, total)[i];
      a * ratios[i] == q * total + rem && 0 <= rem < total && 0 <= q <= a
  {
    var total := Sum(ratios);
    FloorAt(a, ratios, total, i);
    SumBounds(ratios, i);
    Scale(a, 0, ratios[i]);
    Division(a * ratios[i], total);
    Scale(a, ratios[i], total);
    QuotientBounds(a * ratios[i], a, total);
  }

  lemma Scale(a: nat, x: int, y: int)
    requires x <= y
    ensures a * x <= a * y
  {
  }

  lemma QuotientBounds(x: int, a: nat, total: int)
    requires total > 0 && 0 <= x <= a * total
    ensures 0 <= x / total <= a
  {
    Division(x, total);
    var q := x / total;
    if q > a {
      Distributes(q, a, total);
      AtLeastFactor(q - a, total);
    }
    if q < 0 {
      AtLeastFactor(-q, total);
    }
  }

  lemma SumStep(s: seq<int>, n: nat)
    requires 0 < n <= |s|
    ensures Sum(s[..n]) == Sum(s[..n - 1]) + s[n - 1]
  {
    assert s[..n][..n - 1] == s[..n - 1];
  }

  /** The minor units lost to flooring are the remainders' sum over the total. */
  lemma {:induction false} LeftoverIdentity(a: nat, ratios: seq<int>, n: nat)
    requires Splittable(ratios) && n <= |ratios|
    ensures
      var total := Sum(ratios);
      Sum(Floors(a, ratios, total)[..n]) * total + Sum(Remainders(a, ratios, total)[..n]) == a * Sum(ratios[..n])
  {
    var total := Sum(ratios);
    var q, rem := Floors(a, ratios, total), Remainders(a, ratios, total);
    if n > 0 {
      LeftoverIdentity(a, ratios, n - 1);
      Shares(a, ratios, n - 1);
      SumStep(q, n);
      SumStep(rem, n);
      SumStep(ratios, n);
      LeftoverStep(a, total, Sum(q[..n - 1]), Sum(rem[..n - 1]), Sum(ratios[..n - 1]), q[n - 1], rem[n - 1], ratios[n - 1]);
    }
  }

  lemma LeftoverStep(a: int, total: int, qs: int, rems: int, rs: int, q: int, rem: int, r: int)
    requires qs * total + rems == a * rs && a * r == q * total + rem
    ensures (qs + q) * total + (rems + rem) == a * (rs + r)
  {
    Distributes(qs, -q, total);
    DistributesLeft(a, rs, r);
  }

  lemma DistributesLeft(a: int, x: int, y: int)
    ensures a * (x + y) == a * x + a * y
  {
  }

  function Constant(n: nat, c: int): (s: seq<int>)
    ensures |s| == n && forall i :: 0 <= i < n ==> s[i] == c
  {
    seq(n, _ => c)
  }

  lemma {:induction false} SumConstant(n: nat, c: int)
    ensures Sum(Constant(n, c)) == n * c
  {
    if n > 0 {
      SumConstant(n - 1, c);
      assert Constant(n, c)[..n - 1] == Constant(n - 1, c);
    }
  }

  /** Floors and remainders account for the whole amount. */
  ghost predicate Accounts(a: nat, total: int, q: seq<int>, rem: seq<int>) {
    && |q| == |rem| > 0 && total > 0
    && (forall i :: 0 <= i < |rem| ==> 0 <= rem[i] < total && 0 <= q[i] <= a)
    && (a - Sum(q)) * total == Sum(rem)
  }

  lemma SplitAccounts(a: nat, ratios: seq<int>)
    requires Splittable(ratios)
    ensures Accounts(a, Sum(ratios), Floors(a, ratios, Sum(ratios)), Remainders(a, ratios, Sum(ratios)))
  {
    var total := Sum(ratios);
    var q, rem := Floors(a, ratios, total), Remainders(a, ratios, total);
    LeftoverIdentity(a, ratios, |ratios|);
    assert q[..|ratios|] == q && rem[..|ratios|] == rem && ratios[..|ratios|] == ratios;
    Distributes(a, Sum(q), total);
    forall i | 0 <= i < |ratios| ensures 0 <= rem[i] < total && 0 <= q[i] <= a {
      Shares(a, ratios, i);
    }
  }

  /** The leftover is in [0, n-1], so handing it out stays in bounds. */
  lemma LeftoverInBounds(a: nat, total: int, q: seq<int>, rem: seq<int>)
    requires Accounts(a, total, q, rem)
    ensures 0 <= a - Sum(q) < |q|
  {
    SumNonNegative(rem);
    SumAtMost(rem, Constant(|rem|, total));
    assert rem[0] < Constant(|rem|, total)[0];
    SumConstant(|rem|, total);
    Cancel(a - Sum(q), |q|, total, Sum(rem));
  }

  lemma Cancel(x: int, n: nat, total: int, rems: int)
    requires total > 0 && x * total == rems && 0 <= rems < n * total
    ensures 0 <= x < n
  {
    if x < 0 { AtLeastFactor(-x, total); }
    if x >= n { Distributes(x, n, total); if x > n { AtLeastFactor(x - n, total); } }
  }

  // ---- What an allocation by largest remainder means ----

  /** A part whose exact share is whole gets exactly that. */
  lemma WholeShareExact(a: nat, total: int, q: seq<int>, rem: seq<int>, parts: seq<int>, i: nat)
    requires Accounts(a, total, q, rem) && Served(q, rem, parts) && Sum(parts) == a
    requires i < |q| && rem[i] == 0
    ensures parts[i] == q[i]
  {
    if parts[i] == q[i] + 1 {
      var raised := Raised(parts, q, total);
      forall k | 0 <= k < |parts| ensures rem[k] <= raised[k] {
        if parts[k] == q[k] { assert Precedes(rem, i, k); }
      }
      SumAtMost(rem, raised);
      SumRaised(parts, q, total);
    }
  }

  function Raised(parts: seq<int>, q: seq<int>, total: int): (r: seq<int>)
    requires |parts| == |q|
    ensures |r| == |parts| && forall k :: 0 <= k < |r| ==> r[k] == (parts[k] - q[k]) * total
    ensures forall k :: 0 <= k < |r| && parts[k] == q[k] ==> r[k] == 0
    ensures forall k :: 0 <= k < |r| && parts[k] == q[k] + 1 ==> r[k] == total
  {
    seq(|parts|, k requires 0 <= k < |parts| => (parts[k] - q[k]) * total)
  }

  lemma {:induction false} SumRaised(parts: seq<int>, q: seq<int>, total: int)
    requires |parts| == |q|
    ensures Sum(Raised(parts, q, total)) == (Sum(parts) - Sum(q)) * total
  {
    if parts != [] {
      var n := |parts| - 1;
      SumRaised(parts[..n], q[..n], total);
      assert Raised(parts, q, total)[..n] == Raised(parts[..n], q[..n], total);
      Distributes(Sum(parts[..n]) - Sum(q[..n]), -(parts[n] - q[n]), total);
    }
  }

  /** Each part is the floor or the ceiling of its exact share. */
  lemma FloorOrCeiling(a: nat, ratios: seq<int>, parts: seq<int>, i: nat)
    requires Splittable(ratios) && LargestRemainder(a, ratios, parts) && i < |ratios|
    ensures (parts[i] - 1) * Sum(ratios) < a * ratios[i] < (parts[i] + 1) * Sum(ratios)
  {
    var total := Sum(ratios);
    var q, rem := Floors(a, ratios, total), Remainders(a, ratios, total);
    Shares(a, ratios, i);
    SplitAccounts(a, ratios);
    ServedShare(a, total, q, rem, parts, i, a * ratios[i]);
  }

  lemma ServedShare(a: nat, total: int, q: seq<int>, rem: seq<int>, parts: seq<int>, i: nat, share: int)
    requires Accounts(a, total, q, rem) && Served(q, rem, parts) && Sum(parts) == a && i < |q|
    requires share == q[i] * total + rem[i]
    ensures (parts[i] - 1) * total < share < (parts[i] + 1) * total
  {
    if rem[i] == 0 { WholeShareExact(a, total, q, rem, parts, i); }
    NearShare(share, q[i], rem[i], parts[i], total);
  }

  /** A zero ratio gets exactly nothing. */
  lemma ZeroRatioNothing(a: nat, ratios: seq<int>, parts: seq<int>, i: nat)
    requires Splittable(ratios) && LargestRemainder(a, ratios, parts) && i < |ratios| && ratios[i] == 0
    ensures parts[i] == 0
  {
    var total := Sum(ratios);
    FloorAt(a, ratios, total, i);
    DivisionUnique(0, 0, 0, total);
    SplitAccounts(a, ratios);
    WholeShareExact(a, total, Floors(a, ratios, total), Remainders(a, ratios, total), parts, i);
  }

  lemma NearShare(share: int, q: int, rem: int, part: int, total: int)
    requires share == q * total + rem && 0 <= rem < total
    requires part == q || (part == q + 1 && rem > 0)
    ensures (part - 1) * total < share < (part + 1) * total
  {
    Distributes(q, 1, total);
    Distributes(q, -1, total);
    Distributes(q, -2, total);
  }

  /** A larger ratio never gets a smaller part. */
  lemma LargerRatioNotLess(a: nat, ratios: seq<int>, parts: seq<int>, i: nat, j: nat)
    requires Splittable(ratios) && LargestRemainder(a, ratios, parts) && i < |ratios| && j < |ratios|
    requires ratios[i] > ratios[j]
    ensures parts[i] >= parts[j]
  {
    var total := Sum(ratios);
    var q, rem := Floors(a, ratios, total), Remainders(a, ratios, total);
    Shares(a, ratios, i);
    Shares(a, ratios, j);
    SplitAccounts(a, ratios);
    LargerShare(a, ratios[i], ratios[j], q[i], q[j], rem[i], rem[j], total);
    ServedInOrder(a, total, q, rem, parts, i, j);
  }

  lemma LargerShare(a: nat, ri: int, rj: int, qi: int, qj: int, mi: int, mj: int, total: int)
    requires ri > rj && a * ri == qi * total + mi && a * rj == qj * total + mj
    requires 0 <= mi < total && 0 <= mj < total
    ensures qi > qj || (qi == qj && (mi > mj || (mi == 0 && mj == 0)))
  {
    DistributesLeft(a, ri, -rj);
    if a == 0 {
      DivisionUnique(0, qi, mi, total);
      DivisionUnique(0, qj, mj, total);
      DivisionUnique(0, 0, 0, total);
    } else {
      AtLeastFactor(ri - rj, a);
      if qi < qj {
        Distributes(qj, qi, total);
        AtLeastFactor(qj - qi, total);
      }
    }
  }

  lemma ServedInOrder(a: nat, total: int, q: seq<int>, rem: seq<int>, parts: seq<int>, i: nat, j: nat)
    requires Accounts(a, total, q, rem) && Served(q, rem, parts) && Sum(parts) == a && i < |q| && j < |q|
    requires q[i] > q[j] || (q[i] == q[j] && (rem[i] > rem[j] || (rem[i] == 0 && rem[j] == 0)))
    ensures parts[i] >= parts[j]
  {
    if rem[j] == 0 { WholeShareExact(a, total, q, rem, parts, j); }
  }

  /** Conservation and the serving order leave only one allocation. */
  lemma AllocationUnique(a: nat, ratios: seq<int>, p: seq<int>, r: seq<int>)
    requires Splittable(ratios) && LargestRemainder(a, ratios, p) && LargestRemainder(a, ratios, r)
    ensures p == r
  {
    var q, rem := Floors(a, ratios, Sum(ratios)), Remainders(a, ratios, Sum(ratios));
    NotAbove(q, rem, p, r);
    NotAbove(q, rem, r, p);
    assert forall i :: 0 <= i < |p| ==> p[i] <= r[i] && r[i] <= p[i];
  }

  lemma NotAbove(q: seq<int>, rem: seq<int>, p: seq<int>, r: seq<int>)
    requires Served(q, rem, p) && Served(q, rem, r) && Sum(p) == Sum(r)
    ensures forall i :: 0 <= i < |p| ==> p[i] <= r[i]
  {
    if i :| 0 <= i < |p| && p[i] > r[i] {
      forall j | 0 <= j < |p| ensures r[j] <= p[j] {
        RaisedTogether(q, rem, p, r, i, j);
      }
      SumAtMost(r, p);
    }
  }

  lemma RaisedTogether(q: seq<int>, rem: seq<int>, p: seq<int>, r: seq<int>, i: nat, j: nat)
    requires Served(q, rem, p) && Served(q, rem, r) && i < |q| && j < |q| && p[i] > r[i]
    ensures r[j] <= p[j]
  {
    assert p[j] == q[j] ==> Precedes(rem, i, j);
    assert r[j] == q[j] + 1 ==> Precedes(rem, j, i);
  }

  // ---- The algorithm ----

  /** `order` lists every index once, in serving order: what a stable sort by descending remainder leaves. */
  ghost predicate IsOrder(order: seq<nat>, rem: seq<int>) {
    && |order| == |rem|
    && (forall k :: 0 <= k < |order| ==> order[k] < |rem|)
    && (forall j, k :: 0 <= j < k < |order| ==> Precedes(rem, order[j], order[k]))
    && (forall i: nat :: i < |rem| ==> i in order)
  }

  /** An insertion sort: each index goes after every index it does not precede. */
  method SliceStable(rem: seq<int>) returns (order: seq<nat>)
    ensures IsOrder(order, rem)
  {
    order := [];
    for i := 0 to |rem|
      invariant |order| == i
      invariant forall k :: 0 <= k < |order| ==> order[k] < i
      invariant forall j, k :: 0 <= j < k < |order| ==> Precedes(rem, order[j], order[k])
      invariant forall x: nat :: x < i ==> x in order
    {
      var p := i;
      while p > 0 && Precedes(rem, i, order[p - 1])
        invariant 0 <= p <= i
        invariant forall k :: p <= k < i ==> Precedes(rem, i, order[k])
      {
        p := p - 1;
      }
      order := Inserted(rem, order, p, i);
    }
  }

  lemma InsertKeepsMembers(order: seq<nat>, p: nat, i: nat, x: nat)
    requires p <= |order| && (x in order || x == i)
    ensures x in order[..p] + [i] + order[p..]
  {
    if x in order {
      var k :| 0 <= k < |order| && order[k] == x;
      assert k < p ==> (order[..p] + [i] + order[p..])[k] == x;
      assert k >= p ==> (order[..p] + [i] + order[p..])[k + 1] == x;
    } else {
      assert (order[..p] + [i] + order[p..])[p] == i;
    }
  }

  function Inserted(rem: seq<int>, order: seq<nat>, p: nat, i: nat): (r: seq<nat>)
    requires |order| == i < |rem| && p <= i
    requires forall k :: 0 <= k < |order| ==> order[k] < i
    requires forall j, k :: 0 <= j < k < |order| ==> Precedes(rem, order[j], order[k])
    requires forall k :: p <= k < i ==> Precedes(rem, i, order[k])
    requires p > 0 ==> !Precedes(rem, i, order[p - 1])
    requires forall x: nat :: x < i ==> x in order
    ensures |r| == i + 1
    ensures forall k :: 0 <= k < |r| ==> r[k] < i + 1
    ensures forall j, k :: 0 <= j < k < |r| ==> Precedes(rem, r[j], r[k])
    ensures forall x: nat :: x < i + 1 ==> x in r
  {
    assert forall x: nat :: x < i + 1 ==> x in order[..p] + [i] + order[p..] by {
      forall x: nat | x < i + 1 ensures x in order[..p] + [i] + order[p..] { InsertKeepsMembers(order, p, i, x); }
    }
    assert forall k :: 0 <= k < p ==> Precedes(rem, order[k], i) by {
      forall k | 0 <= k < p ensures Precedes(rem, order[k], i) {
        if k < p - 1 { assert Precedes(rem, order[k], order[p - 1]); }
      }
    }
    order[..p] + [i] + order[p..]
  }

  function Wrapped(s: seq<int>): (w: seq<int>)
    ensures |w| == |s|
  {
    if s == [] then [] else Wrapped(s[..|s| - 1]) + [Wrap(s[|s| - 1])]
  }

  lemma {:induction false} WrappedAt(s: seq<int>, i: nat)
    requires i < |s|
    ensures Wrapped(s)[i] == Wrap(s[i])
  {
    if i < |s| - 1 { WrappedAt(s[..|s| - 1], i); }
  }

  lemma {:induction false} WrappedSame(s: seq<int>)
    requires forall i :: 0 <= i < |s| ==> Fits(s[i])
    ensures Wrapped(s) == s
  {
    if s != [] { WrappedSame(s[..|s| - 1]); }
  }

  /** The minor units left to hand out, as the int64 subtraction sees them. */
  function Leftover(a: int, ratios: seq<int>, total: int): int
    requires total != 0
  {
    Wrap(a - Sum(Wrapped(Floors(a, ratios, total))))
  }

  /** The first `k` indices of `order` are raised by one. */
  function Raise(parts: seq<int>, order: seq<nat>, k: nat): (r: seq<int>)
    requires k <= |order| && forall i :: 0 <= i < |order| ==> order[i] < |parts|
    ensures |r| == |parts|
  {
    if k == 0 then parts
    else
      var before := Raise(parts, order, k - 1);
      before[order[k - 1] := Wrap(before[order[k - 1]] + 1)]
  }

  lemma {:induction false} RaiseSum(q: seq<int>, rem: seq<int>, order: seq<nat>, k: nat)
    requires |q| == |rem| && IsOrder(order, rem) && k <= |order|
    requires forall i :: 0 <= i < |q| ==> MIN <= q[i] < MAX
    ensures Sum(Raise(q, order, k)) == Sum(q) + k
    ensures forall i: nat :: i < |q| ==> Raise(q, order, k)[i] == if i in order[..k] then q[i] + 1 else q[i]
  {
    if k > 0 {
      RaiseSum(q, rem, order, k - 1);
      var before, x := Raise(q, order, k - 1), order[k - 1];
      forall j | 0 <= j < k - 1 ensures order[j] != x { assert Precedes(rem, order[j], x); }
      assert x !in order[..k - 1];
      SumUpdate(before, x, q[x] + 1);
      assert order[..k] == order[..k - 1] + [x];
    }
  }

  /** Handing the leftover to the first indices of the order serves the largest remainders. */
  lemma RaiseServes(q: seq<int>, rem: seq<int>, order: seq<nat>, k: nat)
    requires |q| == |rem| && IsOrder(order, rem) && k <= |order|
    requires forall i :: 0 <= i < |q| ==> MIN <= q[i] < MAX
    ensures Served(q, rem, Raise(q, order, k))
  {
    RaiseSum(q, rem, order, k);
    var parts := Raise(q, order, k);
    forall y | 0 <= y < k ensures order[y] in order[..k] { assert order[..k][y] == order[y]; }
    forall i: nat, j: nat | i < |q| && j < |q| && parts[i] == q[i] + 1 && parts[j] == q[j] ensures Precedes(rem, i, j) {
      var x :| 0 <= x < k && order[x] == i;
      assert j in order && j !in order[..k];
      var y :| 0 <= y < |order| && order[y] == j;
      assert y >= k;
    }
  }

  lemma FloorsFit(a: nat, total: int, q: seq<int>, rem: seq<int>)
    requires Accounts(a, total, q, rem) && a <= MAX
    ensures Wrapped(q) == q && Wrap(a - Sum(Wrapped(q))) == a - Sum(q) && 0 <= a - Sum(q) < |q|
    ensures a - Sum(q) > 0 ==> forall i :: 0 <= i < |q| ==> MIN <= q[i] < MAX
  {
    LeftoverInBounds(a, total, q, rem);
    WrappedSame(q);
    SumNonNegative(q);
    if a - Sum(q) > 0 {
      forall i | 0 <= i < |q| ensures MIN <= q[i] < MAX { SumBounds(q, i); }
    }
  }

  function Negated(parts: seq<int>): (r: seq<int>)
    ensures |r| == |parts|
  {
    if parts == [] then [] else Negated(parts[..|parts| - 1]) + [Wrap(-parts[|parts| - 1])]
  }

  lemma {:induction false} NegatedAt(parts: seq<int>, i: nat)
    requires i < |parts|
    ensures Negated(parts)[i] == Wrap(-parts[i])
  {
    if i < |parts| - 1 { NegatedAt(parts[..|parts| - 1], i); }
  }

  datatype Outcome = Parts(parts: seq<int>) | Refused | Panics

  method Total(ratios: seq<int>) returns (total: int, ok: bool)
    ensures ok <==> NonNegative(ratios)
    ensures ok ==> total == Wrap(Sum(ratios))
  {
    total := 0;
    for i := 0 to |ratios|
      invariant NonNegative(ratios[..i]) && total == Wrap(Sum(ratios[..i]))
    {
      if ratios[i] < 0 {
        return 0, false;
      }
      assert ratios[..i + 1][..i] == ratios[..i];
      WrapAdds(Sum(ratios[..i]), ratios[i]);
      total := Wrap(total + ratios[i]);
    }
    assert ratios[..|ratios|] == ratios;
    return total, true;
  }

  lemma FloorsNext(a: int, ratios: seq<int>, total: int, i: nat, product: int)
    requires total != 0 && i < |ratios| && product == a * ratios[i]
    ensures Wrapped(Floors(a, ratios[..i + 1], total)) == Wrapped(Floors(a, ratios[..i], total)) + [Wrap(Quo(product, total))]
    ensures Remainders(a, ratios[..i + 1], total) == Remainders(a, ratios[..i], total) + [Rem(product, total)]
  {
    assert ratios[..i + 1][..i] == ratios[..i];
    var q, x := Floors(a, ratios[..i], total), Quo(product, total);
    assert (q + [x])[..|q|] == q;
  }

  lemma SumAppend(s: seq<int>, x: int)
    ensures Sum(s + [x]) == Sum(s) + x
  {
    assert (s + [x])[..|s|] == s;
  }

  method FloorEach(a: int, ratios: seq<int>, total: int, parts: array<int>, rem: array<int>) returns (distributed: int)
    requires total != 0 && parts.Length == rem.Length == |ratios| && parts != rem
    modifies parts, rem
    ensures parts[..] == Wrapped(Floors(a, ratios, total)) && rem[..] == Remainders(a, ratios, total)
    ensures distributed == Wrap(Sum(parts[..]))
  {
    distributed := 0;
    for i := 0 to |ratios|
      invariant parts[..i] == Wrapped(Floors(a, ratios[..i], total)) && rem[..i] == Remainders(a, ratios[..i], total)
      invariant distributed == Wrap(Sum(parts[..i]))
    {
      ghost var floored := parts[..i];
      var product := a * ratios[i];
      var q, r := Wrap(Quo(product, total)), Rem(product, total);
      FloorsNext(a, ratios, total, i, product);
      distributed := AddTo(distributed, floored, q);
      parts[i], rem[i] := q, r;
      assert parts[..i + 1] == parts[..i] + [parts[i]] && rem[..i + 1] == rem[..i] + [rem[i]];
    }
    assert parts[..|ratios|] == parts[..] && rem[..|ratios|] == rem[..] && ratios[..|ratios|] == ratios;
  }

  method AddTo(distributed: int, ghost floored: seq<int>, q: int) returns (sum: int)
    requires distributed == Wrap(Sum(floored))
    ensures sum == Wrap(Sum(floored + [q]))
  {
    WrapAdds(Sum(floored), q);
    SumAppend(floored, q);
    return Wrap(distributed + q);
  }

  /** Hand out the leftover one unit at a time; running past the order is an index panic. */
  method HandOut(parts: array<int>, order: seq<nat>, leftover: int) returns (ok: bool)
    requires |order| == parts.Length && forall i :: 0 <= i < |order| ==> order[i] < parts.Length
    modifies parts
    ensures ok <==> leftover <= parts.Length
    ensures ok ==> parts[..] == Raise(old(parts[..]), order, if leftover < 0 then 0 else leftover)
  {
    var k := 0;
    while k < leftover
      invariant 0 <= k <= |order| && (k == 0 || k <= leftover)
      invariant parts[..] == Raise(old(parts[..]), order, k)
    {
      if k >= |order| {
        return false;
      }
      parts[order[k]] := Wrap(parts[order[k]] + 1);
      k := k + 1;
    }
    return true;
  }

  method Negate(parts: array<int>)
    modifies parts
    ensures parts[..] == Negated(old(parts[..]))
  {
    for i := 0 to parts.Length
      invariant forall k :: 0 <= k < i ==> parts[k] == Wrap(-old(parts[k]))
      invariant forall k :: i <= k < parts.Length ==> parts[k] == old(parts[k])
    {
      parts[i] := Wrap(-parts[i]);
    }
    ghost var was := old(parts[..]);
    forall k | 0 <= k < parts.Length ensures parts[..][k] == Negated(was)[k] { NegatedAt(was, k); }
  }

  /** Puts the amount's sign on magnitudes, and takes it off again: an allocation of a negative amount
      is the negation of the positive one. */
  function WithSign(amount: int, parts: seq<int>): seq<int> {
    if amount < 0 then Negated(parts) else parts
  }

  /** How many units the loop hands out for a leftover. */
  function Units(leftover: int): nat {
    if leftover < 0 then 0 else leftover
  }

  /** Hand the leftover of floors `q` out in serving order. */
  function Settle(a: int, q: seq<int>, order: seq<nat>): (parts: seq<int>)
    requires |order| == |q| && forall i :: 0 <= i < |order| ==> order[i] < |q|
    requires Wrap(a - Sum(Wrapped(q))) <= |q|
    ensures |parts| == |q|
  {
    Raise(Wrapped(q), order, Units(Wrap(a - Sum(Wrapped(q)))))
  }

  /** The parts the algorithm is left with before the sign is applied. */
  function Settled(a: int, ratios: seq<int>, total: int, order: seq<nat>): (parts: seq<int>)
    requires total != 0 && |order| == |ratios| && forall i :: 0 <= i < |order| ==> order[i] < |ratios|
    requires Leftover(a, ratios, total) <= |ratios|
    ensures |parts| == |ratios|
  {
    Settle(a, Floors(a, ratios, total), order)
  }

  lemma SettledServes(a: nat, ratios: seq<int>, order: seq<nat>)
    requires Splittable(ratios) && a <= MAX && IsOrder(order, Remainders(a, ratios, Sum(ratios)))
    ensures Leftover(a, ratios, Sum(ratios)) <= |ratios|
    ensures
      var parts := Settled(a, ratios, Sum(ratios), order);
      LargestRemainder(a, ratios, parts) && forall i :: 0 <= i < |parts| ==> 0 <= parts[i] <= a
  {
    var total := Sum(ratios);
    SplitAccounts(a, ratios);
    HandOutServes(a, total, Floors(a, ratios, total), Remainders(a, ratios, total), order);
  }

  lemma HandOutServes(a: nat, total: int, q: seq<int>, rem: seq<int>, order: seq<nat>)
    requires Accounts(a, total, q, rem) && a <= MAX && IsOrder(order, rem)
    ensures 0 <= Wrap(a - Sum(Wrapped(q))) < |q|
    ensures
      var parts := Settle(a, q, order);
      Sum(parts) == a && Served(q, rem, parts) && forall i :: 0 <= i < |parts| ==> 0 <= parts[i] <= a
  {
    FloorsFit(a, total, q, rem);
    RaisedServes(a, q, rem, order, a - Sum(q));
  }

  lemma RaisedServes(a: nat, q: seq<int>, rem: seq<int>, order: seq<nat>, k: nat)
    requires |q| == |rem| && IsOrder(order, rem) && k == a - Sum(q) < |q|
    requires NonNegative(q) && (k > 0 ==> forall i :: 0 <= i < |q| ==> MIN <= q[i] < MAX)
    ensures
      var parts := Raise(q, order, k);
      Sum(parts) == a && Served(q, rem, parts) && forall i :: 0 <= i < |parts| ==> 0 <= parts[i] <= a
  {
    var parts := Raise(q, order, k);
    if k == 0 {
      Unraised(q, rem);
    } else {
      RaiseServes(q, rem, order, k);
      RaiseSum(q, rem, order, k);
    }
    assert forall i :: 0 <= i < |parts| ==> parts[i] == q[i] || parts[i] == q[i] + 1;
    forall i | 0 <= i < |parts| ensures 0 <= parts[i] <= a { SumBounds(parts, i); }
  }

  lemma Unraised(q: seq<int>, rem: seq<int>)
    requires |q| == |rem|
    ensures Served(q, rem, q)
  {
  }

  lemma {:induction false} NegatedBack(parts: seq<int>)
    requires forall i :: 0 <= i < |parts| ==> 0 <= parts[i] <= MAX
    ensures Negated(Negated(parts)) == parts && Sum(Negated(parts)) == -Sum(parts)
  {
    if parts != [] {
      var init := parts[..|parts| - 1];
      NegatedBack(init);
      assert Negated(parts) == Negated(init) + [-parts[|init|]];
      SumAppend(Negated(init), -parts[|init|]);
    }
  }

  lemma {:induction false} NegatedMirror(q: seq<int>, m: seq<int>)
    requires |q| == |m| && forall i :: 0 <= i < |q| ==> m[i] == -q[i]
    ensures Negated(m) == Wrapped(q)
  {
    if q != [] { NegatedMirror(q[..|q| - 1], m[..|m| - 1]); }
  }

  /** Truncating division mirrors the floors of a negative amount. */
  lemma MirroredFloors(a: int, ratios: seq<int>)
    requires a >= 0 && Splittable(ratios)
    ensures
      var q, m := Floors(a, ratios, Sum(ratios)), Floors(-a, ratios, Sum(ratios));
      Sum(m) == -Sum(q) && forall i :: 0 <= i < |q| ==> m[i] == -q[i] && 0 <= q[i] <= a
  {
    var q, m := Floors(a, ratios, Sum(ratios)), Floors(-a, ratios, Sum(ratios));
    SplitAccounts(a, ratios);
    forall i | 0 <= i < |ratios| ensures m[i] == -q[i] {
      Scale(a, 0, ratios[i]);
      FloorAt(a, ratios, Sum(ratios), i);
      FloorAt(-a, ratios, Sum(ratios), i);
      Opposite(a, ratios[i], Sum(ratios));
    }
    Mirrored(q, m);
  }

  lemma Opposite(a: int, r: int, total: int)
    requires a * r >= 0 && total > 0
    ensures Quo(-a * r, total) == -Quo(a * r, total)
  {
    var x := a * r;
    assert -a * r == -x;
    if x == 0 { DivisionUnique(0, 0, 0, total); }
  }

  /** The magnitude of the minimum int64 wraps to itself; no leftover is handed out. */
  lemma MinSettled(a: int, ratios: seq<int>, order: seq<nat>)
    requires a == -MIN && Splittable(ratios)
    requires |order| == |ratios| && forall i :: 0 <= i < |order| ==> order[i] < |ratios|
    ensures Leftover(-a, ratios, Sum(ratios)) <= 0
    ensures Negated(Settled(-a, ratios, Sum(ratios), order)) == Wrapped(Floors(a, ratios, Sum(ratios)))
  {
    var total := Sum(ratios);
    var q, m := Floors(a, ratios, total), Floors(-a, ratios, total);
    MirroredFloors(a, ratios);
    SplitAccounts(a, ratios);
    LeftoverInBounds(a, total, q, Remainders(a, ratios, total));
    SumNonNegative(q);
    MirrorSettles(a, q, m, order);
  }

  lemma MirrorSettles(a: int, q: seq<int>, m: seq<int>, order: seq<nat>)
    requires a == -MIN && |q| == |m| && forall i :: 0 <= i < |q| ==> m[i] == -q[i] && 0 <= q[i] <= a
    requires Sum(m) == -Sum(q) && 0 <= Sum(q) <= a
    requires |order| == |q| && forall i :: 0 <= i < |order| ==> order[i] < |q|
    ensures Wrap(-a - Sum(Wrapped(m))) <= 0 && Negated(Settle(-a, m, order)) == Wrapped(q)
  {
    WrappedSame(m);
    NegatedMirror(q, m);
  }

  lemma {:induction false} Mirrored(q: seq<int>, m: seq<int>)
    requires |q| == |m| && forall i :: 0 <= i < |q| ==> m[i] == -q[i]
    ensures Sum(m) == -Sum(q)
  {
    if q != [] { Mirrored(q[..|q| - 1], m[..|m| - 1]); }
  }

  ghost predicate OneTakesAll(ratios: seq<int>) {
    exists k :: 0 <= k < |ratios| && ratios[k] == Sum(ratios)
  }

  /** The minimum int64 is conserved exactly when a single part takes everything. */
  lemma MinimumAmount(ratios: seq<int>, order: seq<nat>)
    requires Splittable(ratios) && |order| == |ratios| && forall i :: 0 <= i < |order| ==> order[i] < |ratios|
    ensures Leftover(MIN, ratios, Sum(ratios)) <= |ratios|
    ensures Sum(Negated(Settled(MIN, ratios, Sum(ratios), order))) == MIN <==> OneTakesAll(ratios)
  {
    MinSettled(-MIN, ratios, order);
    if OneTakesAll(ratios) {
      TakesAll(-MIN, ratios);
    } else {
      NobodyTakesAll(-MIN, ratios);
    }
  }

  lemma TakesAll(a: nat, ratios: seq<int>)
    requires a == -MIN && Splittable(ratios) && OneTakesAll(ratios)
    ensures Sum(Wrapped(Floors(a, ratios, Sum(ratios)))) == MIN
  {
    var total := Sum(ratios);
    var k :| 0 <= k < |ratios| && ratios[k] == total;
    SumBounds(ratios, k);
    var parts := Wrapped(Floors(a, ratios, total));
    forall i | 0 <= i < |parts| && i != k ensures parts[i] == 0 {
      DivisionUnique(0, 0, 0, total);
      FloorAt(a, ratios, total, i);
      WrappedAt(Floors(a, ratios, total), i);
    }
    FloorAt(a, ratios, total, k);
    DivisionUnique(a * total, a, 0, total);
    WrappedAt(Floors(a, ratios, total), k);
    SumSingle(parts, k);
  }

  lemma NobodyTakesAll(a: nat, ratios: seq<int>)
    requires a == -MIN && Splittable(ratios) && !OneTakesAll(ratios)
    ensures Sum(Wrapped(Floors(a, ratios, Sum(ratios)))) >= 0
  {
    var total := Sum(ratios);
    var q := Floors(a, ratios, total);
    forall i | 0 <= i < |q| ensures Wrapped(q)[i] >= 0 {
      SumBounds(ratios, i);
      assert ratios[i] != total;
      FloorAt(a, ratios, total, i);
      WrappedAt(q, i);
      BelowAll(a, ratios[i], total);
    }
    SumNonNegative(Wrapped(q));
  }

  lemma BelowAll(a: nat, r: int, total: int)
    requires 0 <= r < total && a > 0
    ensures 0 <= Quo(a * r, total) < a
  {
    Division(a * r, total);
    Scale(a, r + 1, total);
    var q := (a * r) / total;
    if q >= a {
      Distributes(q, a, total);
      if q > a { AtLeastFactor(q - a, total); }
    }
    if q < 0 { AtLeastFactor(-q, total); }
    Scale(a, 0, r);
  }

  lemma {:induction false} SumSingle(s: seq<int>, k: nat)
    requires k < |s| && forall i :: 0 <= i < |s| && i != k ==> s[i] == 0
    ensures Sum(s) == s[k]
  {
    var zeros := Constant(|s|, 0);
    SumConstant(|s|, 0);
    SumUpdate(zeros, k, s[k]);
    assert zeros[k := s[k]] == s;
  }

  /** The parts sum back to the amount and split its magnitude by largest remainder; of the minimum
      int64, whose magnitude does not fit, only an allocation to a single part is conserved. */
  ghost predicate Correct(amount: int, ratios: seq<int>, r: Outcome)
    requires Splittable(ratios)
  {
    && r.Parts?
    && (amount != MIN ==> Sum(r.parts) == amount && LargestRemainder(Abs(amount), ratios, WithSign(amount, r.parts)))
    && (amount == MIN ==> (Sum(r.parts) == amount <==> OneTakesAll(ratios)))
  }

  method Allocate(amount: int, ratios: seq<int>) returns (r: Outcome)
    requires Fits(amount) && forall i :: 0 <= i < |ratios| ==> Fits(ratios[i])
    ensures r.Refused? <==> ratios == [] || !NonNegative(ratios) || Wrap(Sum(ratios)) == 0
    ensures r.Panics? <==>
              && ratios != [] && NonNegative(ratios) && Wrap(Sum(ratios)) != 0
              && Leftover(Wrap(Abs(amount)), ratios, Wrap(Sum(ratios))) > |ratios|
    ensures Splittable(ratios) ==> Correct(amount, ratios, r)
    ensures r.Parts? ==> exists order: seq<nat> :: Explains(amount, ratios, order, r.parts)
    ensures r.Parts? && Inside(Wrapped(Floors(Wrap(Abs(amount)), ratios, Wrap(Sum(ratios))))) ==>
              (Sum(r.parts) == amount <==> 0 <= Missing(amount, Floors(Wrap(Abs(amount)), ratios, Wrap(Sum(ratios)))) <= MAX)
  {
    var total, ok := Total(ratios);
    if |ratios| == 0 || !ok || total == 0 {
      return Refused;
    }
    ghost var order;
    var parts;
    parts, ok, order := Divide(Wrap(Abs(amount)), ratios, total);
    Settling(amount, ratios, order);
    if !ok {
      return Panics;
    }
    if amount < 0 {
      Negate(parts);
    }
    assert Explains(amount, ratios, order, parts[..]);
    ExplainedConserves(amount, Wrap(Abs(amount)), total, ratios, order, parts[..]);
    r := Parts(parts[..]);
  }

  /** The parts are those of the one order by remainder. */
  ghost predicate Explains(amount: int, ratios: seq<int>, order: seq<nat>, parts: seq<int>) {
    var a, total := Wrap(Abs(amount)), Wrap(Sum(ratios));
    && total != 0 && IsOrder(order, Remainders(a, ratios, total)) && Leftover(a, ratios, total) <= |ratios|
    && parts == WithSign(amount, Settled(a, ratios, total, order))
  }

  lemma ExplainedConserves(amount: int, a: int, total: int, ratios: seq<int>, order: seq<nat>, parts: seq<int>)
    requires a == Wrap(Abs(amount)) && total == Wrap(Sum(ratios)) && Explains(amount, ratios, order, parts)
    ensures Inside(Wrapped(Floors(a, ratios, total))) ==>
              (Sum(parts) == amount <==> 0 <= Missing(amount, Floors(a, ratios, total)) <= MAX)
  {
    if Inside(Wrapped(Floors(a, ratios, total))) {
      InsideConservesExactly(amount, a, Floors(a, ratios, total), Remainders(a, ratios, total), order);
    }
  }

  /** Floor every share, then hand out the leftover in serving order. */
  method Divide(a: int, ratios: seq<int>, total: int) returns (parts: array<int>, ok: bool, ghost order: seq<nat>)
    requires total != 0 && Fits(a)
    ensures fresh(parts) && IsOrder(order, Remainders(a, ratios, total))
    ensures ok <==> Leftover(a, ratios, total) <= |ratios|
    ensures ok ==> parts[..] == Settled(a, ratios, total, order)
  {
    parts := new int[|ratios|];
    var rem := new int[|ratios|];
    var distributed := FloorEach(a, ratios, total, parts, rem);
    WrapSubtracts(a, Sum(parts[..]));
    var sorted := SliceStable(rem[..]);
    order := sorted;
    ok := HandOut(parts, sorted, Wrap(a - distributed));
  }

  // ---- When an accepted call conserves the amount ----

  /** How many of the first `k` parts to be raised stand at the largest int64 and wrap. */
  function RaisedAtMax(parts: seq<int>, order: seq<nat>, k: nat): nat
    requires k <= |order| && forall i :: 0 <= i < |order| ==> order[i] < |parts|
  {
    if k == 0 then 0 else RaisedAtMax(parts, order, k - 1) + (if parts[order[k - 1]] == MAX then 1 else 0)
  }

  /** How many parts stand at the smallest int64, whose negation wraps. */
  function AtMin(parts: seq<int>): nat {
    if parts == [] then 0 else AtMin(parts[..|parts| - 1]) + (if parts[|parts| - 1] == MIN then 1 else 0)
  }

  lemma {:induction false} RaisedAt(parts: seq<int>, rem: seq<int>, order: seq<nat>, k: nat, i: nat)
    requires |parts| == |rem| && IsOrder(order, rem) && k <= |order| && i < |parts|
    ensures Raise(parts, order, k)[i] == if i in order[..k] then Wrap(parts[i] + 1) else parts[i]
  {
    if k > 0 {
      RaisedAt(parts, rem, order, k - 1, i);
      var x := order[k - 1];
      forall j | 0 <= j < k - 1 ensures order[j] != x { assert Precedes(rem, order[j], x); }
      assert order[..k] == order[..k - 1] + [x];
    }
  }

  lemma NotYetRaised(rem: seq<int>, order: seq<nat>, k: nat)
    requires IsOrder(order, rem) && 0 < k <= |order|
    ensures order[k - 1] !in order[..k - 1]
  {
    forall j | 0 <= j < k - 1 ensures order[j] != order[k - 1] { assert Precedes(rem, order[j], order[k - 1]); }
  }

  lemma StepUp(x: int)
    requires Fits(x)
    ensures Wrap(x + 1) == x + 1 - (if x == MAX then PERIOD else 0)
  {
    WrapPeriod(MIN);
  }

  lemma {:induction false} RaiseExact(parts: seq<int>, rem: seq<int>, order: seq<nat>, k: nat)
    requires |parts| == |rem| && IsOrder(order, rem) && k <= |order|
    requires forall i :: 0 <= i < |parts| ==> Fits(parts[i])
    ensures Sum(Raise(parts, order, k)) == Sum(parts) + k - PERIOD * RaisedAtMax(parts, order, k)
  {
    if k > 0 {
      RaiseExact(parts, rem, order, k - 1);
      var before, x := Raise(parts, order, k - 1), order[k - 1];
      RaisedAt(parts, rem, order, k - 1, x);
      NotYetRaised(rem, order, k);
      StepUp(parts[x]);
      assert Raise(parts, order, k) == before[x := Wrap(parts[x] + 1)];
      SumUpdate(before, x, Wrap(parts[x] + 1));
    }
  }

  lemma {:induction false} NegatedExact(parts: seq<int>)
    requires forall i :: 0 <= i < |parts| ==> Fits(parts[i])
    ensures Sum(Negated(parts)) == -Sum(parts) - PERIOD * AtMin(parts)
  {
    if parts != [] {
      NegatedExact(parts[..|parts| - 1]);
      SumAppend(Negated(parts[..|parts| - 1]), Wrap(-parts[|parts| - 1]));
    }
  }

  lemma {:induction false} NoneAtMin(parts: seq<int>)
    requires forall i :: 0 <= i < |parts| ==> parts[i] != MIN
    ensures AtMin(parts) == 0
  {
    if parts != [] { NoneAtMin(parts[..|parts| - 1]); }
  }

  lemma {:induction false} NoneAtMax(parts: seq<int>, order: seq<nat>, k: nat)
    requires k <= |order| && forall i :: 0 <= i < |order| ==> order[i] < |parts|
    requires forall i :: 0 <= i < |parts| ==> parts[i] != MAX
    ensures RaisedAtMax(parts, order, k) == 0
  {
    if k > 0 { NoneAtMax(parts, order, k - 1); }
  }

  /** Handing out the leftover of shares `q` in this order stays in bounds. */
  predicate Accepts(a: int, q: seq<int>, order: seq<nat>) {
    && |order| == |q| && (forall i :: 0 <= i < |order| ==> order[i] < |q|)
    && Wrap(a - Sum(Wrapped(q))) <= |q|
  }

  /** The units handed out. */
  function HandedOut(a: int, q: seq<int>): nat {
    Units(Wrap(a - Sum(Wrapped(q))))
  }

  /** The minor units that the shares, as int64, leave of the amount's magnitude; exact, not wrapped. */
  function Missing(amount: int, q: seq<int>): int {
    Abs(amount) - Sum(Wrapped(q))
  }

  /** No share stands at either end of int64, so no further step wraps. */
  predicate Inside(shares: seq<int>) {
    forall i :: 0 <= i < |shares| ==> MIN < shares[i] < MAX
  }

  lemma SharesFit(q: seq<int>)
    ensures forall i :: 0 <= i < |q| ==> Fits(Wrapped(q)[i])
  {
    forall i | 0 <= i < |q| ensures Fits(Wrapped(q)[i]) { WrappedAt(q, i); }
  }

  lemma HandedOutFits(a: int, q: seq<int>, order: seq<nat>)
    requires Accepts(a, q, order)
    ensures HandedOut(a, q) <= |order|
  {
  }

  lemma SettleIsRaise(a: int, q: seq<int>, order: seq<nat>)
    requires Accepts(a, q, order) && HandedOut(a, q) <= |order|
    ensures Settle(a, q, order) == Raise(Wrapped(q), order, HandedOut(a, q))
  {
  }

  lemma SettledSum(a: int, q: seq<int>, rem: seq<int>, order: seq<nat>)
    requires Accepts(a, q, order) && |rem| == |q| && IsOrder(order, rem)
    ensures
      var shares, k, settled := Wrapped(q), HandedOut(a, q), Settle(a, q, order);
      && k <= |order| && Sum(settled) == Sum(shares) + k - PERIOD * RaisedAtMax(shares, order, k)
      && forall i :: 0 <= i < |settled| ==> Fits(settled[i])
  {
    var shares, k := Wrapped(q), HandedOut(a, q);
    SharesFit(q);
    HandedOutFits(a, q, order);
    SettleIsRaise(a, q, order);
    RaiseExact(shares, rem, order, k);
    forall i | 0 <= i < |shares| ensures Fits(Raise(shares, order, k)[i]) { RaisedAt(shares, rem, order, k, i); }
  }

  lemma SignedSum(amount: int, parts: seq<int>)
    requires forall i :: 0 <= i < |parts| ==> Fits(parts[i])
    ensures Sum(WithSign(amount, parts)) == if amount < 0 then -Sum(parts) - PERIOD * AtMin(parts) else Sum(parts)
  {
    NegatedExact(parts);
  }

  /** An accepted call conserves the amount exactly when the units handed out, corrected for the parts
      that wrap on the way, are those the truncated shares leave. */
  lemma ConservesExactly(amount: int, a: int, q: seq<int>, rem: seq<int>, order: seq<nat>)
    requires a == Wrap(Abs(amount)) && Accepts(a, q, order) && |rem| == |q| && IsOrder(order, rem)
    ensures HandedOut(a, q) <= |order|
    ensures Sum(WithSign(amount, Settle(a, q, order))) == amount
            <==> Missing(amount, q) == HandedOut(a, q) - PERIOD * RaisedAtMax(Wrapped(q), order, HandedOut(a, q))
                                       + (if amount < 0 then PERIOD * AtMin(Settle(a, q, order)) else 0)
  {
    var settled, k := Settle(a, q, order), HandedOut(a, q);
    SettledSum(a, q, rem, order);
    SignedSum(amount, settled);
    Balance(amount, Sum(Wrapped(q)), k, RaisedAtMax(Wrapped(q), order, k), AtMin(settled), Sum(settled), Sum(WithSign(amount, settled)));
  }

  lemma Balance(amount: int, shares: int, k: int, raised: int, lowest: int, settled: int, given: int)
    requires settled == shares + k - PERIOD * raised
    requires given == if amount < 0 then -settled - PERIOD * lowest else settled
    ensures given == amount <==> Abs(amount) - shares == k - PERIOD * raised + (if amount < 0 then PERIOD * lowest else 0)
  {
  }

  /** Where no share stands at an end of int64: exactly when they leave between nothing and the largest
      int64. Truncated shares that add up to more than the amount are paid out as they are. */
  lemma InsideConservesExactly(amount: int, a: int, q: seq<int>, rem: seq<int>, order: seq<nat>)
    requires a == Wrap(Abs(amount)) && Accepts(a, q, order) && |rem| == |q| && IsOrder(order, rem) && Inside(Wrapped(q))
    ensures Sum(WithSign(amount, Settle(a, q, order))) == amount <==> 0 <= Missing(amount, q) <= MAX
  {
    ConservesExactly(amount, a, q, rem, order);
    NoneAtMax(Wrapped(q), order, HandedOut(a, q));
    InsideSettled(a, q, rem, order);
    UnitsHandedOut(amount, a, q);
    UnitsMissing(Missing(amount, q), Wrap(Missing(amount, q)));
  }

  lemma InsideSettled(a: int, q: seq<int>, rem: seq<int>, order: seq<nat>)
    requires Accepts(a, q, order) && |rem| == |q| && IsOrder(order, rem) && Inside(Wrapped(q))
    ensures AtMin(Settle(a, q, order)) == 0
  {
    HandedOutFits(a, q, order);
    InsideRaised(Wrapped(q), rem, order, HandedOut(a, q));
    SettleIsRaise(a, q, order);
  }

  lemma InsideRaised(shares: seq<int>, rem: seq<int>, order: seq<nat>, k: nat)
    requires |shares| == |rem| && IsOrder(order, rem) && k <= |order| && Inside(shares)
    ensures AtMin(Raise(shares, order, k)) == 0
  {
    var raised := Raise(shares, order, k);
    forall i | 0 <= i < |raised| ensures raised[i] != MIN { RaisedAt(shares, rem, order, k, i); }
    NoneAtMin(raised);
  }

  lemma UnitsHandedOut(amount: int, a: int, q: seq<int>)
    requires a == Wrap(Abs(amount))
    ensures HandedOut(a, q) == Units(Wrap(Missing(amount, q)))
  {
    WrapAdds(Abs(amount), -Sum(Wrapped(q)));
  }

  lemma UnitsMissing(missing: int, leftover: int)
    requires leftover == Wrap(missing)
    ensures missing == Units(leftover) <==> 0 <= missing <= MAX
  {
  }

  /** Without a leftover the shares are paid out as they are. */
  lemma NothingHandedOut(a: int, total: int, ratios: seq<int>, order: seq<nat>, shares: seq<int>)
    requires total != 0 && |order| == |ratios| && forall i :: 0 <= i < |order| ==> order[i] < |ratios|
    requires Floors(a, ratios, total) == shares && Wrapped(shares) == shares && Wrap(a - Sum(shares)) <= 0
    ensures Leftover(a, ratios, total) <= |ratios| && Settled(a, ratios, total, order) == shares
  {
    SettleIsRaise(a, shares, order);
  }

  /** Applying the sign turns the settled parts into what the caller gets. */
  lemma Settling(amount: int, ratios: seq<int>, order: seq<nat>)
    requires Fits(amount) && Wrap(Sum(ratios)) != 0
    requires IsOrder(order, Remainders(Wrap(Abs(amount)), ratios, Wrap(Sum(ratios))))
    ensures Splittable(ratios) ==>
              && Leftover(Wrap(Abs(amount)), ratios, Wrap(Sum(ratios))) <= |ratios|
              && Correct(amount, ratios, Parts(WithSign(amount, Settled(Wrap(Abs(amount)), ratios, Wrap(Sum(ratios)), order))))
  {
    if Splittable(ratios) {
      if amount == MIN {
        assert Wrap(Abs(amount)) == MIN;
        MinimumAmount(ratios, order);
      } else {
        SettledServes(Abs(amount), ratios, order);
        NegatedBack(Settled(Abs(amount), ratios, Sum(ratios), order));
      }
    }
  }

  /** Negating the amount negates every part. */
  lemma NegationCommutes(amount: int, ratios: seq<int>, p: seq<int>, n: seq<int>)
    requires Splittable(ratios) && MIN < amount <= MAX
    requires Correct(amount, ratios, Parts(p)) && Correct(-amount, ratios, Parts(n))
    ensures if amount == 0 then n == p else if amount > 0 then Negated(n) == p else Negated(p) == n
  {
    AllocationUnique(Abs(amount), ratios, WithSign(amount, p), WithSign(-amount, n));
  }

  /** When the exact sum of the ratios leaves the int64 range, it is the wrapped sum that divides:
      it may be zero, and the call is refused, or negative, and handing out runs past the parts. */
  lemma OverflowingRatios()
    ensures Wrap(Sum([MAX, MAX, 2])) == 0
    ensures NonNegative([0x4000_0000_0000_0000, 0x4000_0000_0000_0000])
    ensures Wrap(Sum([0x4000_0000_0000_0000, 0x4000_0000_0000_0000])) == MIN
    ensures Leftover(4, [0x4000_0000_0000_0000, 0x4000_0000_0000_0000], MIN) == 8
  {
    var r := [MAX, MAX, 2];
    assert r[..2] == [MAX, MAX] && r[..2][..1] == [MAX] && r[..1][..0] == [];
    assert Sum([MAX]) == MAX;
    assert Sum([MAX, MAX]) == MAX + MAX;
    var h := 0x4000_0000_0000_0000;
    var s := [h, h];
    assert s[..1] == [h] && s[..1][..0] == [];
    assert Sum([h]) == h;
    assert Sum(s) == h + h;
    var q := Quo(4 * h, MIN);
    assert q == -2;
    assert Floors(4, [h], MIN) == [q];
    assert Floors(4, s, MIN) == [q, q];
    assert Floors(4, s, MIN)[..1] == [q];
    WrappedSame([q, q]);
    assert [q, q][..1] == [q] && [q][..0] == [];
    assert Sum([q]) == q;
    assert Sum([q, q]) == q + q;
  }

  // ---- Equal parts ----

  /** As equal as possible: the first `a % n` parts get one more. */
  function EqualParts(a: nat, n: nat): (parts: seq<int>)
    requires n > 0
    ensures |parts| == n && forall k :: 0 <= k < n ==> parts[k] == a / n + (if k < a % n then 1 else 0)
  {
    seq(n, k requires 0 <= k < n => a / n + (if k < a % n then 1 else 0))
  }

  lemma {:induction false} SumEqualParts(q: int, r: nat, s: seq<int>)
    requires forall k :: 0 <= k < |s| ==> s[k] == q + (if k < r then 1 else 0)
    ensures Sum(s) == |s| * q + (if |s| < r then |s| else r)
  {
    if s != [] {
      SumEqualParts(q, r, s[..|s| - 1]);
      Distributes(|s|, 1, q);
    }
  }

  lemma EqualShares(a: nat, n: nat)
    requires 0 < n <= MAX
    ensures Splittable(Constant(n, 1)) && Sum(Constant(n, 1)) == n
    ensures LargestRemainder(a, Constant(n, 1), EqualParts(a, n))
  {
    var ones, parts := Constant(n, 1), EqualParts(a, n);
    SumConstant(n, 1);
    Division(a, n);
    SumEqualParts(a / n, a % n, parts);
    var q, rem := Floors(a, ones, n), Remainders(a, ones, n);
    forall k | 0 <= k < n ensures q[k] == a / n && rem[k] == a % n { FloorAt(a, ones, n, k); }
    EqualServed(q, rem, parts, a / n, a % n);
  }

  lemma EqualServed(q: seq<int>, rem: seq<int>, parts: seq<int>, floor: int, r: int)
    requires |q| == |rem| == |parts| && forall k :: 0 <= k < |q| ==> q[k] == floor && rem[k] == r
    requires forall k :: 0 <= k < |parts| ==> parts[k] == floor + (if k < r then 1 else 0)
    ensures Served(q, rem, parts)
  {
  }

  method AllocateEqual(amount: int, n: int) returns (r: Outcome)
    requires Fits(amount) && n <= MAX
    ensures n <= 0 ==> r == Refused
    ensures n > 0 && amount != MIN ==> r.Parts? && WithSign(amount, r.parts) == EqualParts(Abs(amount), n) && Sum(r.parts) == amount
    ensures n > 0 && amount == MIN ==> r.Parts? && (Sum(r.parts) == MIN <==> n == 1)
  {
    if n <= 0 {
      return Refused;
    }
    EqualShares(Abs(amount), n);
    r := Allocate(amount, Constant(n, 1));
    assert Constant(n, 1)[0] == 1;
    assert OneTakesAll(Constant(n, 1)) <==> n == 1;
    if amount != MIN {
      AllocationUnique(Abs(amount), Constant(n, 1), WithSign(amount, r.parts), EqualParts(Abs(amount), n));
    }
  }
}
