/** Lists in a strict order: the same members can be listed in one way only. */
module Sorted {

  ghost predicate Ascending<T(!new)>(before: (T, T) -> bool, list: seq<T>) {
    forall i, j :: 0 <= i < j < |list| ==> before(list[i], list[j])
  }

  lemma WithoutLast<T(!new)>(before: (T, T) -> bool, list: seq<T>, x: T)
    requires (forall y :: !before(y, y)) && list != [] && Ascending(before, list)
    ensures x in list[..|list| - 1] <==> x in list && x != list[|list| - 1]
  {
    if x in list && x != list[|list| - 1] {
      var i :| 0 <= i < |list| && list[i] == x;
      assert list[..|list| - 1][i] == x;
    }
  }

  lemma {:induction false} Unique<T(!new)>(before: (T, T) -> bool, a: seq<T>, b: seq<T>)
    requires forall x, y :: before(x, y) ==> !before(y, x)
    requires Ascending(before, a) && Ascending(before, b) && forall x :: x in a <==> x in b
    ensures a == b
  {
    assert b == [] || b[0] in b;
    if a == [] {
    } else {
      assert a[|a| - 1] in b && |b| > 0;
      var x, y := a[|a| - 1], b[|b| - 1];
      assert y in a;
      var i :| 0 <= i < |b| && b[i] == x;
      var j :| 0 <= j < |a| && a[j] == y;
      assert x == y;
      var a', b' := a[..|a| - 1], b[..|b| - 1];
      forall z ensures z in a' <==> z in b' {
        WithoutLast(before, a, z);
        WithoutLast(before, b, z);
      }
      Unique(before, a', b');
      assert a == a' + [x] && b == b' + [y];
    }
  }
}
