/** Ascending listings of finite sets of feed positions: what `ORDER BY id ASC LIMIT n` returns. */
module Ordering {

  predicate StrictlyAscending(s: seq<nat>) {
    forall i, j :: 0 <= i < j < |s| ==> s[i] < s[j]
  }

  /** `s` lists exactly the members of `ids`, each once, in ascending order. */
  ghost predicate Lists(s: seq<nat>, ids: set<nat>) {
    && StrictlyAscending(s)
    && (forall x :: x in s <==> x in ids)
  }

  lemma Member<T>(s: set<T>) returns (x: T)
    requires s != {}
    ensures x in s
  {
    x :| x in s;
  }

  lemma {:induction false} Minimum(ids: set<nat>) returns (m: nat)
    requires ids != {}
    ensures m in ids
    ensures forall x :: x in ids ==> m <= x
  {
    m := Member(ids);
    var rest := ids - {m};
    if rest != {} {
      var least := Minimum(rest);
      assert forall x :: x in ids ==> x == m || x in rest;
      if least < m { m := least; }
    } else {
      assert forall x :: x in ids ==> x == m || x in rest;
    }
  }

  lemma {:induction false} Maximum(ids: set<nat>) returns (m: nat)
    requires ids != {}
    ensures m in ids
    ensures forall x :: x in ids ==> x <= m
  {
    m := Member(ids);
    var rest := ids - {m};
    if rest != {} {
      var most := Maximum(rest);
      assert forall x :: x in ids ==> x == m || x in rest;
      if most > m { m := most; }
    } else {
      assert forall x :: x in ids ==> x == m || x in rest;
    }
  }

  function Above(ids: set<nat>, after: int): (r: set<nat>)
    ensures forall x :: x in ids && x > after <==> x in r
  {
    set x | x in ids && x > after
  }

  function Least(ids: set<nat>): (m: nat)
    requires ids != {}
    ensures m in ids && forall x :: x in ids ==> m <= x
  {
    assert exists m :: m in ids && forall x :: x in ids ==> m <= x by { var m := Minimum(ids); }
    var m :| m in ids && forall x :: x in ids ==> m <= x;
    m
  }

  /** COALESCE(MAX(id), 0). */
  function MaxOrZero(ids: set<nat>): (m: nat)
    ensures ids == {} ==> m == 0
    ensures ids != {} ==> m in ids
    ensures forall x :: x in ids ==> x <= m
  {
    if ids == {} then 0
    else
      assert exists m :: m in ids && forall x :: x in ids ==> x <= m by { var m := Maximum(ids); }
      var m :| m in ids && forall x :: x in ids ==> x <= m;
      m
  }

  /** `page` is what `id > after ORDER BY id ASC LIMIT limit` selects from `ids`. */
  ghost predicate IsPage(page: seq<nat>, ids: set<nat>, after: int, limit: nat) {
    && |page| <= limit
    && StrictlyAscending(page)
    && (forall x :: x in page ==> x in ids && x > after)
    && (|page| < limit ==> Lists(page, Above(ids, after)))
    && (|page| > 0 ==> forall x :: x in ids && after < x <= page[|page| - 1] ==> x in page)
  }

  /** The least position and a page after it make a page. */
  lemma LeastFirst(ids: set<nat>, after: int, m: nat, rest: seq<nat>, limit: nat)
    requires limit > 0 && m in Above(ids, after) && (forall x :: x in Above(ids, after) ==> m <= x)
    requires IsPage(rest, ids, m, limit - 1)
    ensures IsPage([m] + rest, ids, after, limit)
  {
    var page := [m] + rest;
    assert forall x :: x in page <==> x == m || x in rest;
    assert |rest| > 0 ==> rest[|rest| - 1] in rest;
    assert page[|rest|] == if |rest| > 0 then rest[|rest| - 1] else m;
    forall x: nat | x in ids && x > after ensures x == m || x in Above(ids, m) {
      assert x in Above(ids, after);
    }
    forall i | 0 <= i < |rest| ensures rest[i] > m {
      assert rest[i] in rest;
    }
    if |page| < limit {
      forall x: nat ensures x in page <==> x in Above(ids, after) {
        if x in rest { assert x in ids && x > m; }
      }
    }
  }

  function Page(ids: set<nat>, after: int, limit: nat): (page: seq<nat>)
    ensures IsPage(page, ids, after, limit)
    decreases limit
  {
    if limit == 0 || Above(ids, after) == {} then []
    else
      var m := Least(Above(ids, after));
      var rest := Page(ids, m, limit - 1);
      LeastFirst(ids, after, m, rest, limit);
      [m] + rest
  }

  lemma {:induction false} ListsConcat(a: seq<nat>, b: seq<nat>, A: set<nat>, B: set<nat>)
    requires Lists(a, A) && Lists(b, B)
    requires forall x, y :: x in A && y in B ==> x < y
    ensures Lists(a + b, A + B)
  {
    forall i, j | 0 <= i < j < |a + b| ensures (a + b)[i] < (a + b)[j] {
      if i < |a| <= j {
        assert a[i] in A && b[j - |a|] in B;
      }
    }
  }

  /** `IsPage` determines the page. */
  lemma {:induction false} PageUnique(a: seq<nat>, b: seq<nat>, ids: set<nat>, after: int, limit: nat)
    requires IsPage(a, ids, after, limit) && IsPage(b, ids, after, limit)
    ensures a == b
  {
    var n := if |a| <= |b| then |a| else |b|;
    SamePrefix(a, b, ids, after, limit, n);
    if |a| < |b| { SamePageLength(a, b, ids, after, limit); }
    if |b| < |a| { SamePageLength(b, a, ids, after, limit); }
  }

  lemma {:induction false} SamePrefix(a: seq<nat>, b: seq<nat>, ids: set<nat>, after: int, limit: nat, n: nat)
    requires IsPage(a, ids, after, limit) && IsPage(b, ids, after, limit)
    requires n <= |a| && n <= |b|
    ensures forall i :: 0 <= i < n ==> a[i] == b[i]
  {
    if n > 0 {
      SamePrefix(a, b, ids, after, limit, n - 1);
      assert a[n - 1] in a && b[n - 1] in b;
      if a[n - 1] < b[n - 1] {
        NotSkipped(a, b, ids, after, limit, n - 1);
      } else if b[n - 1] < a[n - 1] {
        NotSkipped(b, a, ids, after, limit, n - 1);
      }
    }
  }

  lemma NotSkipped(a: seq<nat>, b: seq<nat>, ids: set<nat>, after: int, limit: nat, k: nat)
    requires IsPage(a, ids, after, limit) && IsPage(b, ids, after, limit)
    requires k < |a| && k < |b| && forall i :: 0 <= i < k ==> a[i] == b[i]
    ensures a[k] >= b[k]
  {
    assert a[k] in a;
  }

  lemma SamePageLength(a: seq<nat>, b: seq<nat>, ids: set<nat>, after: int, limit: nat)
    requires IsPage(a, ids, after, limit) && IsPage(b, ids, after, limit) && |a| <= |b|
    ensures |a| == |b|
  {
    SamePrefix(a, b, ids, after, limit, |a|);
    if |a| < |b| {
      var x := b[|a|];
      assert x in b;
      forall i | 0 <= i < |a| ensures a[i] != x {
        assert a[i] == b[i];
      }
      assert false;
    }
  }
}
