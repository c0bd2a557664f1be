/**
 The feed table as the code changes it: `Append` under the ordering lock, commit and rollback, the
 high-water mark, a filtered page, and the grouping of a page's pointers into row lookups.
 */
module FeedStore {
  import opened Ordering
  import opened ChangeFeed
  import opened FeedReader

  datatype Appended = Id(id: nat) | Waiting | Refused

  datatype Change = Change(cursor: nat, entry: Entry)
  datatype ReadResult = Changes(list: seq<Change>) | BadRequest

  function Cursors(list: seq<Change>): (r: seq<nat>)
    ensures |r| == |list| && forall i :: 0 <= i < |r| ==> r[i] == list[i].cursor
  {
    seq(|list|, i requires 0 <= i < |list| => list[i].cursor)
  }

  function LockThenAllocate(c: Config, l: Log, t: TxId, e: Entry): Log {
    Apply(c, if c.serialize then Apply(c, l, Lock(t)) else l, Allocate(t, e))
  }

  lemma AppendKeepsInv(c: Config, l: Log, t: TxId, e: Entry)
    requires Inv(c, l)
    ensures Inv(c, LockThenAllocate(c, l, t, e))
  {
    ApplyKeepsInv(c, l, Lock(t));
    ApplyKeepsInv(c, if c.serialize then Apply(c, l, Lock(t)) else l, Allocate(t, e));
  }

  /** The tenant's own, and tagged with one of the keys: its object, or "unscoped" without one. */
  predicate Admitted(e: Entry, tenant: Tenant, scope: Scope) {
    e.tenant == tenant && (scope.Everything? || (if e.kind == "" then "unscoped" else e.kind) in scope.keys)
  }

  lemma PageRows(feed: map<nat, Entry>, list: seq<Change>, tenant: Tenant, scope: Scope, after: int, limit: nat)
    requires IsPage(Cursors(list), Visible(feed, tenant, scope), after, limit) && limit > 0
    requires forall i :: 0 <= i < |list| ==> list[i].cursor in feed && list[i].entry == feed[list[i].cursor]
    ensures forall i, j :: 0 <= i < j < |list| ==> list[i].cursor < list[j].cursor
    ensures forall i :: 0 <= i < |list| ==> list[i].cursor > after && Admitted(list[i].entry, tenant, scope)
    ensures forall id :: id in feed && id > after && Admitted(feed[id], tenant, scope) ==>
              Change(id, feed[id]) in list || (|list| == limit && id > list[limit - 1].cursor)
  {
    var ids, page := Visible(feed, tenant, scope), Cursors(list);
    forall i | 0 <= i < |list| ensures list[i].cursor > after && Admitted(list[i].entry, tenant, scope) {
      assert page[i] in page;
    }
    forall id | id in feed && id > after && Admitted(feed[id], tenant, scope)
      ensures Change(id, feed[id]) in list || (|list| == limit && id > list[limit - 1].cursor)
    {
      assert id in ids && id in Above(ids, after);
      if id in page {
        var i :| 0 <= i < |page| && page[i] == id;
        assert list[i] == Change(id, feed[id]);
      }
    }
  }

  class Store {
    const config: Config
    var next: nat
    var locks: map<nat, TxId>
    var open: map<TxId, Tx>
    var feed: map<nat, Entry>

    function State(): Log
      reads this
    {
      Log(next, locks, open, feed)
    }

    constructor (config: Config)
      ensures State() == EMPTY_LOG && this.config == config && Inv(config, State())
    {
      this.config := config;
      next, locks, open, feed := 1, map[], map[], map[];
    }

    /** Take the tenant's ordering lock, then draw an id and insert; a taken lock makes the caller wait.
        `complete` is false when the source, the reference or the time is missing. */
    method Append(t: TxId, e: Entry, complete: bool) returns (r: Appended)
      requires Inv(config, State())
      requires t in open && open[t].tenant == e.tenant
      modifies this
      ensures Inv(config, State())
      ensures r.Refused? <==> e.tenant == "" || !complete
      ensures r.Refused? ==> State() == old(State())
      ensures !r.Refused? ==>
                State() == LockThenAllocate(config, old(State()), t, e)
      ensures r.Id? ==> r.id == old(next) && t in open && r.id in open[t].staged && open[t].staged[r.id] == e
      ensures r.Waiting? ==> config.serialize && config.key(e.tenant) in old(locks) && old(locks)[config.key(e.tenant)] != t
    {
      if e.tenant == "" || !complete {
        return Refused;
      }
      AppendKeepsInv(config, State(), t, e);
      if config.serialize {
        var key := config.key(e.tenant);
        if key !in locks {
          locks := locks[key := t];
        }
        if locks[key] != t {
          return Waiting;
        }
      }
      open := open[t := Tx(open[t].tenant, open[t].staged[next := e])];
      next := next + 1;
      return Id(next - 1);
    }

    /** Commit publishes every staged entry and, with the transaction, drops its lock. */
    method Commit(t: TxId)
      requires Inv(config, State()) && t in open
      modifies this
      ensures Inv(config, State())
      ensures State() == Apply(config, old(State()), ChangeFeed.Commit(t))
      ensures forall id :: id in old(open[t].staged) ==> id in feed && feed[id] == old(open[t].staged)[id]
    {
      ApplyKeepsInv(config, State(), ChangeFeed.Commit(t));
      feed := feed + open[t].staged;
      open := open - {t};
      locks := Release(locks, t);
    }

    method Rollback(t: TxId)
      requires Inv(config, State()) && t in open
      modifies this
      ensures Inv(config, State())
      ensures State() == Apply(config, old(State()), ChangeFeed.Rollback(t))
      ensures feed == old(feed)
    {
      ApplyKeepsInv(config, State(), ChangeFeed.Rollback(t));
      open := open - {t};
      locks := Release(locks, t);
    }

    /** The newest position visible to a tenant, 0 for an empty feed. */
    method ReadHighWater(tenant: Tenant) returns (high: nat)
      ensures high == HighWater(feed, tenant)
      ensures forall id :: id in feed && feed[id].tenant == tenant ==> id <= high
      ensures (high in feed && feed[high].tenant == tenant) || (high == 0 && forall id :: id in feed ==> feed[id].tenant != tenant)
    {
      high := Highest(Visible(feed, tenant, Everything));
    }

    /** Up to `limit` changes after a cursor, in ascending order; an empty scope matches nothing. */
    method Read(tenant: Tenant, after: int, limit: int, scope: Scope) returns (r: ReadResult)
      ensures r.BadRequest? <==> tenant == "" || limit <= 0
      ensures r.Changes? ==>
                && IsPage(Cursors(r.list), Visible(feed, tenant, scope), after, limit)
                && forall i :: 0 <= i < |r.list| ==> r.list[i].cursor in feed && r.list[i].entry == feed[r.list[i].cursor]
      ensures r.Changes? ==>
                && |r.list| <= limit
                && (forall i, j :: 0 <= i < j < |r.list| ==> r.list[i].cursor < r.list[j].cursor)
                && (forall i :: 0 <= i < |r.list| ==> r.list[i].cursor > after && Admitted(r.list[i].entry, tenant, scope))
                && (forall id :: id in feed && id > after && Admitted(feed[id], tenant, scope) ==>
                      Change(id, feed[id]) in r.list || (|r.list| == limit && id > r.list[limit - 1].cursor))
    {
      if tenant == "" || limit <= 0 {
        return BadRequest;
      }
      if scope == Keys({}) {
        assert Visible(feed, tenant, scope) == {};
        assert Above({}, after) == {};
        return Changes([]);
      }
      var list := FirstRows(feed, Visible(feed, tenant, scope), after, limit);
      PageRows(feed, list, tenant, scope, after, limit);
      return Changes(list);
    }
  }

  method Highest(ids: set<nat>) returns (high: nat)
    ensures high == MaxOrZero(ids)
  {
    var left := ids;
    high := 0;
    while left != {}
      invariant left <= ids
      invariant high == 0 || high in ids
      invariant forall x :: x in ids && x !in left ==> x <= high
      decreases left
    {
      var x :| x in left;
      if x > high { high := x; }
      left := left - {x};
    }
    assert ids != {} ==> MaxOrZero(ids) <= high;
  }

  /** The row loop behind `ORDER BY id ASC LIMIT limit`. */
  method FirstRows(feed: map<nat, Entry>, ids: set<nat>, after: int, limit: nat) returns (list: seq<Change>)
    requires ids <= feed.Keys
    ensures IsPage(Cursors(list), ids, after, limit)
    ensures forall i :: 0 <= i < |list| ==> list[i].cursor in feed && list[i].entry == feed[list[i].cursor]
  {
    list := [];
    var left := Above(ids, after);
    ghost var out: seq<nat> := [];
    while |list| < limit && left != {}
      invariant |out| == |list| <= limit
      invariant StrictlyAscending(out)
      invariant forall x :: x in Above(ids, after) <==> x in out || x in left
      invariant forall x, y :: x in out && y in left ==> x < y
      invariant forall i :: 0 <= i < |out| ==> out[i] in feed && list[i] == Change(out[i], feed[out[i]])
      decreases left
    {
      var m := First(left);
      assert forall x :: x in out + [m] <==> x in out || x == m;
      assert forall i :: 0 <= i < |out| ==> out[i] in out;
      list, out, left := list + [Change(m, feed[m])], out + [m], left - {m};
    }
    assert Cursors(list) == out;
    assert |out| > 0 ==> out[|out| - 1] in out;
  }

  method First(ids: set<nat>) returns (m: nat)
    requires ids != {}
    ensures m in ids && forall x :: x in ids ==> m <= x
  {
    m :| m in ids;
    var left := ids;
    while left != {}
      invariant left <= ids && m in ids
      invariant forall x :: x in ids && x !in left ==> m <= x
      decreases left
    {
      var x :| x in left;
      if x < m { m := x; }
      left := left - {x};
    }
  }

  // ---- materialize: pointers grouped into one lookup per object ----

  /** The rows of object `kind` that a page points at, each once, in first-seen order. */
  function RefsOf(changes: seq<Change>, kind: string): seq<nat> {
    if changes == [] then []
    else
      var refs, e := RefsOf(changes[..|changes| - 1], kind), changes[|changes| - 1].entry;
      if e.source.Audit? && e.kind == kind && e.ref !in refs then refs + [e.ref] else refs
  }

  predicate PointsAt(c: Change, kind: string, id: nat) {
    c.entry.source.Audit? && c.entry.kind == kind && c.entry.ref == id
  }

  ghost predicate Mentions(changes: seq<Change>, kind: string, id: nat) {
    exists k :: 0 <= k < |changes| && PointsAt(changes[k], kind, id)
  }

  predicate Distinct(s: seq<nat>) {
    forall i, j :: 0 <= i < j < |s| ==> s[i] != s[j]
  }

  lemma {:induction false} RefsOfExact(changes: seq<Change>, kind: string)
    ensures Distinct(RefsOf(changes, kind))
    ensures forall id :: id in RefsOf(changes, kind) <==> Mentions(changes, kind, id)
  {
    if changes == [] {
      assert !Mentions(changes, kind, 0);
    } else {
      var init, last := changes[..|changes| - 1], changes[|changes| - 1];
      RefsOfExact(init, kind);
      assert changes == init + [last];
      var before, refs := RefsOf(init, kind), RefsOf(changes, kind);
      if refs != before {
        assert last.entry.ref !in before && refs == before + [last.entry.ref];
        assert forall i :: 0 <= i < |before| ==> before[i] in before;
      }
      forall id ensures id in refs <==> Mentions(changes, kind, id) {
        MentionsSplit(init, last, kind, id);
        assert id in before <==> Mentions(init, kind, id);
      }
    }
  }

  lemma MentionsSplit(init: seq<Change>, last: Change, kind: string, id: nat)
    ensures Mentions(init + [last], kind, id) <==> Mentions(init, kind, id) || PointsAt(last, kind, id)
  {
    var all := init + [last];
    if Mentions(init, kind, id) {
      var k :| 0 <= k < |init| && PointsAt(init[k], kind, id);
      assert PointsAt(all[k], kind, id);
    }
    if PointsAt(last, kind, id) {
      assert PointsAt(all[|init|], kind, id);
    }
  }

  method GroupPointers(changes: seq<Change>) returns (idsByObject: map<string, seq<nat>>)
    ensures forall kind :: kind in idsByObject ==> idsByObject[kind] == RefsOf(changes, kind)
    ensures forall kind :: kind !in idsByObject ==> RefsOf(changes, kind) == []
  {
    idsByObject := map[];
    var seen: map<string, set<nat>> := map[];
    for i := 0 to |changes|
      invariant forall kind :: kind in idsByObject ==> idsByObject[kind] == RefsOf(changes[..i], kind)
      invariant forall kind :: kind !in idsByObject ==> RefsOf(changes[..i], kind) == []
      invariant seen.Keys == idsByObject.Keys
      invariant forall kind, id :: kind in seen ==> (id in seen[kind] <==> id in idsByObject[kind])
    {
      assert changes[..i + 1][..i] == changes[..i];
      var e := changes[i].entry;
      if e.source != Audit {
        continue;
      }
      if e.kind !in seen {
        seen := seen[e.kind := {}];
        idsByObject := idsByObject[e.kind := []];
      }
      if e.ref in seen[e.kind] {
        continue;
      }
      seen := seen[e.kind := seen[e.kind] + {e.ref}];
      idsByObject := idsByObject[e.kind := idsByObject[e.kind] + [e.ref]];
    }
    assert changes[..|changes|] == changes;
  }
}
