/**
 A reader that follows the cursor `readChanges` reports. The high-water mark and the page are read
 in two transactions, and writers step freely around both.
 */
module FeedReader {
  import opened Ordering
  import opened ChangeFeed
  import opened Wrappers

  datatype Scope = Everything | Keys(keys: set<string>)

  const MAX_FEED_LIMIT := 1000

  predicate InScope(e: Entry, tenant: Tenant, scope: Scope) {
    e.tenant == tenant && (scope.Everything? || ScopeKeyFor(e.kind) in scope.keys)
  }

  /** The committed positions a filtered read may return. */
  function Visible(feed: map<nat, Entry>, tenant: Tenant, scope: Scope): (r: set<nat>)
    ensures forall id :: id in r <==> id in feed && InScope(feed[id], tenant, scope)
  {
    set id | id in feed && InScope(feed[id], tenant, scope)
  }

  function HighWater(feed: map<nat, Entry>, tenant: Tenant): nat {
    MaxOrZero(Visible(feed, tenant, Everything))
  }

  function Between(ids: set<nat>, lo: int, hi: int): (r: set<nat>)
    ensures forall id :: id in r <==> id in ids && lo < id <= hi
  {
    set id | id in ids && lo < id <= hi
  }

  /** The position to resume from: the last entry, or the mark when a short page stops below it. */
  function ResumeAt(after: int, limit: nat, high: int, page: seq<nat>): int {
    var last := if |page| > 0 then page[|page| - 1] else after;
    if |page| < limit && high > last then high else last
  }

  datatype Reader = Reader(start: int, cursor: int, seen: seq<nat>, mark: Option<nat>)

  datatype World = World(log: Log, reader: Reader)

  datatype Following = Following(c: Config, tenant: Tenant, scope: Scope)

  datatype Move = Writer(op: Op) | Mark | Poll(limit: nat)

  ghost function Step(f: Following, w: World, m: Move): World {
    match m
    case Writer(op) => w.(log := Apply(f.c, w.log, op))
    case Mark => w.(reader := w.reader.(mark := Some(HighWater(w.log.feed, f.tenant))))
    case Poll(limit) =>
      if w.reader.mark.None? || !(1 <= limit <= MAX_FEED_LIMIT) then w
      else
        var page := Page(Visible(w.log.feed, f.tenant, f.scope), w.reader.cursor, limit);
        w.(reader := Reader(w.reader.start,
                            ResumeAt(w.reader.cursor, limit, w.reader.mark.value, page),
                            w.reader.seen + page, None))
  }

  ghost function Play(f: Following, w: World, moves: seq<Move>): World {
    if moves == [] then w
    else Step(f, Play(f, w, moves[..|moves| - 1]), moves[|moves| - 1])
  }

  /** What the reader has been given is exactly the committed, in-scope feed up to its cursor. */
  ghost predicate Faithful(f: Following, w: World) {
    && w.reader.start <= w.reader.cursor
    && Lists(w.reader.seen, Between(Visible(w.log.feed, f.tenant, f.scope), w.reader.start, w.reader.cursor))
  }

  ghost predicate ReaderInv(f: Following, w: World) {
    && f.c.serialize
    && Inv(f.c, w.log)
    && Settled(w.log, f.tenant, w.reader.cursor)
    && (w.reader.mark.Some? ==> Settled(w.log, f.tenant, w.reader.mark.value))
    && Faithful(f, w)
  }

  lemma HighWaterSettled(c: Config, l: Log, tenant: Tenant)
    requires c.serialize && Inv(c, l)
    ensures Settled(l, tenant, HighWater(l.feed, tenant))
  {
    var ids := Visible(l.feed, tenant, Everything);
    if ids != {} {
      assert MaxOrZero(ids) in l.feed;
    }
  }

  lemma WriterKeepsReaderInv(f: Following, w: World, op: Op)
    requires ReaderInv(f, w)
    ensures ReaderInv(f, Step(f, w, Writer(op)))
  {
    var log' := Apply(f.c, w.log, op);
    ApplyKeepsInv(f.c, w.log, op);
    SettledStays(f.c, w.log, op, f.tenant, w.reader.cursor);
    if w.reader.mark.Some? {
      SettledStays(f.c, w.log, op, f.tenant, w.reader.mark.value);
    }
    var before := Between(Visible(w.log.feed, f.tenant, f.scope), w.reader.start, w.reader.cursor);
    var after := Between(Visible(log'.feed, f.tenant, f.scope), w.reader.start, w.reader.cursor);
    assert before == after;
  }

  /** One page lists exactly the visible positions between the old cursor and the reported one. */
  lemma PageCovers(ids: set<nat>, after: int, limit: nat, high: nat)
    requires limit >= 1
    ensures var page := Page(ids, after, limit);
            var c := ResumeAt(after, limit, high, page);
            && after <= c
            && Lists(page, Between(ids, after, c))
            && (|page| < limit ==> Between(ids, after, c) == Above(ids, after))
            && (|page| == limit ==> after < c)
  {
    var page := Page(ids, after, limit);
    var c := ResumeAt(after, limit, high, page);
    if |page| > 0 {
      assert page[|page| - 1] in page;
    }
    forall x ensures x in page <==> x in Between(ids, after, c) {
      if x in page {
        var i :| 0 <= i < |page| && page[i] == x;
      }
      if x in Between(ids, after, c) && |page| < limit {
        assert x in Above(ids, after);
      }
    }
    if |page| < limit {
      forall x ensures x in Between(ids, after, c) <==> x in Above(ids, after) {
      }
    }
  }

  lemma ResumeSettled(f: Following, w: World, limit: nat)
    requires ReaderInv(f, w) && w.reader.mark.Some?
    ensures var page := Page(Visible(w.log.feed, f.tenant, f.scope), w.reader.cursor, limit);
            Settled(w.log, f.tenant, ResumeAt(w.reader.cursor, limit, w.reader.mark.value, page))
  {
    var page := Page(Visible(w.log.feed, f.tenant, f.scope), w.reader.cursor, limit);
    if |page| > 0 {
      assert page[|page| - 1] in page;
      assert page[|page| - 1] in w.log.feed;
    }
  }

  lemma BetweenSplits(ids: set<nat>, lo: int, mid: int, hi: int)
    requires lo <= mid <= hi
    ensures Between(ids, lo, mid) + Between(ids, mid, hi) == Between(ids, lo, hi)
  {
  }

  lemma PollKeepsReaderInv(f: Following, w: World, limit: nat)
    requires ReaderInv(f, w)
    ensures ReaderInv(f, Step(f, w, Poll(limit)))
  {
    if w.reader.mark.Some? && 1 <= limit <= MAX_FEED_LIMIT {
      var ids := Visible(w.log.feed, f.tenant, f.scope);
      var page := Page(ids, w.reader.cursor, limit);
      var c := ResumeAt(w.reader.cursor, limit, w.reader.mark.value, page);
      ResumeSettled(f, w, limit);
      PageCovers(ids, w.reader.cursor, limit, w.reader.mark.value);
      BetweenSplits(ids, w.reader.start, w.reader.cursor, c);
      ListsConcat(w.reader.seen, page, Between(ids, w.reader.start, w.reader.cursor), Between(ids, w.reader.cursor, c));
    }
  }

  lemma StepKeepsReaderInv(f: Following, w: World, m: Move)
    requires ReaderInv(f, w)
    ensures ReaderInv(f, Step(f, w, m))
  {
    match m
    case Writer(op) => WriterKeepsReaderInv(f, w, op);
    case Mark => HighWaterSettled(f.c, w.log, f.tenant);
    case Poll(limit) => PollKeepsReaderInv(f, w, limit);
  }

  /** No committed change is stranded: over every interleaving, a reader that starts at a settled
      position has seen each committed in-scope entry up to its cursor exactly once, in order. */
  lemma {:induction false} NothingStranded(f: Following, w: World, moves: seq<Move>)
    requires ReaderInv(f, w)
    ensures ReaderInv(f, Play(f, w, moves))
  {
    if moves != [] {
      NothingStranded(f, w, moves[..|moves| - 1]);
      StepKeepsReaderInv(f, Play(f, w, moves[..|moves| - 1]), moves[|moves| - 1]);
    }
  }

  /** The two positions a client starts from: the beginning, and a high-water mark. */
  lemma StartsAreSettled(f: Following, l: Log, start: int)
    requires f.c.serialize && Inv(f.c, l)
    requires start == 0 || start == HighWater(l.feed, f.tenant)
    ensures ReaderInv(f, World(l, Reader(start, start, [], None)))
  {
    HighWaterSettled(f.c, l, f.tenant);
    assert Between(Visible(l.feed, f.tenant, f.scope), start, start) == {};
  }

  /** A short page means caught up: everything in scope committed by then has been seen. */
  lemma ShortPageCatchesUp(f: Following, w: World, limit: nat)
    requires ReaderInv(f, w) && w.reader.mark.Some? && 1 <= limit <= MAX_FEED_LIMIT
    requires |Page(Visible(w.log.feed, f.tenant, f.scope), w.reader.cursor, limit)| < limit
    ensures var w' := Step(f, w, Poll(limit));
            Lists(w'.reader.seen, Above(Visible(w.log.feed, f.tenant, f.scope), w.reader.start))
  {
    var ids := Visible(w.log.feed, f.tenant, f.scope);
    var w' := Step(f, w, Poll(limit));
    PageCovers(ids, w.reader.cursor, limit, w.reader.mark.value);
    PollKeepsReaderInv(f, w, limit);
    forall x | x in Above(ids, w.reader.start)
      ensures x in Between(ids, w.reader.start, w'.reader.cursor)
    {
      if x > w.reader.cursor {
        assert x in Above(ids, w.reader.cursor);
      }
    }
    assert Above(ids, w.reader.start) == Between(ids, w.reader.start, w'.reader.cursor);
  }

  /** Mark, then poll: one request to the changes endpoint with writers at rest. */
  ghost function Cycle(f: Following, w: World, limit: nat): World {
    Step(f, Step(f, w, Mark), Poll(limit))
  }

  ghost function PollTimes(f: Following, w: World, limit: nat, n: nat): World
    decreases n
  {
    if n == 0 then w else PollTimes(f, Cycle(f, w, limit), limit, n - 1)
  }

  ghost function Unread(f: Following, w: World): set<nat> {
    Above(Visible(w.log.feed, f.tenant, f.scope), w.reader.cursor)
  }

  ghost predicate Drained(f: Following, w: World) {
    Lists(w.reader.seen, Above(Visible(w.log.feed, f.tenant, f.scope), w.reader.start))
  }

  lemma FullPageShrinks(ids: set<nat>, after: int, limit: nat, high: nat)
    requires limit >= 1 && |Page(ids, after, limit)| == limit
    ensures |Above(ids, ResumeAt(after, limit, high, Page(ids, after, limit)))| < |Above(ids, after)|
  {
    var page := Page(ids, after, limit);
    var last := page[limit - 1];
    assert last in page;
    CardinalityLess(Above(ids, last), Above(ids, after), last);
  }

  lemma CardinalityLess(small: set<nat>, big: set<nat>, x: nat)
    requires small <= big - {x} && x in big
    ensures |small| < |big|
  {
    var gap := (big - {x}) - small;
    assert big == small + gap + {x};
  }

  lemma CycleProgress(f: Following, w: World, limit: nat)
    requires ReaderInv(f, w) && 1 <= limit <= MAX_FEED_LIMIT
    ensures ReaderInv(f, Cycle(f, w, limit))
    ensures Cycle(f, w, limit).log == w.log
    ensures Drained(f, Cycle(f, w, limit)) || |Unread(f, Cycle(f, w, limit))| < |Unread(f, w)|
  {
    var ids := Visible(w.log.feed, f.tenant, f.scope);
    var marked := Step(f, w, Mark);
    StepKeepsReaderInv(f, w, Mark);
    PollKeepsReaderInv(f, marked, limit);
    if |Page(ids, w.reader.cursor, limit)| < limit {
      ShortPageCatchesUp(f, marked, limit);
    } else {
      FullPageShrinks(ids, w.reader.cursor, limit, marked.reader.mark.value);
    }
  }

  /** Once everything is seen, the next page is empty. */
  lemma CycleStaysDrained(f: Following, w: World, limit: nat)
    requires ReaderInv(f, w) && 1 <= limit <= MAX_FEED_LIMIT && Drained(f, w)
    ensures Drained(f, Cycle(f, w, limit))
  {
    var ids := Visible(w.log.feed, f.tenant, f.scope);
    forall x | x in Above(ids, w.reader.start) ensures x <= w.reader.cursor {
      assert x in w.reader.seen;
    }
    assert Above(ids, w.reader.cursor) == {};
  }

  /** How many polls can still be needed. */
  ghost function Gap(f: Following, w: World): nat {
    if Drained(f, w) then 0 else |Unread(f, w)| + 1
  }

  lemma CycleClosesGap(f: Following, w: World, limit: nat)
    requires ReaderInv(f, w) && 1 <= limit <= MAX_FEED_LIMIT
    ensures ReaderInv(f, Cycle(f, w, limit))
    ensures Gap(f, Cycle(f, w, limit)) == 0 || Gap(f, Cycle(f, w, limit)) < Gap(f, w)
    ensures Cycle(f, w, limit).log == w.log && Cycle(f, w, limit).reader.start == w.reader.start
  {
    CycleProgress(f, w, limit);
    if Drained(f, w) {
      CycleStaysDrained(f, w, limit);
    }
  }

  /** Polling converges: with writers at rest, enough polls of any legal size show the whole scope. */
  lemma {:induction false} PollingDrains(f: Following, w: World, limit: nat, n: nat)
    requires ReaderInv(f, w) && 1 <= limit <= MAX_FEED_LIMIT
    requires Gap(f, w) <= n
    ensures Gap(f, PollTimes(f, w, limit, n)) == 0
    ensures PollTimes(f, w, limit, n).log == w.log
    decreases n
  {
    if n > 0 {
      var w' := PollOnce(f, w, limit, n);
      PollingDrains(f, w', limit, n - 1);
    }
  }

  lemma PollOnce(f: Following, w: World, limit: nat, n: nat) returns (w': World)
    requires ReaderInv(f, w) && 1 <= limit <= MAX_FEED_LIMIT && 1 <= n && Gap(f, w) <= n
    ensures ReaderInv(f, w') && Gap(f, w') <= n - 1 && w'.log == w.log
    ensures PollTimes(f, w, limit, n) == PollTimes(f, w', limit, n - 1)
  {
    CycleClosesGap(f, w, limit);
    w' := Cycle(f, w, limit);
  }

  // ---- Why the lock is needed ----

  /** An id the cursor has passed without showing is never shown again. */
  lemma {:induction false} PassedIsGone(f: Following, w: World, moves: seq<Move>, id: nat)
    requires id <= w.reader.cursor && id !in w.reader.seen
    ensures id <= Play(f, w, moves).reader.cursor && id !in Play(f, w, moves).reader.seen
  {
    if moves != [] {
      var v := Play(f, w, moves[..|moves| - 1]);
      PassedIsGone(f, w, moves[..|moves| - 1], id);
      match moves[|moves| - 1]
      case Writer(op) =>
      case Mark =>
      case Poll(limit) =>
        if v.reader.mark.Some? && 1 <= limit <= MAX_FEED_LIMIT {
          PageCovers(Visible(v.log.feed, f.tenant, f.scope), v.reader.cursor, limit, v.reader.mark.value);
        }
    }
  }

  lemma PlayOne(f: Following, w: World, moves: seq<Move>, m: Move)
    ensures Play(f, w, moves + [m]) == Step(f, Play(f, w, moves), m)
  {
    assert (moves + [m])[..|moves|] == moves;
  }

  /** Without the lock, two writers can commit out of id order: transaction 1 draws id 1, transaction
      2 draws and commits id 2, a poll moves the cursor to 2, and id 1 commits behind it. */
  lemma UnlockedRunStrands(f: Following, e: Entry) returns (moves: seq<Move>)
    requires !f.c.serialize && InScope(e, f.tenant, f.scope)
    ensures var w := Play(f, World(EMPTY_LOG, Reader(0, 0, [], None)), moves);
            && 1 in Visible(w.log.feed, f.tenant, f.scope)
            && 1 <= w.reader.cursor && 1 !in w.reader.seen
  {
    var w0 := World(EMPTY_LOG, Reader(0, 0, [], None));
    var writes := [Writer(Begin(1, e.tenant)), Writer(Begin(2, e.tenant)), Writer(Allocate(1, e)),
                   Writer(Allocate(2, e)), Writer(Commit(2))];
    moves := writes + [Mark] + [Poll(1)] + [Writer(Commit(1))];
    var w5 := OutOfOrderCommit(f, e, w0);
    assert Visible(w5.log.feed, f.tenant, f.scope) == {2} == Visible(w5.log.feed, f.tenant, Everything);
    var w6, w7 := Step(f, w5, Mark), Step(f, Step(f, w5, Mark), Poll(1));
    PlayOne(f, w0, writes, Mark);
    PlayOne(f, w0, writes + [Mark], Poll(1));
    PlayOne(f, w0, writes + [Mark] + [Poll(1)], Writer(Commit(1)));
    assert w6.reader.mark == Some(2);
    PageCovers({2}, 0, 1, 2);
    var page := Page({2}, 0, 1);
    assert 2 in Between({2}, 0, ResumeAt(0, 1, 2, page)) || |page| == 1 by {
      assert 2 in Above({2}, 0);
    }
    assert |page| == 1 && page[0] in page;
  }

  lemma OutOfOrderCommit(f: Following, e: Entry, w0: World) returns (w5: World)
    requires !f.c.serialize && InScope(e, f.tenant, f.scope)
    requires w0 == World(EMPTY_LOG, Reader(0, 0, [], None))
    ensures w5 == Play(f, w0, [Writer(Begin(1, e.tenant)), Writer(Begin(2, e.tenant)), Writer(Allocate(1, e)),
                               Writer(Allocate(2, e)), Writer(Commit(2))])
    ensures w5.reader == w0.reader && w5.log.feed == map[2 := e]
    ensures 1 in w5.log.open && w5.log.open[1].staged == map[1 := e]
  {
    var a, b, x, y, z := Writer(Begin(1, e.tenant)), Writer(Begin(2, e.tenant)), Writer(Allocate(1, e)),
      Writer(Allocate(2, e)), Writer(Commit(2));
    var w1 := Step(f, w0, a);
    var w2 := Step(f, w1, b);
    var w3 := Step(f, w2, x);
    var w4 := Step(f, w3, y);
    w5 := Step(f, w4, z);
    PlayOne(f, w0, [], a);
    PlayOne(f, w0, [a], b);
    PlayOne(f, w0, [a, b], x);
    PlayOne(f, w0, [a, b, x], y);
    PlayOne(f, w0, [a, b, x, y], z);
    assert [] + [a] == [a] && [a] + [b] == [a, b] && [a, b] + [x] == [a, b, x];
    assert [a, b, x] + [y] == [a, b, x, y] && [a, b, x, y] + [z] == [a, b, x, y, z];
  }
}
