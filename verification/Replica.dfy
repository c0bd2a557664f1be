/**
 A replica of one object: it hydrates from a snapshot paged by row id while writers commit, keeps
 the cursor of its first page, then follows the feed and applies materialized rows. The mark and
 the first page are two transactions; both orders are modelled.
 */
module Replica {
  import opened Ordering
  import opened ChangeFeed
  import opened FeedReader
  import opened Wrappers

  datatype RowState = RowState(content: string, archived: bool)

  /** The object's table beside the feed; `writes` holds rows changed by open transactions. */
  datatype Server = Server(log: Log, table: map<nat, RowState>, writes: map<TxId, map<nat, RowState>>)

  datatype Setup = Setup(c: Config, tenant: Tenant, kind: string, scope: Scope, markFirst: bool)

  datatype ServerOp = Feed(op: Op) | Write(t: TxId, id: nat, row: RowState)

  /** The feed entry a change of row `id` publishes. */
  function Pointer(s: Setup, id: nat): Entry {
    Entry(s.tenant, Audit, id, s.kind)
  }

  predicate Mine(s: Setup, e: Entry) {
    e == Pointer(s, e.ref)
  }

  /** A row is written and its pointer published by one transaction; commit makes both visible. */
  function Serve(s: Setup, v: Server, op: ServerOp): Server {
    match op
    case Write(t, id, row) =>
      if t in v.log.open && v.log.open[t].tenant == s.tenant && (s.c.serialize ==> Holds(s.c, v.log, t))
      then Server(Apply(s.c, v.log, Allocate(t, Pointer(s, id))), v.table,
                  v.writes[t := (if t in v.writes then v.writes[t] else map[])[id := row]])
      else v
    case Feed(Commit(t)) =>
      Server(Apply(s.c, v.log, Commit(t)), if t in v.writes then v.table + v.writes[t] else v.table, v.writes - {t})
    case Feed(Rollback(t)) => v.(log := Apply(s.c, v.log, Rollback(t)), writes := v.writes - {t})
    case Feed(Allocate(t, e)) => if Mine(s, e) then v else v.(log := Apply(s.c, v.log, Allocate(t, e)))
    case Feed(op) => v.(log := Apply(s.c, v.log, op))
  }

  /** How far the snapshot has been paged. */
  datatype Cover = UpTo(pos: int) | All

  predicate Covers(c: Cover, id: nat) {
    c.All? || id <= c.pos
  }

  datatype SnapPage = SnapPage(rows: map<nat, string>, cover: Cover)
  datatype ChangePage = ChangePage(ids: seq<nat>, cursor: int)

  /** What the client holds, and the parts of the response now being assembled for it. */
  datatype Client = Client(
    rows: map<nat, string>, cursor: Option<int>, cover: Cover,
    mark: Option<nat>, snap: Option<SnapPage>, changes: Option<ChangePage>, current: Option<map<nat, RowState>>)

  const FRESH_CLIENT := Client(map[], None, UpTo(-1), None, None, None, None)

  datatype Sync = Sync(server: Server, client: Client)

  datatype Move =
    | Serving(op: ServerOp)
    | ReadMark
    | ReadSnapshot(limit: nat)
    | ApplySnapshot
    | ReadChanges(limit: nat)
    | Materialize
    | ApplyChanges

  function LiveIds(table: map<nat, RowState>): (r: set<nat>)
    ensures forall id :: id in r <==> id in table && !table[id].archived
  {
    set id | id in table && !table[id].archived
  }

  /** One page of the snapshot: live rows by id; a full page continues after its last id. */
  ghost function ListPage(table: map<nat, RowState>, after: int, limit: nat): SnapPage {
    var page := Page(LiveIds(table), after, limit);
    SnapPage(map id | id in page && id in table :: table[id].content,
             if |page| == limit && |page| > 0 then UpTo(page[|page| - 1]) else All)
  }

  /** The rows a change page points at, in their current state; archived rows are included. */
  function Resolve(s: Setup, v: Server, ids: seq<nat>): (r: map<nat, RowState>)
    ensures forall id :: id in r ==> id in v.table && r[id] == v.table[id]
    ensures forall id :: id in r ==> exists j :: j in ids && j in v.log.feed && v.log.feed[j] == Pointer(s, id)
    ensures forall j | j in ids && j in v.log.feed && Mine(s, v.log.feed[j]) && v.log.feed[j].ref in v.table ::
              v.log.feed[j].ref in r
  {
    var refs := set j | j in ids && j in v.log.feed && Mine(s, v.log.feed[j]) :: v.log.feed[j].ref;
    map id | id in refs && id in v.table :: v.table[id]
  }

  predicate Idle(c: Client) {
    c.mark.None? && c.snap.None? && c.changes.None? && c.current.None?
  }

  /** Rows come back archived or live; the replica drops the former and stores the latter. */
  function Patch(rows: map<nat, string>, current: map<nat, RowState>): map<nat, string> {
    map id | id in rows.Keys + current.Keys && (id in current ==> !current[id].archived) ::
      if id in current then current[id].content else rows[id]
  }

  ghost function Step(s: Setup, w: Sync, m: Move): Sync {
    var c := w.client;
    match m
    case Serving(op) => w.(server := Serve(s, w.server, op))
    case ReadMark =>
      // In the snapshot handler's own order the page has been read by now.
      if c.mark.None? && c.changes.None? && (c.cursor.Some? || s.markFirst || c.snap.Some?)
      then w.(client := c.(mark := Some(HighWater(w.server.log.feed, s.tenant)))) else w
    case ReadSnapshot(limit) =>
      if c.cover.UpTo? && c.snap.None? && limit > 0 && (c.cursor.None? && s.markFirst ==> c.mark.Some?)
      then w.(client := c.(snap := Some(ListPage(w.server.table, c.cover.pos, limit)))) else w
    case ApplySnapshot =>
      if c.snap.Some? && (c.cursor.Some? || c.mark.Some?)
      then w.(client := Client(c.rows + c.snap.value.rows,
                               if c.cursor.Some? then c.cursor else Some(c.mark.value),
                               c.snap.value.cover, None, None, None, None))
      else w
    case ReadChanges(limit) =>
      if c.cover.All? && c.cursor.Some? && c.mark.Some? && c.changes.None? && 1 <= limit <= MAX_FEED_LIMIT
      then
        var page := Page(Visible(w.server.log.feed, s.tenant, s.scope), c.cursor.value, limit);
        w.(client := c.(changes := Some(ChangePage(page, ResumeAt(c.cursor.value, limit, c.mark.value, page)))))
      else w
    case Materialize =>
      if c.changes.Some? then w.(client := c.(current := Some(Resolve(s, w.server, c.changes.value.ids)))) else w
    case ApplyChanges =>
      if c.changes.Some? && c.current.Some?
      then w.(client := Client(Patch(c.rows, c.current.value), Some(c.changes.value.cursor), c.cover,
                               None, None, None, None))
      else w
  }

  ghost function Play(s: Setup, w: Sync, moves: seq<Move>): Sync {
    if moves == [] then w
    else Step(s, Play(s, w, moves[..|moves| - 1]), moves[|moves| - 1])
  }

  /** The first page has been read and its mark has not: the window the page-first order leaves open. */
  predicate InWindow(s: Setup, c: Client) {
    !s.markFirst && c.cursor.None? && c.snap.Some? && c.mark.None? && c.changes.None?
  }

  /** Every row the page covers is still as the page has it. */
  ghost predicate PageCurrent(w: Sync)
    requires w.client.snap.Some?
  {
    forall id: nat :: Covers(w.client.snap.value.cover, id) ==> Held(w.client.snap.value.rows, id) == Seen(w.server.table, id)
  }

  /** The mark is read once a row the page covers is no longer as the page has it. */
  ghost predicate Torn(s: Setup, w: Sync, m: Move) {
    m.ReadMark? && InWindow(s, w.client) && !PageCurrent(w)
  }

  ghost predicate NeverTorn(s: Setup, w: Sync, moves: seq<Move>) {
    moves == [] || (NeverTorn(s, w, moves[..|moves| - 1])
                    && !Torn(s, Play(s, w, moves[..|moves| - 1]), moves[|moves| - 1]))
  }

  // ---- Agreement ----

  function Seen(r: map<nat, RowState>, id: nat): Option<string> {
    if id in r && !r[id].archived then Some(r[id].content) else None
  }

  function Held(rows: map<nat, string>, id: nat): Option<string> {
    if id in rows then Some(rows[id]) else None
  }

  /** The feed still holds a pointer to row `id` past position `from`. */
  ghost predicate Owed(s: Setup, v: Server, from: int, id: nat) {
    exists j :: j in v.log.feed && from < j && v.log.feed[j] == Pointer(s, id)
  }

  /** `x` is row `id` as the server has it, or the feed past `from` will say otherwise. */
  ghost predicate Tracks(s: Setup, v: Server, x: Option<string>, from: int, id: nat) {
    x == Seen(v.table, id) || Owed(s, v, from, id)
  }

  /** Open transaction `t` is going to publish a pointer to row `id`. */
  ghost predicate Publishes(s: Setup, l: Log, t: TxId, id: nat) {
    && t in l.open && l.open[t].tenant == s.tenant
    && exists j :: j in l.open[t].staged && l.open[t].staged[j] == Pointer(s, id)
  }

  ghost predicate WritesPointed(s: Setup, v: Server) {
    forall t, id :: t in v.writes && id in v.writes[t] ==> Publishes(s, v.log, t, id)
  }

  ghost predicate PointersBacked(s: Setup, v: Server) {
    && (forall t, j :: t in v.log.open && j in v.log.open[t].staged && Mine(s, v.log.open[t].staged[j]) ==>
          t in v.writes && v.log.open[t].staged[j].ref in v.writes[t])
    && (forall j :: j in v.log.feed && Mine(s, v.log.feed[j]) ==> v.log.feed[j].ref in v.table)
  }

  ghost predicate ServerInv(s: Setup, v: Server) {
    s.c.serialize && Inv(s.c, v.log) && WritesPointed(s, v) && PointersBacked(s, v)
  }

  /** Until its transaction ends, a pointer it staged stays staged. */
  lemma PublishesStays(s: Setup, l: Log, op: Op, t: TxId, id: nat)
    requires Fresh(l) && Publishes(s, l, t, id)
    requires op != Commit(t) && op != Rollback(t)
    ensures Publishes(s, Apply(s.c, l, op), t, id)
  {
    var l' := Apply(s.c, l, op);
    var j :| j in l.open[t].staged && l.open[t].staged[j] == Pointer(s, id);
    assert j in l'.open[t].staged && l'.open[t].staged[j] == Pointer(s, id);
  }

  lemma WriteKeepsPointed(s: Setup, v: Server, t: TxId, id: nat, row: RowState)
    requires ServerInv(s, v)
    ensures WritesPointed(s, Serve(s, v, Write(t, id, row)))
  {
    var v' := Serve(s, v, Write(t, id, row));
    if v' != v {
      forall u, i | u in v'.writes && i in v'.writes[u] ensures Publishes(s, v'.log, u, i) {
        if u == t && i == id {
          assert v'.log.open[t].staged[v.log.next] == Pointer(s, id);
        } else {
          assert u in v.writes && i in v.writes[u];
          PublishesStays(s, v.log, Allocate(t, Pointer(s, id)), u, i);
        }
      }
    }
  }

  lemma WriteKeepsBacked(s: Setup, v: Server, t: TxId, id: nat, row: RowState)
    requires ServerInv(s, v)
    ensures PointersBacked(s, Serve(s, v, Write(t, id, row)))
  {
  }

  lemma FeedKeepsPointed(s: Setup, v: Server, op: Op)
    requires ServerInv(s, v)
    ensures WritesPointed(s, Serve(s, v, Feed(op)))
  {
    var v' := Serve(s, v, Feed(op));
    forall u, i | u in v'.writes && i in v'.writes[u] ensures Publishes(s, v'.log, u, i) {
      assert u in v.writes && i in v.writes[u];
      PublishesStays(s, v.log, op, u, i);
    }
  }

  lemma FeedKeepsBacked(s: Setup, v: Server, op: Op)
    requires ServerInv(s, v)
    ensures PointersBacked(s, Serve(s, v, Feed(op)))
  {
  }

  lemma ServeKeepsInv(s: Setup, v: Server, op: ServerOp)
    requires ServerInv(s, v)
    ensures ServerInv(s, Serve(s, v, op))
  {
    ApplyKeepsInv(s.c, v.log, LogOp(s, op));
    match op
    case Write(t, id, row) =>
      WriteKeepsPointed(s, v, t, id, row);
      WriteKeepsBacked(s, v, t, id, row);
    case Feed(o) =>
      FeedKeepsPointed(s, v, o);
      FeedKeepsBacked(s, v, o);
  }

  /** The feed step behind a server step. */
  function LogOp(s: Setup, op: ServerOp): Op {
    match op
    case Write(t, id, row) => Allocate(t, Pointer(s, id))
    case Feed(o) => o
  }

  lemma ServeKeepsSettled(s: Setup, v: Server, op: ServerOp, pos: int)
    requires ServerInv(s, v) && Settled(v.log, s.tenant, pos)
    ensures Settled(Serve(s, v, op).log, s.tenant, pos)
    ensures forall j | j in Serve(s, v, op).log.feed && j !in v.log.feed
              && Serve(s, v, op).log.feed[j].tenant == s.tenant :: pos < j
    ensures forall j :: j in v.log.feed ==> j in Serve(s, v, op).log.feed && Serve(s, v, op).log.feed[j] == v.log.feed[j]
  {
    SettledStays(s.c, v.log, LogOp(s, op), s.tenant, pos);
  }

  /** The heart of hydration: a commit that changes a tracked row publishes a pointer past any settled position. */
  lemma ServeKeepsTracks(s: Setup, v: Server, op: ServerOp, x: Option<string>, from: int, id: nat)
    requires ServerInv(s, v) && Settled(v.log, s.tenant, from) && Tracks(s, v, x, from, id)
    ensures Tracks(s, Serve(s, v, op), x, from, id)
  {
    var v' := Serve(s, v, op);
    ServeKeepsSettled(s, v, op, from);
    if Owed(s, v, from, id) {
      var j :| j in v.log.feed && from < j && v.log.feed[j] == Pointer(s, id);
      assert j in v'.log.feed && v'.log.feed[j] == Pointer(s, id);
    } else if op.Feed? && op.op.Commit? && op.op.t in v.writes && id in v.writes[op.op.t] {
      assert Publishes(s, v.log, op.op.t, id);
      var j :| j in v.log.open[op.op.t].staged && v.log.open[op.op.t].staged[j] == Pointer(s, id);
      assert j in v'.log.feed && from < j && v'.log.feed[j] == Pointer(s, id);
    }
  }

  // ---- The client's side of the invariant ----

  /** The position the rows received so far are owed from: the cursor, or the mark that will become it. */
  function Base(c: Client): Option<int> {
    if c.cursor.Some? then c.cursor else if c.mark.Some? then Some(c.mark.value) else None
  }

  ghost predicate HeldTracks(s: Setup, w: Sync) {
    && (forall id :: id in w.client.rows ==> Covers(w.client.cover, id))
    && (w.client.cursor.None? ==> w.client.cover == UpTo(-1))
    && (w.client.cursor.Some? ==>
          forall id :: Covers(w.client.cover, id) ==>
            Tracks(s, w.server, Held(w.client.rows, id), w.client.cursor.value, id))
  }

  ghost predicate SnapTracks(s: Setup, w: Sync) {
    var c := w.client;
    c.snap.Some? ==>
      && c.cover.UpTo?
      && (c.cursor.None? && s.markFirst ==> c.mark.Some?)
      && (forall id :: id in c.snap.value.rows ==> !Covers(c.cover, id) && Covers(c.snap.value.cover, id))
      && (forall id :: Covers(c.cover, id) ==> Covers(c.snap.value.cover, id))
      && (forall id :: !Covers(c.cover, id) && Covers(c.snap.value.cover, id) ==>
            Base(c).Some? ==> Tracks(s, w.server, Held(c.snap.value.rows, id), Base(c).value, id))
  }

  ghost predicate ChangesCover(s: Setup, w: Sync) {
    var c := w.client;
    c.changes.Some? ==>
      && c.cover.All? && c.cursor.Some? && c.mark.Some?
      && c.cursor.value <= c.changes.value.cursor
      && Settled(w.server.log, s.tenant, c.changes.value.cursor)
      && (forall j :: j in c.changes.value.ids ==> j in w.server.log.feed)
      && (forall j | j in w.server.log.feed && Mine(s, w.server.log.feed[j])
                       && c.cursor.value < j <= c.changes.value.cursor :: j in c.changes.value.ids)
  }

  ghost predicate CurrentTracks(s: Setup, w: Sync) {
    var c := w.client;
    c.current.Some? ==>
      && c.changes.Some?
      && (forall j :: j in c.changes.value.ids && j in w.server.log.feed && Mine(s, w.server.log.feed[j]) ==>
            w.server.log.feed[j].ref in c.current.value)
      && (forall id :: id in c.current.value ==>
            Tracks(s, w.server, Seen(c.current.value, id), c.changes.value.cursor, id))
  }

  ghost predicate PositionsSettled(s: Setup, w: Sync) {
    && (w.client.cursor.Some? ==> Settled(w.server.log, s.tenant, w.client.cursor.value))
    && (w.client.mark.Some? ==> Settled(w.server.log, s.tenant, w.client.mark.value))
  }

  ghost predicate ReplicaInv(s: Setup, w: Sync) {
    && (s.scope.Everything? || ScopeKeyFor(s.kind) in s.scope.keys)
    && ServerInv(s, w.server)
    && PositionsSettled(s, w)
    && HeldTracks(s, w)
    && SnapTracks(s, w)
    && ChangesCover(s, w)
    && CurrentTracks(s, w)
  }

  lemma ServingKeepsInv(s: Setup, w: Sync, op: ServerOp)
    requires ReplicaInv(s, w)
    ensures ReplicaInv(s, Step(s, w, Serving(op)))
  {
    var v, v', c := w.server, Serve(s, w.server, op), w.client;
    var w' := w.(server := v');
    ServeKeepsInv(s, v, op);
    if c.cursor.Some? {
      ServeKeepsSettled(s, v, op, c.cursor.value);
      forall id | Covers(c.cover, id) ensures Tracks(s, v', Held(c.rows, id), c.cursor.value, id) {
        ServeKeepsTracks(s, v, op, Held(c.rows, id), c.cursor.value, id);
      }
    }
    if c.mark.Some? {
      ServeKeepsSettled(s, v, op, c.mark.value);
    }
    ServingKeepsSnap(s, w, op);
    ServingKeepsChanges(s, w, op);
  }

  lemma ServingKeepsSnap(s: Setup, w: Sync, op: ServerOp)
    requires ReplicaInv(s, w)
    ensures SnapTracks(s, w.(server := Serve(s, w.server, op)))
  {
    var v, v', c := w.server, Serve(s, w.server, op), w.client;
    if c.snap.Some? && Base(c).Some? {
      forall id | !Covers(c.cover, id) && Covers(c.snap.value.cover, id)
        ensures Tracks(s, v', Held(c.snap.value.rows, id), Base(c).value, id)
      {
        ServeKeepsTracks(s, v, op, Held(c.snap.value.rows, id), Base(c).value, id);
      }
    }
  }

  lemma ServingKeepsChanges(s: Setup, w: Sync, op: ServerOp)
    requires ReplicaInv(s, w)
    ensures ChangesCover(s, w.(server := Serve(s, w.server, op)))
    ensures CurrentTracks(s, w.(server := Serve(s, w.server, op)))
  {
    var v, v', c := w.server, Serve(s, w.server, op), w.client;
    if c.changes.Some? {
      ServeKeepsSettled(s, v, op, c.changes.value.cursor);
      if c.current.Some? {
        forall id | id in c.current.value
          ensures Tracks(s, v', Seen(c.current.value, id), c.changes.value.cursor, id)
        {
          ServeKeepsTracks(s, v, op, Seen(c.current.value, id), c.changes.value.cursor, id);
        }
      }
    }
  }

  lemma SnapshotReadKeepsInv(s: Setup, w: Sync, limit: nat)
    requires ReplicaInv(s, w)
    ensures ReplicaInv(s, Step(s, w, ReadSnapshot(limit)))
  {
    var c, w' := w.client, Step(s, w, ReadSnapshot(limit));
    if w' != w {
      var page := Page(LiveIds(w.server.table), c.cover.pos, limit);
      var snap := w'.client.snap.value;
      forall id | !Covers(c.cover, id) && Covers(snap.cover, id)
        ensures Held(snap.rows, id) == Seen(w.server.table, id)
      {
        if id in LiveIds(w.server.table) {
          assert id in Above(LiveIds(w.server.table), c.cover.pos);
        }
      }
      if |page| > 0 { assert page[|page| - 1] in page; }
      forall id | id in snap.rows ensures !Covers(c.cover, id) && Covers(snap.cover, id) {
        assert id in page;
        var i :| 0 <= i < |page| && page[i] == id;
      }
    }
  }

  lemma SnapshotApplyKeepsInv(s: Setup, w: Sync)
    requires ReplicaInv(s, w)
    ensures ReplicaInv(s, Step(s, w, ApplySnapshot))
  {
    var c, w' := w.client, Step(s, w, ApplySnapshot);
    if w' != w && w'.client.cursor.Some? {
      var c' := w'.client;
      forall id | Covers(c'.cover, id)
        ensures Tracks(s, w.server, Held(c'.rows, id), c'.cursor.value, id)
      {
        if Covers(c.cover, id) {
          assert id !in c.snap.value.rows;
          assert Held(c'.rows, id) == Held(c.rows, id);
        } else {
          assert id !in c.rows;
          assert Held(c'.rows, id) == Held(c.snap.value.rows, id);
        }
      }
    }
  }

  lemma ChangesReadKeepsInv(s: Setup, w: Sync, limit: nat)
    requires ReplicaInv(s, w)
    ensures ReplicaInv(s, Step(s, w, ReadChanges(limit)))
  {
    var c, w' := w.client, Step(s, w, ReadChanges(limit));
    if w' != w {
      var ids := Visible(w.server.log.feed, s.tenant, s.scope);
      var page := Page(ids, c.cursor.value, limit);
      PageCovers(ids, c.cursor.value, limit, c.mark.value);
      if |page| > 0 {
        assert page[|page| - 1] in page && page[|page| - 1] in w.server.log.feed;
      }
      forall j | j in w.server.log.feed && Mine(s, w.server.log.feed[j])
            && c.cursor.value < j <= w'.client.changes.value.cursor ensures j in page
      {
        assert j in Between(ids, c.cursor.value, w'.client.changes.value.cursor);
      }
    }
  }

  lemma MaterializeKeepsInv(s: Setup, w: Sync)
    requires ReplicaInv(s, w)
    ensures ReplicaInv(s, Step(s, w, Materialize))
  {
  }

  lemma ChangesApplyKeepsInv(s: Setup, w: Sync)
    requires ReplicaInv(s, w)
    ensures ReplicaInv(s, Step(s, w, ApplyChanges))
  {
    var c, w' := w.client, Step(s, w, ApplyChanges);
    if w' != w {
      var c' := w'.client;
      forall id ensures Tracks(s, w.server, Held(c'.rows, id), c'.cursor.value, id) {
        if id in c.current.value {
          assert Held(c'.rows, id) == Seen(c.current.value, id);
        } else {
          assert Held(c'.rows, id) == Held(c.rows, id);
          assert Tracks(s, w.server, Held(c.rows, id), c.cursor.value, id);
          if Owed(s, w.server, c.cursor.value, id) {
            var j :| j in w.server.log.feed && c.cursor.value < j && w.server.log.feed[j] == Pointer(s, id);
            assert Mine(s, w.server.log.feed[j]);
            assert j > c'.cursor.value;
          }
        }
      }
    }
  }

  lemma MarkKeepsInv(s: Setup, w: Sync)
    requires ReplicaInv(s, w) && !Torn(s, w, ReadMark)
    ensures ReplicaInv(s, Step(s, w, ReadMark))
  {
    HighWaterSettled(s.c, w.server.log, s.tenant);
  }

  lemma StepKeepsReplicaInv(s: Setup, w: Sync, m: Move)
    requires ReplicaInv(s, w) && !Torn(s, w, m)
    ensures ReplicaInv(s, Step(s, w, m))
  {
    match m
    case Serving(op) => ServingKeepsInv(s, w, op);
    case ReadMark => MarkKeepsInv(s, w);
    case ReadSnapshot(limit) => SnapshotReadKeepsInv(s, w, limit);
    case ApplySnapshot => SnapshotApplyKeepsInv(s, w);
    case ReadChanges(limit) => ChangesReadKeepsInv(s, w, limit);
    case Materialize => MaterializeKeepsInv(s, w);
    case ApplyChanges => ChangesApplyKeepsInv(s, w);
  }

  /** Hydration is repaired, never stale: at every step of every run in which no mark is read after a
      row of its first page has changed, each hydrated row is current or a pointer to it is pending. */
  lemma {:induction false} HydrationTracks(s: Setup, w: Sync, moves: seq<Move>)
    requires ReplicaInv(s, w) && NeverTorn(s, w, moves)
    ensures ReplicaInv(s, Play(s, w, moves))
  {
    if moves != [] {
      HydrationTracks(s, w, moves[..|moves| - 1]);
      StepKeepsReplicaInv(s, Play(s, w, moves[..|moves| - 1]), moves[|moves| - 1]);
    }
  }

  /** The condition is exact: reading the mark of a first page keeps hydration repaired if and only if
      every row the page covers is as the page has it. */
  lemma TornExactly(s: Setup, w: Sync)
    requires ReplicaInv(s, w) && InWindow(s, w.client)
    ensures ReplicaInv(s, Step(s, w, ReadMark)) <==> PageCurrent(w)
    ensures
      var w' := Step(s, w, ReadMark);
      && w'.client == w.client.(mark := w'.client.mark) && w'.client.mark.Some?
      && forall id: nat :: Covers(w.client.snap.value.cover, id) ==>
        (Tracks(s, w.server, Held(w.client.snap.value.rows, id), w'.client.mark.value, id)
         <==> Held(w.client.snap.value.rows, id) == Seen(w.server.table, id))
  {
    var w', snap := Step(s, w, ReadMark), w.client.snap.value;
    NothingPastMark(s, w.server);
    if PageCurrent(w) {
      MarkKeepsInv(s, w);
    } else {
      var id: nat :| Covers(snap.cover, id) && Held(snap.rows, id) != Seen(w.server.table, id);
      assert !Tracks(s, w.server, Held(snap.rows, id), w'.client.mark.value, id);
    }
  }

  lemma NothingPastMark(s: Setup, v: Server)
    ensures forall id: nat :: !Owed(s, v, HighWater(v.log.feed, s.tenant), id)
  {
    forall j | j in v.log.feed && v.log.feed[j].tenant == s.tenant ensures j <= HighWater(v.log.feed, s.tenant) {
      assert j in Visible(v.log.feed, s.tenant, Everything);
    }
  }

  /** A commit that gives a row the page covers another state than the page has. */
  predicate Tears(w: Sync, op: ServerOp)
    requires w.client.snap.Some?
  {
    && op.Feed? && op.op.Commit? && op.op.t in w.server.writes
    && exists id: nat | id in w.server.writes[op.op.t] :: Overwrites(w.client.snap.value, w.server.writes[op.op.t], id)
  }

  predicate Overwrites(snap: SnapPage, writes: map<nat, RowState>, id: nat) {
    Covers(snap.cover, id) && Held(snap.rows, id) != Seen(writes, id)
  }

  /** A page is current when it is read, and stays so exactly until such a commit: those of other
      tenants and objects, of rows outside the page, and of rows rewritten as they were, are harmless. */
  lemma PageStaysCurrent(s: Setup, w: Sync, op: ServerOp)
    requires w.client.snap.Some? && PageCurrent(w)
    ensures PageCurrent(Step(s, w, Serving(op))) <==> !Tears(w, op)
  {
    var w', snap := Step(s, w, Serving(op)), w.client.snap.value;
    if op.Feed? && op.op.Commit? && op.op.t in w.server.writes {
      var writes := w.server.writes[op.op.t];
      assert w'.server.table == w.server.table + writes;
      forall id: nat ensures Seen(w'.server.table, id) == if id in writes then Seen(writes, id) else Seen(w.server.table, id) {
      }
      if Tears(w, op) {
        var id: nat :| id in writes && Overwrites(snap, writes, id);
        assert Held(snap.rows, id) != Seen(w'.server.table, id);
      } else {
        forall id: nat | Covers(snap.cover, id) ensures Held(snap.rows, id) == Seen(w'.server.table, id) {
          assert id in writes ==> !Overwrites(snap, writes, id);
        }
      }
    } else {
      assert w'.server.table == w.server.table;
    }
  }

  lemma FirstPageCurrent(s: Setup, w: Sync, limit: nat)
    requires w.client.snap.None? && w.client.cover == UpTo(-1) && Step(s, w, ReadSnapshot(limit)) != w
    ensures PageCurrent(Step(s, w, ReadSnapshot(limit)))
  {
    var w' := Step(s, w, ReadSnapshot(limit));
    var page, snap := Page(LiveIds(w.server.table), -1, limit), w'.client.snap.value;
    forall id: nat | Covers(snap.cover, id) ensures Held(snap.rows, id) == Seen(w.server.table, id) {
      if id in LiveIds(w.server.table) { assert id in Above(LiveIds(w.server.table), -1); }
    }
  }

  // ---- Convergence ----

  function Live(table: map<nat, RowState>): map<nat, string> {
    map id | id in table && !table[id].archived :: table[id].content
  }

  lemma FreshClientInv(s: Setup, v: Server)
    requires ServerInv(s, v) && (s.scope.Everything? || ScopeKeyFor(s.kind) in s.scope.keys)
    ensures ReplicaInv(s, Sync(v, FRESH_CLIENT))
  {
  }

  /** A hydrated client with nothing in hand and no pointer past its cursor holds exactly the live rows. */
  lemma CaughtUpEqualsLive(s: Setup, w: Sync)
    requires ReplicaInv(s, w) && w.client.cover.All? && w.client.cursor.Some?
    requires forall id :: !Owed(s, w.server, w.client.cursor.value, id)
    ensures w.client.rows == Live(w.server.table)
  {
    forall id ensures Held(w.client.rows, id) == Seen(w.server.table, id) {
      assert Tracks(s, w.server, Held(w.client.rows, id), w.client.cursor.value, id);
    }
    var live := Live(w.server.table);
    forall id ensures id in w.client.rows <==> id in live {
      assert Held(w.client.rows, id) == Seen(w.server.table, id);
    }
    assert w.client.rows.Keys == live.Keys;
    forall id | id in live ensures w.client.rows[id] == live[id] {
      assert Held(w.client.rows, id) == Seen(w.server.table, id);
    }
  }

  ghost function CatchUp(s: Setup, w: Sync, limit: nat): Sync {
    Step(s, Step(s, Step(s, Step(s, w, ReadMark), ReadChanges(limit)), Materialize), ApplyChanges)
  }

  /** With writers at rest, one short page of changes makes a hydrated replica equal the live rows. */
  lemma QuiescentReplicaEqualsLive(s: Setup, w: Sync, limit: nat)
    requires ReplicaInv(s, w) && Idle(w.client) && w.client.cover.All? && w.client.cursor.Some?
    requires 1 <= limit <= MAX_FEED_LIMIT
    requires |Page(Visible(w.server.log.feed, s.tenant, s.scope), w.client.cursor.value, limit)| < limit
    ensures CatchUp(s, w, limit).server == w.server
    ensures CatchUp(s, w, limit).client.rows == Live(w.server.table)
  {
    var ids := Visible(w.server.log.feed, s.tenant, s.scope);
    var w1 := Step(s, w, ReadMark);
    var w2 := Step(s, w1, ReadChanges(limit));
    var w3 := Step(s, w2, Materialize);
    var w4 := Step(s, w3, ApplyChanges);
    StepKeepsReplicaInv(s, w, ReadMark);
    StepKeepsReplicaInv(s, w1, ReadChanges(limit));
    StepKeepsReplicaInv(s, w2, Materialize);
    StepKeepsReplicaInv(s, w3, ApplyChanges);
    PageCovers(ids, w.client.cursor.value, limit, w1.client.mark.value);
    forall id ensures !Owed(s, w.server, w4.client.cursor.value, id) {
      forall j | j in w.server.log.feed && w.server.log.feed[j] == Pointer(s, id)
        ensures j <= w4.client.cursor.value
      {
        assert j in ids;
        if j > w.client.cursor.value {
          assert j in Above(ids, w.client.cursor.value);
        }
      }
    }
    CaughtUpEqualsLive(s, w4);
  }

  function Pending(s: Setup, w: Sync): set<nat>
    requires w.client.cursor.Some?
  {
    Above(Visible(w.server.log.feed, s.tenant, s.scope), w.client.cursor.value)
  }

  predicate Hydrated(c: Client) {
    Idle(c) && c.cover.All? && c.cursor.Some?
  }

  lemma NothingAbove(ids: set<nat>, after: int, c: int)
    requires after <= c && Between(ids, after, c) == Above(ids, after)
    ensures Above(ids, c) == {}
  {
    assert forall x: nat :: x in Above(ids, c) ==> x in Between(ids, after, c);
  }

  lemma CatchUpProgress(s: Setup, w: Sync, limit: nat)
    requires ReplicaInv(s, w) && Hydrated(w.client) && 1 <= limit <= MAX_FEED_LIMIT
    ensures
      var w' := CatchUp(s, w, limit);
      && ReplicaInv(s, w') && Hydrated(w'.client) && w'.server == w.server
      && (Pending(s, w') == {} || |Pending(s, w')| < |Pending(s, w)|)
  {
    var ids := Visible(w.server.log.feed, s.tenant, s.scope);
    var w1 := Step(s, w, ReadMark);
    var w2 := Step(s, w1, ReadChanges(limit));
    var w3 := Step(s, w2, Materialize);
    StepKeepsReplicaInv(s, w, ReadMark);
    StepKeepsReplicaInv(s, w1, ReadChanges(limit));
    StepKeepsReplicaInv(s, w2, Materialize);
    StepKeepsReplicaInv(s, w3, ApplyChanges);
    var page, high := Page(ids, w.client.cursor.value, limit), w1.client.mark.value;
    PageCovers(ids, w.client.cursor.value, limit, high);
    if |page| == limit {
      FullPageShrinks(ids, w.client.cursor.value, limit, high);
    } else {
      NothingAbove(ids, w.client.cursor.value, ResumeAt(w.client.cursor.value, limit, high, page));
    }
  }

  ghost function Iterate(f: Sync -> Sync, w: Sync, n: nat): Sync {
    if n == 0 then w else f(Iterate(f, w, n - 1))
  }

  /** What each round keeps, every number of rounds keeps, and what each round shrinks runs out. */
  lemma {:induction false} IterateShrinks(f: Sync -> Sync, ok: Sync -> bool, left: Sync -> nat, w: Sync, n: nat)
    requires ok(w) && forall x: Sync :: ok(x) ==> ok(f(x)) && (left(f(x)) == 0 || left(f(x)) < left(x))
    ensures ok(Iterate(f, w, n)) && (left(Iterate(f, w, n)) == 0 || left(Iterate(f, w, n)) + n <= left(w))
  {
    if n > 0 {
      IterateShrinks(f, ok, left, w, n - 1);
    }
  }

  /** `w'` holds a hydrated client of the server of `w`. */
  ghost predicate Hydrates(s: Setup, w: Sync, w': Sync) {
    w'.server == w.server && ReplicaInv(s, w') && Hydrated(w'.client)
  }

  ghost predicate Converged(w: Sync, w': Sync) {
    w'.server == w.server && w'.client.rows == Live(w.server.table)
  }

  function PendingCount(s: Setup, w: Sync): nat {
    if w.client.cursor.None? then 0 else |Pending(s, w)|
  }

  lemma RoundShrinks(s: Setup, w: Sync, now: Sync, limit: nat)
    requires Hydrates(s, w, now) && 1 <= limit <= MAX_FEED_LIMIT
    ensures Hydrates(s, w, CatchUp(s, now, limit))
    ensures PendingCount(s, CatchUp(s, now, limit)) == 0 || PendingCount(s, CatchUp(s, now, limit)) < PendingCount(s, now)
  {
    CatchUpProgress(s, now, limit);
  }

  lemma LastRound(s: Setup, w: Sync, now: Sync, limit: nat)
    requires Hydrates(s, w, now) && 1 <= limit <= MAX_FEED_LIMIT && PendingCount(s, now) == 0
    ensures Converged(w, CatchUp(s, now, limit))
  {
    assert Pending(s, now) == {};
    assert Page(Visible(now.server.log.feed, s.tenant, s.scope), now.client.cursor.value, limit) == [];
    QuiescentReplicaEqualsLive(s, now, limit);
  }

  lemma RoundsShrink(s: Setup, w: Sync, limit: nat, n: nat, f: Sync -> Sync)
    requires Hydrates(s, w, w) && 1 <= limit <= MAX_FEED_LIMIT && PendingCount(s, w) <= n
    requires forall now: Sync :: f(now) == CatchUp(s, now, limit)
    ensures Hydrates(s, w, Iterate(f, w, n)) && PendingCount(s, Iterate(f, w, n)) == 0
  {
    forall now: Sync | Hydrates(s, w, now)
      ensures Hydrates(s, w, f(now)) && (PendingCount(s, f(now)) == 0 || PendingCount(s, f(now)) < PendingCount(s, now))
    {
      RoundShrinks(s, w, now, limit);
    }
    IterateShrinks(f, now => Hydrates(s, w, now), now => PendingCount(s, now), w, n);
  }

  /** With writers at rest, a hydrated replica equals the live rows after as many rounds of changes as
      there are pending entries and one more, at any legal page size. */
  lemma RoundsConverge(s: Setup, w: Sync, limit: nat, n: nat)
    requires Hydrates(s, w, w) && 1 <= limit <= MAX_FEED_LIMIT && PendingCount(s, w) <= n
    ensures Converged(w, Iterate((now: Sync) => CatchUp(s, now, limit), w, n + 1))
  {
    var f := (now: Sync) => CatchUp(s, now, limit);
    RoundsShrink(s, w, limit, n, f);
    LastRound(s, w, Iterate(f, w, n), limit);
  }

  /** One page of the snapshot; the first one takes its mark, before or after. */
  ghost function Hydrate(s: Setup, w: Sync, limit: nat): Sync {
    if w.client.cover.All? then w
    else
      var first := w.client.cursor.None?;
      var w1 := if first && s.markFirst then Step(s, w, ReadMark) else w;
      var w2 := Step(s, w1, ReadSnapshot(limit));
      var w3 := if first && !s.markFirst then Step(s, w2, ReadMark) else w2;
      Step(s, w3, ApplySnapshot)
  }

  function Unpaged(w: Sync): set<nat> {
    if w.client.cover.All? then {} else Above(LiveIds(w.server.table), w.client.cover.pos)
  }

  /** `w'` holds a client of the server of `w` between two requests of its hydration. */
  ghost predicate Hydrating(s: Setup, w: Sync, w': Sync) {
    w'.server == w.server && ReplicaInv(s, w') && Idle(w'.client) && (w'.client.cover.All? ==> w'.client.cursor.Some?)
  }

  function PagesLeft(w: Sync): nat {
    if w.client.cover.All? then 0 else |Unpaged(w)| + 1
  }

  lemma LaterPage(s: Setup, w: Sync, now: Sync, limit: nat)
    requires Hydrating(s, w, now) && limit > 0 && now.client.cover.UpTo? && now.client.cursor.Some?
    ensures Hydrating(s, w, Hydrate(s, now, limit)) && PagesLeft(Hydrate(s, now, limit)) < PagesLeft(now)
  {
    StepKeepsReplicaInv(s, now, ReadSnapshot(limit));
    StepKeepsReplicaInv(s, Step(s, now, ReadSnapshot(limit)), ApplySnapshot);
    PageShrinks(LiveIds(now.server.table), now.client.cover.pos, limit);
  }

  lemma FirstPage(s: Setup, w: Sync, now: Sync, limit: nat)
    requires Hydrating(s, w, now) && limit > 0 && now.client.cursor.None?
    ensures Hydrating(s, w, Hydrate(s, now, limit)) && PagesLeft(Hydrate(s, now, limit)) < PagesLeft(now)
  {
    if s.markFirst {
      var w1 := Step(s, now, ReadMark);
      var w2 := Step(s, w1, ReadSnapshot(limit));
      StepKeepsReplicaInv(s, now, ReadMark);
      StepKeepsReplicaInv(s, w1, ReadSnapshot(limit));
      StepKeepsReplicaInv(s, w2, ApplySnapshot);
    } else {
      var w2 := Step(s, now, ReadSnapshot(limit));
      var w3 := Step(s, w2, ReadMark);
      StepKeepsReplicaInv(s, now, ReadSnapshot(limit));
      FirstPageCurrent(s, now, limit);
      StepKeepsReplicaInv(s, w2, ReadMark);
      StepKeepsReplicaInv(s, w3, ApplySnapshot);
    }
    PageShrinks(LiveIds(now.server.table), now.client.cover.pos, limit);
  }

  lemma PageShrinks(ids: set<nat>, after: int, limit: nat)
    requires limit > 0
    ensures
      var page := Page(ids, after, limit);
      |page| == limit ==> |Above(ids, page[|page| - 1])| < |Above(ids, after)|
  {
    if |Page(ids, after, limit)| == limit { FullPageShrinks(ids, after, limit, 0); }
  }

  /** Paging the snapshot ends: as many pages as there are live rows and one more cover the table. */
  lemma PagingEnds(s: Setup, w: Sync, limit: nat, n: nat)
    requires Hydrating(s, w, w) && limit > 0 && |Unpaged(w)| <= n
    ensures Hydrates(s, w, Iterate((now: Sync) => Hydrate(s, now, limit), w, n + 1))
  {
    var f := (now: Sync) => Hydrate(s, now, limit);
    forall now | Hydrating(s, w, now)
      ensures Hydrating(s, w, f(now)) && (PagesLeft(f(now)) == 0 || PagesLeft(f(now)) < PagesLeft(now))
    {
      if now.client.cover.UpTo? {
        if now.client.cursor.Some? { LaterPage(s, w, now, limit); } else { FirstPage(s, w, now, limit); }
      }
    }
    IterateShrinks(f, now => Hydrating(s, w, now), now => PagesLeft(now), w, n + 1);
  }

  /** Transaction 7 has rewritten row 0 and drawn id 1; it is about to commit. */
  function AboutToCommit(s: Setup, row: string, newer: string): Server {
    Server(Log(2, map[s.c.key(s.tenant) := 7], map[7 := Tx(s.tenant, map[1 := Pointer(s, 0)])], map[]),
           map[0 := RowState(row, false)], map[7 := map[0 := RowState(newer, false)]])
  }

  function Committed(s: Setup, newer: string): Server {
    Server(Log(2, map[], map[], map[1 := Pointer(s, 0)]), map[0 := RowState(newer, false)], map[])
  }

  lemma AboutToCommitInv(s: Setup, row: string, newer: string)
    requires s.c.serialize
    ensures ServerInv(s, AboutToCommit(s, row, newer))
  {
    var v := AboutToCommit(s, row, newer);
    assert v.log.open[7].staged[1] == Pointer(s, 0);
    assert Publishes(s, v.log, 7, 0);
  }

  lemma TornPage(s: Setup, v: Server, row: string)
    requires !s.markFirst && v.table == map[0 := RowState(row, false)]
    ensures Step(s, Sync(v, FRESH_CLIENT), ReadSnapshot(2))
         == Sync(v, FRESH_CLIENT.(snap := Some(SnapPage(map[0 := row], All))))
  {
    assert LiveIds(v.table) == {0};
    SinglePage(0, -1, 2);
    var snap := ListPage(v.table, -1, 2);
    assert forall id :: id in [0] <==> id == 0;
    assert snap.rows.Keys == {0};
    assert snap.rows == map[0 := row];
  }

  lemma TornCommit(s: Setup, row: string, newer: string)
    ensures Serve(s, AboutToCommit(s, row, newer), Feed(Commit(7))) == Committed(s, newer)
  {
    var v' := Serve(s, AboutToCommit(s, row, newer), Feed(Commit(7)));
    assert v'.table == map[0 := RowState(newer, false)];
    assert v'.log.feed == map[1 := Pointer(s, 0)];
    assert v'.log.locks == map[];
  }

  lemma TornMark(s: Setup, newer: string)
    ensures HighWater(Committed(s, newer).log.feed, s.tenant) == 1
  {
    assert Visible(Committed(s, newer).log.feed, s.tenant, Everything) == {1};
  }

  /** The page-first order loses a change that commits between page and mark: the row is already on
      the page, its pointer is already under the mark, and the caught-up replica stays stale. */
  lemma TornSnapshotLosesChange(s: Setup, row: string, newer: string)
    returns (moves: seq<Move>)
    requires s.c.serialize && !s.markFirst && row != newer
    ensures ServerInv(s, AboutToCommit(s, row, newer))
    ensures var w := Play(s, Sync(AboutToCommit(s, row, newer), FRESH_CLIENT), moves);
            && Idle(w.client) && w.client.cover.All? && w.client.cursor.Some?
            && (forall id :: !Owed(s, w.server, w.client.cursor.value, id))
            && w.client.rows != Live(w.server.table)
  {
    AboutToCommitInv(s, row, newer);
    var v, v' := AboutToCommit(s, row, newer), Committed(s, newer);
    var w0 := Sync(v, FRESH_CLIENT);
    var commit := Serving(Feed(Commit(7)));
    moves := [ReadSnapshot(2)] + [commit] + [ReadMark] + [ApplySnapshot];
    TornPage(s, v, row);
    TornCommit(s, row, newer);
    TornMark(s, newer);
    PlayFour(s, w0, ReadSnapshot(2), commit, ReadMark, ApplySnapshot);
    var w := Play(s, w0, moves);
    assert w == Sync(v', Client(map[] + map[0 := row], Some(1), All, None, None, None, None));
    assert w.client.rows[0] == row && Live(v'.table)[0] == newer;
  }

  lemma PlayOne(s: Setup, w: Sync, moves: seq<Move>, m: Move)
    ensures Play(s, w, moves + [m]) == Step(s, Play(s, w, moves), m)
  {
    assert (moves + [m])[..|moves|] == moves;
  }

  lemma PlayFour(s: Setup, w: Sync, a: Move, b: Move, c: Move, d: Move)
    ensures Play(s, w, [a] + [b] + [c] + [d]) == Step(s, Step(s, Step(s, Step(s, w, a), b), c), d)
  {
    assert [] + [a] == [a];
    PlayOne(s, w, [], a);
    PlayOne(s, w, [a], b);
    PlayOne(s, w, [a] + [b], c);
    PlayOne(s, w, [a] + [b] + [c], d);
  }

  lemma SinglePage(id: nat, after: int, limit: nat)
    requires after < id && limit > 1
    ensures Page({id}, after, limit) == [id]
  {
    assert Above({id}, after) == {id} && Above({id}, id) == {};
    assert Page({id}, id, limit - 1) == [];
    assert Least(Above({id}, after)) == id;
  }
}
