/** Loading a stream: upcasting stored payloads, and folding from a snapshot. */
module Streams {
  import opened EventStore
  import Sorted
  import opened Wrappers

  /** An upcaster migrates a payload one schema version up, or fails. */
  type Upcaster = string -> Option<string>

  datatype Key = Key(kind: string, from: int)

  type Registry = map<Key, Upcaster>

  datatype Upcasted = Upcasted(event: Event) | Failed

  /** The upcasters that can still apply. */
  function Remaining(reg: Registry, ev: Event): set<Key> {
    set k | k in reg && k.kind == ev.kind && k.from >= ev.schema
  }

  lemma FewerRemaining(reg: Registry, ev: Event, payload: string)
    requires Key(ev.kind, ev.schema) in reg
    ensures Remaining(reg, ev.(payload := payload, schema := ev.schema + 1)) < Remaining(reg, ev)
  {
    assert Key(ev.kind, ev.schema) in Remaining(reg, ev);
    assert Key(ev.kind, ev.schema) !in Remaining(reg, ev.(payload := payload, schema := ev.schema + 1));
  }

  /** Every registered step from the stored schema version on. */
  function Upcast(reg: Registry, ev: Event): Upcasted
    decreases Remaining(reg, ev)
  {
    var key := Key(ev.kind, ev.schema);
    if key !in reg then Upcasted(ev)
    else
      match reg[key](ev.payload)
      case None => Failed
      case Some(p) =>
        FewerRemaining(reg, ev, p);
        Upcast(reg, ev.(payload := p, schema := ev.schema + 1))
  }

  /** The loop ends, at the schema version no upcaster starts from. */
  method ApplyUpcasters(reg: Registry, ev: Event) returns (r: Upcasted)
    ensures r == Upcast(reg, ev)
  {
    var cur := ev;
    while Key(cur.kind, cur.schema) in reg
      invariant Upcast(reg, cur) == Upcast(reg, ev)
      decreases Remaining(reg, cur)
    {
      var payload := reg[Key(cur.kind, cur.schema)](cur.payload);
      if payload.None? {
        return Failed;
      }
      FewerRemaining(reg, cur, payload.value);
      cur := cur.(payload := payload.value, schema := cur.schema + 1);
    }
    return Upcasted(cur);
  }

  /** Upcasting reaches a version with no upcaster, changes only the payload and its schema version,
      and upcasting again changes nothing. */
  lemma {:induction false} UpcastSettles(reg: Registry, ev: Event)
    requires Upcast(reg, ev).Upcasted?
    ensures
      var e := Upcast(reg, ev).event;
      && Key(e.kind, e.schema) !in reg && e.schema >= ev.schema
      && e == ev.(payload := e.payload, schema := e.schema)
      && Upcast(reg, e) == Upcasted(e)
    decreases Remaining(reg, ev)
  {
    var key := Key(ev.kind, ev.schema);
    if key in reg {
      var p := reg[key](ev.payload).value;
      FewerRemaining(reg, ev, p);
      UpcastSettles(reg, ev.(payload := p, schema := ev.schema + 1));
    }
  }

  predicate Upcasts(reg: Registry, kind: string, from: int, payloads: seq<string>, i: nat)
    requires i + 1 < |payloads|
  {
    Key(kind, from + i) in reg && reg[Key(kind, from + i)](payloads[i]) == Some(payloads[i + 1])
  }

  /** Each payload is what the upcaster of its schema version makes of the one before. */
  ghost predicate PayloadChain(reg: Registry, kind: string, from: int, payloads: seq<string>) {
    forall i: nat :: i + 1 < |payloads| ==> Upcasts(reg, kind, from, payloads, i)
  }

  /** An event comes out with the last payload of its chain and the version that ends it, or fails when the
      upcaster there does. */
  lemma {:induction false} UpcastChain(reg: Registry, ev: Event, payloads: seq<string>)
    requires payloads != [] && payloads[0] == ev.payload && PayloadChain(reg, ev.kind, ev.schema, payloads)
    ensures
      var n := |payloads| - 1;
      var end := Key(ev.kind, ev.schema + n);
      && (end !in reg ==> Upcast(reg, ev) == Upcasted(ev.(payload := payloads[n], schema := ev.schema + n)))
      && (end in reg && reg[end](payloads[n]).None? ==> Upcast(reg, ev) == Failed)
    decreases |payloads|
  {
    if |payloads| > 1 {
      var rest := payloads[1..];
      var next := ev.schema + 1;
      forall i: nat | i + 1 < |rest| ensures Upcasts(reg, ev.kind, next, rest, i) {
        assert Upcasts(reg, ev.kind, ev.schema, payloads, i + 1);
      }
      assert Upcasts(reg, ev.kind, ev.schema, payloads, 0);
      UpcastChain(reg, ev.(payload := payloads[1], schema := next), rest);
    }
  }

  // ---- Rows of a stream ----

  predicate Selected(e: Event, tenant: string, stream: string, lo: int, hi: Option<int>) {
    InStream(e, tenant, stream) && lo < e.version && (hi.Some? ==> e.version <= hi.value)
  }

  predicate Ascending(rows: seq<Event>) {
    forall i, j :: 0 <= i < j < |rows| ==> rows[i].version < rows[j].version
  }

  /** `rows` are the stream's events with versions above `lo` and up to `hi`, in version order. */
  ghost predicate IsRows(rows: seq<Event>, events: seq<Event>, tenant: string, stream: string, lo: int, hi: Option<int>) {
    Ascending(rows) && forall e :: e in rows <==> e in events && Selected(e, tenant, stream, lo, hi)
  }

  lemma RowsUnique(a: seq<Event>, b: seq<Event>)
    requires Ascending(a) && Ascending(b) && forall e :: e in a <==> e in b
    ensures a == b
  {
    Sorted.Unique((x: Event, y: Event) => x.version < y.version, a, b);
  }

  /** The rows up to a version and the rows after it make up all rows. */
  lemma RowsSplit(all: seq<Event>, early: seq<Event>, late: seq<Event>, events: seq<Event>, tenant: string, stream: string, lo: int, v: int)
    requires lo <= v
    requires IsRows(all, events, tenant, stream, lo, None)
    requires IsRows(early, events, tenant, stream, lo, Some(v)) && IsRows(late, events, tenant, stream, v, None)
    ensures all == early + late
  {
    forall i, j | 0 <= i < j < |early + late| ensures (early + late)[i].version < (early + late)[j].version {
      if i < |early| <= j {
        assert early[i] in early && late[j - |early|] in late;
      }
    }
    RowsUnique(all, early + late);
  }

  /** The row loop behind `ORDER BY version ASC`: each matching event is inserted in place. */
  method SelectRows(events: seq<Event>, tenant: string, stream: string, after: int) returns (rows: seq<Event>)
    requires forall i, j :: 0 <= i < j < |events| ==> !SameSlot(events[i], events[j])
    ensures IsRows(rows, events, tenant, stream, after, None)
    ensures forall e :: e in rows <==> e in events && e.tenant == tenant && e.stream == stream && e.version > after
  {
    rows := [];
    for i := 0 to |events|
      invariant IsRows(rows, events[..i], tenant, stream, after, None)
    {
      var e := events[i];
      assert events[..i + 1] == events[..i] + [e];
      if Selected(e, tenant, stream, after, None) {
        forall r | r in rows ensures r.version != e.version {
          var j :| 0 <= j < i && events[j] == r;
          assert !SameSlot(events[j], events[i]);
        }
        rows := Insert(rows, e);
      }
    }
    assert events[..|events|] == events;
  }

  function Insert(rows: seq<Event>, e: Event): (r: seq<Event>)
    requires Ascending(rows) && forall x :: x in rows ==> x.version != e.version
    ensures Ascending(r) && forall x :: x in r <==> x in rows || x == e
  {
    if rows == [] then [e]
    else
      var init, last := rows[..|rows| - 1], rows[|rows| - 1];
      assert rows == init + [last] && last in rows;
      if last.version < e.version then
        assert forall i :: 0 <= i < |rows| ==> rows[i].version <= last.version;
        rows + [e]
      else
        var r := Insert(init, e);
        assert forall x :: x in init ==> x.version < last.version;
        r + [last]
  }

  // ---- Folding ----

  datatype Loaded = Loaded(events: seq<Event>) | LoadFailed

  /** Upcast every row; the first failure fails the load. */
  function UpcastAll(reg: Registry, rows: seq<Event>): Loaded {
    if rows == [] then Loaded([])
    else match UpcastAll(reg, rows[..|rows| - 1])
      case LoadFailed => LoadFailed
      case Loaded(list) =>
        match Upcast(reg, rows[|rows| - 1])
        case Failed => LoadFailed
        case Upcasted(e) => Loaded(list + [e])
  }

  lemma {:induction false} UpcastConcat(reg: Registry, a: seq<Event>, b: seq<Event>)
    requires UpcastAll(reg, a).Loaded?
    ensures UpcastAll(reg, a + b) ==
            match UpcastAll(reg, b)
            case LoadFailed => LoadFailed
            case Loaded(list) => Loaded(UpcastAll(reg, a).events + list)
  {
    if b == [] {
      assert a + b == a;
      assert UpcastAll(reg, a).events + [] == UpcastAll(reg, a).events;
    } else {
      var init, last := b[..|b| - 1], b[|b| - 1];
      UpcastConcat(reg, a, init);
      assert (a + b)[..|a + b| - 1] == a + init && (a + b)[|a + b| - 1] == last;
      if UpcastAll(reg, init).Loaded? && Upcast(reg, last).Upcasted? {
        var list, e := UpcastAll(reg, init).events, Upcast(reg, last).event;
        assert UpcastAll(reg, a).events + (list + [e]) == (UpcastAll(reg, a).events + list) + [e];
      }
    }
  }

  type Folder = (string, Event) -> string

  function Fold(f: Folder, state: string, events: seq<Event>): string {
    if events == [] then state else f(Fold(f, state, events[..|events| - 1]), events[|events| - 1])
  }

  lemma {:induction false} FoldConcat(f: Folder, state: string, a: seq<Event>, b: seq<Event>)
    ensures Fold(f, state, a + b) == Fold(f, Fold(f, state, a), b)
  {
    if b == [] {
      assert a + b == a;
    } else {
      assert (a + b)[..|a + b| - 1] == a + b[..|b| - 1];
      FoldConcat(f, state, a, b[..|b| - 1]);
    }
  }

  datatype Snapshot = Snapshot(version: int, state: string)

  /** The snapshot's state is the fold of the upcast events up to its version, `early`. */
  ghost predicate HonestSnapshot(reg: Registry, f: Folder, zero: string, snap: Snapshot, early: seq<Event>) {
    UpcastAll(reg, early).Loaded? && snap.state == Fold(f, zero, UpcastAll(reg, early).events)
  }

  /** Folding an honest snapshot plus the later upcast events equals folding the whole upcast stream,
      and the one load fails exactly when the other does. */
  lemma SnapshotFoldsSame(reg: Registry, f: Folder, zero: string, snap: Snapshot, events: seq<Event>, tenant: string, stream: string,
                          all: seq<Event>, early: seq<Event>, late: seq<Event>)
    requires snap.version >= 0 && HonestSnapshot(reg, f, zero, snap, early)
    requires IsRows(all, events, tenant, stream, 0, None)
    requires IsRows(early, events, tenant, stream, 0, Some(snap.version)) && IsRows(late, events, tenant, stream, snap.version, None)
    ensures UpcastAll(reg, late).Loaded? <==> UpcastAll(reg, all).Loaded?
    ensures UpcastAll(reg, late).Loaded? ==>
              Fold(f, snap.state, UpcastAll(reg, late).events) == Fold(f, zero, UpcastAll(reg, all).events)
  {
    RowsSplit(all, early, late, events, tenant, stream, 0, snap.version);
    UpcastConcat(reg, early, late);
    if UpcastAll(reg, late).Loaded? {
      FoldConcat(f, zero, UpcastAll(reg, early).events, UpcastAll(reg, late).events);
    }
  }

  /** In a gapless stream every append is after any version up to the current one. */
  lemma GaplessAppendIsLater(events: seq<Event>, e: Event, v: int)
    requires Gapless(events, e.tenant, e.stream) && !Violates(events, e)
    requires 0 <= e.version - 1 && v <= CurrentVersion(events, e.tenant, e.stream)
    ensures e.version > v
  {
    assert forall i :: 0 <= i < |events| ==> !SameSlot(events[i], e);
    assert !Has(events, e.tenant, e.stream, e.version);
  }

  /** However many events are appended, the rows a snapshot covers are as they were exactly when none of
      the new ones falls among them. */
  lemma CoveredRowsExactly(early: seq<Event>, events: seq<Event>, later: seq<Event>, tenant: string, stream: string, v: int)
    requires IsRows(early, events, tenant, stream, 0, Some(v))
    ensures IsRows(early, events + later, tenant, stream, 0, Some(v))
            <==> forall e :: e in later && Selected(e, tenant, stream, 0, Some(v)) ==> e in events
  {
    if IsRows(early, events + later, tenant, stream, 0, Some(v)) {
      forall e | e in later && Selected(e, tenant, stream, 0, Some(v)) ensures e in events {
        assert e in events + later;
      }
    }
  }

  /** Each event finds its place free, and one of the stream is based on a version that is or was current. */
  ghost predicate Follow(events: seq<Event>, later: seq<Event>, tenant: string, stream: string) {
    later == [] ||
    (var init, e := later[..|later| - 1], later[|later| - 1];
     && Follow(events, init, tenant, stream)
     && !Violates(events + init, e)
     && (InStream(e, tenant, stream) ==> 0 <= e.version - 1 <= CurrentVersion(events + init, tenant, stream)))
  }

  lemma {:induction false} FollowGapless(events: seq<Event>, later: seq<Event>, tenant: string, stream: string, v: int)
    requires Gapless(events, tenant, stream) && Follow(events, later, tenant, stream)
    requires v <= CurrentVersion(events, tenant, stream)
    ensures Gapless(events + later, tenant, stream) && v <= CurrentVersion(events + later, tenant, stream)
    ensures forall e :: e in later && InStream(e, tenant, stream) ==> e.version > v
  {
    if later == [] {
      assert events + later == events;
    } else {
      var init, e := later[..|later| - 1], later[|later| - 1];
      FollowGapless(events, init, tenant, stream, v);
      assert events + later == events + init + [e] && later == init + [e];
      assert forall i :: 0 <= i < |events| ==> (events + init)[i] == events[i];
      CurrentAppend(events + init, e, tenant, stream);
      if InStream(e, tenant, stream) {
        AppendGapless(events + init, e);
        GaplessAppendIsLater(events + init, e, v);
      } else {
        OtherStreamGapless(events + init, e, tenant, stream);
      }
    }
  }

  /** A snapshot that was honest when it was saved stays so: whatever is appended to a gapless stream
      afterwards, folding it with the later events equals folding the whole stream. */
  lemma SnapshotStaysHonest(reg: Registry, f: Folder, zero: string, snap: Snapshot, events: seq<Event>, later: seq<Event>,
                            tenant: string, stream: string, all: seq<Event>, early: seq<Event>, late: seq<Event>)
    requires HonestSnapshot(reg, f, zero, snap, early) && IsRows(early, events, tenant, stream, 0, Some(snap.version))
    requires 0 <= snap.version <= CurrentVersion(events, tenant, stream)
    requires Gapless(events, tenant, stream) && Follow(events, later, tenant, stream)
    requires IsRows(all, events + later, tenant, stream, 0, None) && IsRows(late, events + later, tenant, stream, snap.version, None)
    ensures UpcastAll(reg, late).Loaded? <==> UpcastAll(reg, all).Loaded?
    ensures UpcastAll(reg, late).Loaded? ==>
              Fold(f, snap.state, UpcastAll(reg, late).events) == Fold(f, zero, UpcastAll(reg, all).events)
  {
    FollowGapless(events, later, tenant, stream, snap.version);
    CoveredRowsExactly(early, events, later, tenant, stream, snap.version);
    SnapshotFoldsSame(reg, f, zero, snap, events + later, tenant, stream, all, early, late);
  }

  // ---- Stored snapshots ----

  datatype StreamKey = StreamKey(tenant: string, stream: string)

  class StreamStore {
    var events: seq<Event>
    var snapshots: map<StreamKey, Snapshot>

    constructor (events: seq<Event>)
      ensures this.events == events && snapshots == map[]
    {
      this.events := events;
      snapshots := map[];
    }

    /** One snapshot per stream: a save overwrites whatever was there. */
    method SaveSnapshot(tenant: string, stream: string, version: int, state: string) returns (ok: bool)
      modifies this`snapshots
      ensures ok <==> tenant != "" && stream != ""
      ensures snapshots == if ok then old(snapshots)[StreamKey(tenant, stream) := Snapshot(version, state)] else old(snapshots)
    {
      if tenant == "" || stream == "" {
        return false;
      }
      snapshots := snapshots[StreamKey(tenant, stream) := Snapshot(version, state)];
      return true;
    }

    /** The latest snapshot, and, in a transaction of its own, every event after its version, upcast.
        `later` and `saved` are what others append and save in between. */
    method LoadStream(tenant: string, stream: string, reg: Registry, later: seq<Event>, saved: map<StreamKey, Snapshot>)
      returns (snapshot: Option<Snapshot>, r: Loaded)
      requires forall i, j :: 0 <= i < j < |events + later| ==> !SameSlot((events + later)[i], (events + later)[j])
      modifies this
      ensures tenant == "" || stream == "" ==> r == LoadFailed && events == old(events) && snapshots == old(snapshots)
      ensures tenant != "" && stream != "" ==>
                && events == old(events) + later && snapshots == old(snapshots) + saved
                && snapshot == (if StreamKey(tenant, stream) in old(snapshots) then Some(old(snapshots)[StreamKey(tenant, stream)]) else None)
                && exists rows ::
                     && IsRows(rows, events, tenant, stream, if snapshot.Some? then snapshot.value.version else 0, None)
                     && r == UpcastAll(reg, rows)
    {
      if tenant == "" || stream == "" {
        return None, LoadFailed;
      }
      var key := StreamKey(tenant, stream);
      snapshot := if key in snapshots then Some(snapshots[key]) else None;
      var after := if snapshot.Some? then snapshot.value.version else 0;
      events, snapshots := events + later, snapshots + saved;
      var rows := SelectRows(events, tenant, stream, after);
      var list: seq<Event> := [];
      for i := 0 to |rows|
        invariant UpcastAll(reg, rows[..i]) == Loaded(list)
        invariant events == old(events) + later && snapshots == old(snapshots) + saved
      {
        assert rows[..i + 1][..i] == rows[..i];
        var e := ApplyUpcasters(reg, rows[i]);
        if e.Failed? {
          FailsEarly(reg, rows, i + 1);
          return snapshot, LoadFailed;
        }
        list := list + [e.event];
      }
      assert rows[..|rows|] == rows;
      return snapshot, Loaded(list);
    }
  }

  lemma {:induction false} FailsEarly(reg: Registry, rows: seq<Event>, n: nat)
    requires n <= |rows| && UpcastAll(reg, rows[..n]).LoadFailed?
    ensures UpcastAll(reg, rows).LoadFailed?
  {
    if n < |rows| {
      assert rows[..|rows| - 1][..n] == rows[..n];
      FailsEarly(reg, rows[..|rows| - 1], n);
    } else {
      assert rows[..n] == rows;
    }
  }
}
