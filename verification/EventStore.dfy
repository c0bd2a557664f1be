/**
 Optimistic append to event streams. Within one call the command lookup, the insert and the lookup
 after a unique violation see different states: other calls commit in between.
 */
module EventStore {
  import opened Wrappers

  datatype Event = Event(tenant: string, stream: string, version: int, kind: string, schema: int,
                         payload: string, actor: string, command: string)

  datatype Request = Request(tenant: string, stream: string, after: int, command: string,
                             kind: string, schema: int, payload: string, actor: string)

  datatype Phase = Called | Checked | Violated | Returned(event: Event) | Conflict | Refused

  datatype Call = Call(req: Request, phase: Phase)

  type CallId = nat

  /** `events` is the committed log, in commit order. */
  datatype World = World(events: seq<Event>, calls: map<CallId, Call>)

  const EMPTY_WORLD := World([], map[])

  datatype Step = Start(k: CallId, req: Request) | Check(k: CallId) | Insert(k: CallId) | Lookup(k: CallId) | Crash(k: CallId)

  predicate Acceptable(r: Request) {
    r.tenant != "" && r.stream != "" && r.command != "" && r.actor != "" && r.kind != ""
  }

  function EventOf(r: Request): Event {
    Event(r.tenant, r.stream, r.after + 1, r.kind, r.schema, r.payload, r.actor, r.command)
  }

  /** The lookup is per tenant. */
  function ByCommand(events: seq<Event>, tenant: string, command: string): (r: Option<Event>)
    ensures r.Some? ==> r.value in events && r.value.tenant == tenant && r.value.command == command
    ensures r.None? ==> forall i :: 0 <= i < |events| ==> !(events[i].tenant == tenant && events[i].command == command)
  {
    if events == [] then None
    else
      var last := events[|events| - 1];
      if last.tenant == tenant && last.command == command then Some(last)
      else ByCommand(events[..|events| - 1], tenant, command)
  }

  predicate SameSlot(a: Event, b: Event) {
    a.tenant == b.tenant && a.stream == b.stream && a.version == b.version
  }

  /** The unique indexes: (tenant, stream, version), and command across all tenants. */
  predicate Violates(events: seq<Event>, e: Event) {
    exists i :: 0 <= i < |events| && (SameSlot(events[i], e) || events[i].command == e.command)
  }

  /** A step its guards refuse changes nothing. */
  function Apply(w: World, step: Step): World {
    match step
    case Start(k, req) =>
      if k in w.calls then w
      else w.(calls := w.calls[k := Call(req, if Acceptable(req) then Called else Refused)])
    case Check(k) =>
      if k in w.calls && w.calls[k].phase == Called
      then
        var found := ByCommand(w.events, w.calls[k].req.tenant, w.calls[k].req.command);
        w.(calls := w.calls[k := w.calls[k].(phase := if found.Some? then Returned(found.value) else Checked)])
      else w
    case Insert(k) =>
      if k in w.calls && w.calls[k].phase == Checked
      then
        var e := EventOf(w.calls[k].req);
        if Violates(w.events, e) then w.(calls := w.calls[k := w.calls[k].(phase := Violated)])
        else World(w.events + [e], w.calls[k := w.calls[k].(phase := Returned(e))])
      else w
    case Lookup(k) =>
      if k in w.calls && w.calls[k].phase == Violated
      then
        var found := ByCommand(w.events, w.calls[k].req.tenant, w.calls[k].req.command);
        w.(calls := w.calls[k := w.calls[k].(phase := if found.Some? then Returned(found.value) else Conflict)])
      else w
    case Crash(k) => w.(calls := w.calls - {k})
  }

  function Run(w: World, steps: seq<Step>): World {
    if steps == [] then w else Apply(Run(w, steps[..|steps| - 1]), steps[|steps| - 1])
  }

  // ---- What every step keeps ----

  /** No two events share a slot, and each command has at most one event. */
  ghost predicate Unique(w: World) {
    forall i, j :: 0 <= i < j < |w.events| ==>
      !SameSlot(w.events[i], w.events[j]) && w.events[i].command != w.events[j].command
  }

  /** What a call has returned is the committed event of its own command. */
  ghost predicate Honest(w: World) {
    forall k :: k in w.calls && w.calls[k].phase.Returned? ==>
      && w.calls[k].phase.event in w.events
      && w.calls[k].phase.event.tenant == w.calls[k].req.tenant
      && w.calls[k].phase.event.command == w.calls[k].req.command
  }

  lemma ApplyKeepsUnique(w: World, step: Step)
    requires Unique(w)
    ensures Unique(Apply(w, step)) && w.events <= Apply(w, step).events
  {
    if step.Insert? && Apply(w, step).events != w.events {
      var e := EventOf(w.calls[step.k].req);
      assert Apply(w, step).events == w.events + [e];
      forall i | 0 <= i < |w.events| ensures !SameSlot(w.events[i], e) && w.events[i].command != e.command {
      }
    }
  }

  lemma ApplyKeepsHonest(w: World, step: Step)
    requires Honest(w)
    ensures Honest(Apply(w, step))
  {
    var w' := Apply(w, step);
    forall k | k in w'.calls && w'.calls[k].phase.Returned?
      ensures w'.calls[k].phase.event in w'.events
      ensures w'.calls[k].phase.event.tenant == w'.calls[k].req.tenant && w'.calls[k].phase.event.command == w'.calls[k].req.command
    {
      if k in w.calls && w'.calls[k] == w.calls[k] {
        assert w.calls[k].phase.event in w.events;
      } else if step.Insert? {
        assert w'.events == w.events + [w'.calls[k].phase.event];
      }
    }
  }

  /** Committed events are never changed or removed, and the unique indexes hold, in every run. */
  lemma {:induction false} RunKeeps(w: World, steps: seq<Step>)
    requires Unique(w) && Honest(w)
    ensures Unique(Run(w, steps)) && Honest(Run(w, steps)) && w.events <= Run(w, steps).events
  {
    if steps != [] {
      RunKeeps(w, steps[..|steps| - 1]);
      ApplyKeepsUnique(Run(w, steps[..|steps| - 1]), steps[|steps| - 1]);
      ApplyKeepsHonest(Run(w, steps[..|steps| - 1]), steps[|steps| - 1]);
    }
  }

  /** Over every run, however often a command is tried and whatever else the retry asks for, every
      call that returns an event for it returns the same one. */
  lemma RetryReturnsSame(steps: seq<Step>, a: CallId, b: CallId)
    requires var w := Run(EMPTY_WORLD, steps);
             && a in w.calls && b in w.calls
             && w.calls[a].req.command == w.calls[b].req.command
             && w.calls[a].phase.Returned? && w.calls[b].phase.Returned?
    ensures var w := Run(EMPTY_WORLD, steps); w.calls[a].phase.event == w.calls[b].phase.event
  {
    RunKeeps(EMPTY_WORLD, steps);
    var w := Run(EMPTY_WORLD, steps);
    var i :| 0 <= i < |w.events| && w.events[i] == w.calls[a].phase.event;
    var j :| 0 <= j < |w.events| && w.events[j] == w.calls[b].phase.event;
    assert i == j;
  }

  /** Field by field, the event is what the request asked for, one past the version it was based on. */
  predicate Carries(e: Event, r: Request) {
    && e.tenant == r.tenant && e.stream == r.stream && e.version == r.after + 1
    && e.kind == r.kind && e.schema == r.schema && e.payload == r.payload
    && e.actor == r.actor && e.command == r.command
  }

  /** A call was started with the event's request, which names all it must. */
  predicate StartedBy(steps: seq<Step>, e: Event, j: nat) {
    && j < |steps| && steps[j].Start? && Carries(e, steps[j].req)
    && "" !in [e.tenant, e.stream, e.command, e.actor, e.kind]
  }

  ghost predicate Started(steps: seq<Step>, e: Event) {
    exists j: nat :: StartedBy(steps, e, j)
  }

  /** Every stored event is that of some started request, and what a call may still store is its own. */
  ghost predicate Sourced(w: World, steps: seq<Step>) {
    && (forall i :: 0 <= i < |w.events| ==> Started(steps, w.events[i]))
    && (forall k :: k in w.calls && !w.calls[k].phase.Refused? ==> Started(steps, EventOf(w.calls[k].req)))
  }

  lemma StartedLonger(steps: seq<Step>, step: Step, e: Event)
    requires Started(steps, e)
    ensures Started(steps + [step], e)
  {
    var j: nat :| StartedBy(steps, e, j);
    assert StartedBy(steps + [step], e, j);
  }

  /** Over every run, each stored event carries, field by field, one acceptable request some call started. */
  lemma {:induction false} RunStoresRequests(steps: seq<Step>)
    ensures Sourced(Run(EMPTY_WORLD, steps), steps)
  {
    if steps != [] {
      var init, step := steps[..|steps| - 1], steps[|steps| - 1];
      assert steps == init + [step];
      RunStoresRequests(init);
      var w, w' := Run(EMPTY_WORLD, init), Run(EMPTY_WORLD, steps);
      forall i | 0 <= i < |w'.events| ensures Started(steps, w'.events[i]) {
        if i < |w.events| {
          assert w'.events[i] == w.events[i];
          StartedLonger(init, step, w.events[i]);
        } else {
          StartedLonger(init, step, EventOf(w.calls[step.k].req));
        }
      }
      forall k | k in w'.calls && !w'.calls[k].phase.Refused? ensures Started(steps, EventOf(w'.calls[k].req)) {
        if k in w.calls {
          StartedLonger(init, step, EventOf(w.calls[k].req));
        } else {
          assert StartedBy(steps, EventOf(step.req), |init|);
        }
      }
    }
  }

  // ---- When a call conflicts ----

  ghost predicate SlotTaken(w: World, r: Request) {
    exists i :: 0 <= i < |w.events| && SameSlot(w.events[i], EventOf(r))
  }

  ghost predicate CommandElsewhere(w: World, r: Request) {
    exists i :: 0 <= i < |w.events| && w.events[i].command == r.command && w.events[i].tenant != r.tenant
  }

  lemma ViolatesExactly(w: World, r: Request)
    ensures Violates(w.events, EventOf(r)) <==>
            ByCommand(w.events, r.tenant, r.command).Some? || SlotTaken(w, r) || CommandElsewhere(w, r)
  {
    if Violates(w.events, EventOf(r)) {
      var i :| 0 <= i < |w.events| && (SameSlot(w.events[i], EventOf(r)) || w.events[i].command == r.command);
      if ByCommand(w.events, r.tenant, r.command).None? {
        assert SlotTaken(w, r) || CommandElsewhere(w, r);
      }
    }
  }

  /** A call whose check found nothing ends in a version conflict exactly when its insert meets a taken
      version, a command of another tenant, or its own command, and its second lookup, after whatever
      others commit in between, finds no event of its tenant for the command. */
  lemma ConflictExactly(w: World, k: CallId, others: seq<Step>)
    requires k in w.calls && w.calls[k].phase == Checked && Foreign(others, k)
    ensures
      var r := w.calls[k].req;
      var w' := Run(Apply(w, Insert(k)), others);
      k in w'.calls
      && (Apply(w', Lookup(k)).calls[k].phase == Conflict
          <==> (ByCommand(w.events, r.tenant, r.command).Some? || SlotTaken(w, r) || CommandElsewhere(w, r))
               && ByCommand(w'.events, r.tenant, r.command).None?)
  {
    ViolatesExactly(w, w.calls[k].req);
    ForeignKeeps(Apply(w, Insert(k)), others, k);
  }

  /** A command id another tenant has used conflicts even where the stream is empty: the index is
      global, the lookup is not. Retrying never helps, for events are never removed. */
  lemma ForeignCommandConflicts(w: World, k: CallId, r: Request)
    requires k !in w.calls && Acceptable(r)
    requires ByCommand(w.events, r.tenant, r.command).None? && CommandElsewhere(w, r)
    ensures
      var w' := Run(w, [Start(k, r), Check(k), Insert(k), Lookup(k)]);
      k in w'.calls && w'.calls[k].phase == Conflict && w'.events == w.events
  {
    var w1 := Apply(w, Start(k, r));
    var w2 := Apply(w1, Check(k));
    var i :| 0 <= i < |w.events| && w.events[i].command == r.command && w.events[i].tenant != r.tenant;
    assert Violates(w2.events, EventOf(r));
    ConflictExactly(w2, k, []);
    Chain([Start(k, r), Check(k), Insert(k), Lookup(k)], [w, w1, w2, Apply(w2, Insert(k)), Apply(Apply(w2, Insert(k)), Lookup(k))]);
  }

  /** A run computed one state at a time. */
  lemma {:induction false} Chain(steps: seq<Step>, worlds: seq<World>)
    requires |worlds| == |steps| + 1
    requires forall i :: 0 <= i < |steps| ==> worlds[i + 1] == Apply(worlds[i], steps[i])
    ensures Run(worlds[0], steps) == worlds[|steps|]
  {
    if steps != [] { Chain(steps[..|steps| - 1], worlds[..|steps|]); }
  }

  // ---- Versions ----

  ghost predicate Has(events: seq<Event>, tenant: string, stream: string, version: int) {
    exists i :: 0 <= i < |events| && InStream(events[i], tenant, stream) && events[i].version == version
  }

  predicate InStream(e: Event, tenant: string, stream: string) {
    e.tenant == tenant && e.stream == stream
  }

  /** MAX(version), null for an empty stream. */
  function MaxVersion(events: seq<Event>, tenant: string, stream: string): (m: Option<int>)
    ensures m.None? <==> forall i :: 0 <= i < |events| ==> !InStream(events[i], tenant, stream)
    ensures m.Some? ==> Has(events, tenant, stream, m.value)
    ensures m.Some? ==> forall i :: 0 <= i < |events| && InStream(events[i], tenant, stream) ==> events[i].version <= m.value
  {
    if events == [] then None
    else
      var init, last := events[..|events| - 1], events[|events| - 1];
      var m := MaxVersion(init, tenant, stream);
      assert m.Some? ==> Has(events, tenant, stream, m.value) by {
        if m.Some? {
          var i :| 0 <= i < |init| && InStream(init[i], tenant, stream) && init[i].version == m.value;
          assert events[i] == init[i];
        }
      }
      assert forall i :: 0 <= i < |init| ==> init[i] == events[i];
      assert InStream(last, tenant, stream) ==> Has(events, tenant, stream, last.version);
      if !InStream(last, tenant, stream) then m
      else if m.Some? && m.value > last.version then m
      else Some(last.version)
  }

  function CurrentVersion(events: seq<Event>, tenant: string, stream: string): int {
    match MaxVersion(events, tenant, stream)
    case Some(v) => v
    case None => 0
  }

  /** The stream's versions are exactly 1..n. */
  ghost predicate Gapless(events: seq<Event>, tenant: string, stream: string) {
    forall v: int :: Has(events, tenant, stream, v) <==> 1 <= v <= CurrentVersion(events, tenant, stream)
  }

  lemma HasAppend(events: seq<Event>, e: Event, tenant: string, stream: string, v: int)
    ensures Has(events + [e], tenant, stream, v) <==> Has(events, tenant, stream, v) || (InStream(e, tenant, stream) && e.version == v)
  {
    var all := events + [e];
    if Has(events, tenant, stream, v) {
      var i :| 0 <= i < |events| && InStream(events[i], tenant, stream) && events[i].version == v;
      assert all[i] == events[i];
    }
    if InStream(e, tenant, stream) && e.version == v {
      assert all[|events|] == e;
    }
  }

  lemma CurrentAppend(events: seq<Event>, e: Event, tenant: string, stream: string)
    ensures
      var before, after := CurrentVersion(events, tenant, stream), CurrentVersion(events + [e], tenant, stream);
      after == if !InStream(e, tenant, stream) then before
               else if e.version >= before || MaxVersion(events, tenant, stream).None? then e.version else before
  {
    assert (events + [e])[..|events|] == events;
  }

  /** A successful append to a gapless stream leaves it gapless exactly when the version it was based
      on lies between 0 and the current version, as every version that was ever current does. */
  lemma AppendGapless(events: seq<Event>, e: Event)
    requires Gapless(events, e.tenant, e.stream) && !Violates(events, e)
    ensures Gapless(events + [e], e.tenant, e.stream) <==>
            0 <= e.version - 1 <= CurrentVersion(events, e.tenant, e.stream)
  {
    var n := CurrentVersion(events, e.tenant, e.stream);
    var t, s := e.tenant, e.stream;
    assert forall i :: 0 <= i < |events| ==> !SameSlot(events[i], e);
    assert !Has(events, t, s, e.version);
    assert n >= 0 by {
      if MaxVersion(events, t, s).Some? { assert Has(events, t, s, n); }
    }
    CurrentAppend(events, e, t, s);
    HasAppend(events, e, t, s, e.version);
    if e.version == n + 1 {
      forall v: int ensures Has(events + [e], t, s, v) <==> 1 <= v <= n + 1 {
        HasAppend(events, e, t, s, v);
      }
    } else if e.version > n + 1 {
      HasAppend(events, e, t, s, n + 1);
    }
  }

  lemma OtherStreamGapless(events: seq<Event>, e: Event, tenant: string, stream: string)
    requires Gapless(events, tenant, stream) && !InStream(e, tenant, stream)
    ensures Gapless(events + [e], tenant, stream)
  {
    CurrentAppend(events, e, tenant, stream);
    forall v: int ensures Has(events + [e], tenant, stream, v) <==> 1 <= v <= CurrentVersion(events + [e], tenant, stream) {
      HasAppend(events, e, tenant, stream, v);
    }
  }

  /** Every call on this stream is based on a version that was once current. */
  ghost predicate OnceCurrent(w: World, steps: seq<Step>, tenant: string, stream: string)
    requires steps != []
  {
    var step := steps[|steps| - 1];
    step.Start? && step.req.tenant == tenant && step.req.stream == stream ==>
      exists j :: 0 <= j < |steps| && step.req.after == CurrentVersion(Run(w, steps[..j]).events, tenant, stream)
  }

  ghost predicate AllOnceCurrent(w: World, steps: seq<Step>, tenant: string, stream: string) {
    forall n :: 0 < n <= |steps| ==> OnceCurrent(w, steps[..n], tenant, stream)
  }

  ghost predicate Based(w: World, tenant: string, stream: string) {
    forall k :: k in w.calls && w.calls[k].req.tenant == tenant && w.calls[k].req.stream == stream ==>
      0 <= w.calls[k].req.after <= CurrentVersion(w.events, tenant, stream)
  }

  lemma ApplyKeepsGapless(w: World, step: Step, tenant: string, stream: string)
    requires Gapless(w.events, tenant, stream) && Based(w, tenant, stream)
    ensures Gapless(Apply(w, step).events, tenant, stream)
    ensures CurrentVersion(w.events, tenant, stream) <= CurrentVersion(Apply(w, step).events, tenant, stream)
  {
    var w' := Apply(w, step);
    if w'.events != w.events {
      var e := EventOf(w.calls[step.k].req);
      assert w'.events == w.events + [e];
      CurrentAppend(w.events, e, tenant, stream);
      if InStream(e, tenant, stream) {
        AppendGapless(w.events, e);
      } else {
        OtherStreamGapless(w.events, e, tenant, stream);
      }
    }
  }

  /** The current version has only grown, from 0. */
  ghost predicate Grown(steps: seq<Step>, tenant: string, stream: string) {
    forall j :: 0 <= j <= |steps| ==>
      0 <= CurrentVersion(Run(EMPTY_WORLD, steps[..j]).events, tenant, stream)
      <= CurrentVersion(Run(EMPTY_WORLD, steps).events, tenant, stream)
  }

  lemma GrownFurther(init: seq<Step>, step: Step, tenant: string, stream: string)
    requires Grown(init, tenant, stream)
    requires CurrentVersion(Run(EMPTY_WORLD, init).events, tenant, stream)
             <= CurrentVersion(Run(EMPTY_WORLD, init + [step]).events, tenant, stream)
    ensures Grown(init + [step], tenant, stream)
  {
    var steps := init + [step];
    forall j | 0 <= j <= |steps|
      ensures 0 <= CurrentVersion(Run(EMPTY_WORLD, steps[..j]).events, tenant, stream)
              <= CurrentVersion(Run(EMPTY_WORLD, steps).events, tenant, stream)
    {
      assert init[..|init|] == init;
      if j <= |init| {
        assert steps[..j] == init[..j];
      } else {
        assert steps[..j] == steps;
      }
    }
  }

  /** When every call was based on a version that was once current, versions are exactly 1..n in
      every reachable state. */
  lemma {:induction false} VersionsGapless(steps: seq<Step>, tenant: string, stream: string)
    requires AllOnceCurrent(EMPTY_WORLD, steps, tenant, stream)
    ensures Gapless(Run(EMPTY_WORLD, steps).events, tenant, stream) && Based(Run(EMPTY_WORLD, steps), tenant, stream)
    ensures Grown(steps, tenant, stream)
  {
    if steps != [] {
      var init, step := steps[..|steps| - 1], steps[|steps| - 1];
      forall n | 0 < n <= |init| ensures OnceCurrent(EMPTY_WORLD, init[..n], tenant, stream) {
        assert init[..n] == steps[..n];
      }
      VersionsGapless(init, tenant, stream);
      var mid := Run(EMPTY_WORLD, init);
      ApplyKeepsGapless(mid, step, tenant, stream);
      assert init + [step] == steps && steps[..|steps|] == steps;
      GrownFurther(init, step, tenant, stream);
      OnceCurrentBased(init, step, tenant, stream);
      StartBased(mid, step, tenant, stream);
    }
  }

  lemma OnceCurrentBased(init: seq<Step>, step: Step, tenant: string, stream: string)
    requires Grown(init, tenant, stream) && OnceCurrent(EMPTY_WORLD, init + [step], tenant, stream)
    ensures step.Start? && step.req.tenant == tenant && step.req.stream == stream ==>
              0 <= step.req.after <= CurrentVersion(Run(EMPTY_WORLD, init).events, tenant, stream)
  {
    var steps := init + [step];
    if step.Start? && step.req.tenant == tenant && step.req.stream == stream {
      var j :| 0 <= j < |steps| && step.req.after == CurrentVersion(Run(EMPTY_WORLD, steps[..j]).events, tenant, stream);
      assert steps[..j] == init[..j];
    }
  }

  lemma StartBased(w: World, step: Step, tenant: string, stream: string)
    requires Based(w, tenant, stream)
    requires CurrentVersion(w.events, tenant, stream) <= CurrentVersion(Apply(w, step).events, tenant, stream)
    requires step.Start? && step.req.tenant == tenant && step.req.stream == stream ==>
               0 <= step.req.after <= CurrentVersion(w.events, tenant, stream)
    ensures Based(Apply(w, step), tenant, stream)
  {
    var w' := Apply(w, step);
    forall k | k in w'.calls && w'.calls[k].req.tenant == tenant && w'.calls[k].req.stream == stream
      ensures 0 <= w'.calls[k].req.after <= CurrentVersion(w'.events, tenant, stream)
    {
      CallsKeepRequests(w, step, k);
    }
  }

  lemma CallsKeepRequests(w: World, step: Step, k: CallId)
    requires k in Apply(w, step).calls
    ensures (k in w.calls && Apply(w, step).calls[k].req == w.calls[k].req)
            || (step.Start? && step.k == k && Apply(w, step).calls[k].req == step.req)
  {
  }

  /** A version nobody ever saw is accepted as well: the first event of a stream may be number 6. */
  lemma FutureVersionLeavesGap(r: Request)
    requires Acceptable(r) && r.after > 0
    ensures !Gapless(Run(EMPTY_WORLD, [Start(0, r), Check(0), Insert(0)]).events, r.tenant, r.stream)
  {
    FirstAppend(r);
    AppendGapless([], EventOf(r));
  }

  lemma FirstAppend(r: Request)
    requires Acceptable(r)
    ensures Run(EMPTY_WORLD, [Start(0, r), Check(0), Insert(0)]).events == [] + [EventOf(r)]
  {
    var s := [Start(0, r), Check(0), Insert(0)];
    var w1 := Apply(EMPTY_WORLD, s[0]);
    var w2 := Apply(w1, s[1]);
    Chain(s, [EMPTY_WORLD, w1, w2, Apply(w2, s[2])]);
  }

  lemma {:induction false} RunConcat(w: World, a: seq<Step>, b: seq<Step>)
    ensures Run(w, a + b) == Run(Run(w, a), b)
  {
    if b == [] {
      assert a + b == a;
    } else {
      assert (a + b)[..|a + b| - 1] == a + b[..|b| - 1];
      RunConcat(w, a, b[..|b| - 1]);
    }
  }

  lemma RunOne(w: World, a: seq<Step>, step: Step)
    ensures Run(w, a + [step]) == Apply(Run(w, a), step)
  {
    assert (a + [step])[..|a|] == a;
  }

  /** No stored event has the version that follows the request's, or its command, whoever's it is. */
  ghost predicate Free(events: seq<Event>, r: Request) {
    forall i :: 0 <= i < |events| ==>
      && !(events[i].tenant == r.tenant && events[i].stream == r.stream && events[i].version == r.after + 1)
      && events[i].command != r.command
  }

  lemma FreeExactly(events: seq<Event>, r: Request)
    ensures Free(events, r) <==> !Violates(events, EventOf(r))
  {
  }

  /** From a log `before` on, only the steps `b` and a last lookup have led to `w`. */
  ghost predicate OnlyOthers(before: seq<Event>, w: World, b: seq<Step>, k: CallId) {
    exists mid: World :: mid.events == before && w == Apply(Run(mid, b), Lookup(k))
  }

  /** The state once a call has started and looked its command up. */
  function LookedUp(w: World, k: CallId, req: Request): World {
    Run(w, [Start(k, req), Check(k)])
  }

  // ---- The stored events ----

  class Store {
    var events: seq<Event>
    var calls: map<CallId, Call>

    function State(): World
      reads this
    {
      World(events, calls)
    }

    constructor ()
      ensures State() == EMPTY_WORLD && Unique(State()) && Honest(State())
    {
      events, calls := [], map[];
    }

    /** Other calls take the steps `steps`. */
    method Interleave(steps: seq<Step>, k: CallId)
      requires Unique(State()) && Honest(State()) && Foreign(steps, k)
      modifies this
      ensures State() == Run(old(State()), steps) && Unique(State()) && Honest(State())
      ensures old(events) <= events
      ensures k in calls <==> k in old(calls)
      ensures k in calls ==> calls[k] == old(calls)[k]
    {
      RunKeeps(State(), steps);
      ForeignKeeps(State(), steps, k);
      var w := Run(State(), steps);
      events, calls := w.events, w.calls;
    }

    method Take(step: Step)
      requires Unique(State()) && Honest(State())
      modifies this
      ensures State() == Apply(old(State()), step) && Unique(State()) && Honest(State())
      ensures old(events) <= events
    {
      ApplyKeepsUnique(State(), step);
      ApplyKeepsHonest(State(), step);
      var w := Apply(State(), step);
      events, calls := w.events, w.calls;
    }

    /**
     One call: look the command up, insert, and on a unique violation look it up again in a fresh
     transaction. `a` and `b` are what others commit in between.
     */
    method Append(k: CallId, req: Request, a: seq<Step>, b: seq<Step>) returns (r: Phase, ghost steps: seq<Step>)
      requires Unique(State()) && Honest(State()) && k !in calls && Foreign(a, k) && Foreign(b, k)
      modifies this
      ensures steps <= [Start(k, req), Check(k)] + (a + [Insert(k)] + b + [Lookup(k)])
      ensures State() == Run(old(State()), steps) && Unique(State()) && Honest(State())
      ensures k in calls && calls[k] == Call(req, r)
      ensures r.Refused? <==> req.tenant == "" || req.stream == "" || req.command == "" || req.actor == "" || req.kind == ""
      ensures !r.Refused? && ByCommand(old(events), req.tenant, req.command).None? ==>
                var before := Run(LookedUp(old(State()), k, req), a).events;
                if Free(before, req)
                then r.Returned? && Carries(r.event, req) && events == before + [r.event]
                else OnlyOthers(before, State(), b, k) && (r == Conflict <==> ByCommand(events, req.tenant, req.command).None?)
      ensures r.Returned? ==> r.event in events && r.event.tenant == req.tenant && r.event.command == req.command
      ensures Acceptable(req) && ByCommand(old(events), req.tenant, req.command).Some? ==>
                r == Returned(ByCommand(old(events), req.tenant, req.command).value) && events == old(events)
      ensures Acceptable(req) ==> r.Returned? || r == Conflict
      ensures r == Conflict ==> SlotTaken(State(), req) || CommandElsewhere(State(), req)
    {
      ghost var w := State();
      LookUpFirst(k, req);
      steps := if Acceptable(req) then [Start(k, req), Check(k)] else [Start(k, req)];
      if calls[k].phase != Checked {
        return calls[k].phase, steps;
      }
      var rest := TryInsert(k, req, a, b);
      RunConcat(w, steps, rest);
      r, steps := calls[k].phase, steps + rest;
    }

    /** Validate the request and look its command up. */
    method LookUpFirst(k: CallId, req: Request)
      requires Unique(State()) && Honest(State()) && k !in calls
      modifies this
      ensures Unique(State()) && Honest(State()) && events == old(events)
      ensures State() == Run(old(State()), if Acceptable(req) then [Start(k, req), Check(k)] else [Start(k, req)])
      ensures k in calls && calls[k].req == req
      ensures calls[k].phase ==
              if !Acceptable(req) then Refused
              else match ByCommand(events, req.tenant, req.command) case Some(e) => Returned(e) case None => Checked
    {
      ghost var w := State();
      Take(Start(k, req));
      RunOne(w, [], Start(k, req));
      assert [] + [Start(k, req)] == [Start(k, req)];
      if Acceptable(req) {
        Take(Check(k));
        RunOne(w, [Start(k, req)], Check(k));
        assert [Start(k, req)] + [Check(k)] == [Start(k, req), Check(k)];
      }
    }

    /** The insert, and the second lookup when it violates a unique index. */
    method TryInsert(k: CallId, req: Request, a: seq<Step>, b: seq<Step>) returns (ghost steps: seq<Step>)
      requires Unique(State()) && Honest(State()) && Foreign(a, k) && Foreign(b, k)
      requires k in calls && calls[k] == Call(req, Checked)
      modifies this
      ensures steps <= a + [Insert(k)] + b + [Lookup(k)]
      ensures State() == Run(old(State()), steps) && Unique(State()) && Honest(State())
      ensures k in calls && calls[k].req == req && (calls[k].phase.Returned? || calls[k].phase == Conflict)
      ensures calls[k].phase == Conflict ==> SlotTaken(State(), req) || CommandElsewhere(State(), req)
      ensures var before := Run(old(State()), a).events;
              if Free(before, req)
              then calls[k].phase.Returned? && Carries(calls[k].phase.event, req) && events == before + [calls[k].phase.event]
              else OnlyOthers(before, State(), b, k)
                   && (calls[k].phase == Conflict <==> ByCommand(events, req.tenant, req.command).None?)
    {
      ghost var w := State();
      ForeignKeeps(w, a, k);
      Interleave(a, k);
      FreeExactly(events, req);
      RunOne(w, a, Insert(k));
      Take(Insert(k));
      steps := a + [Insert(k)];
      if calls[k].phase.Returned? {
        return;
      }
      ghost var i :| 0 <= i < |events| && (SameSlot(events[i], EventOf(req)) || events[i].command == req.command);
      ghost var blocking := events[i];
      Interleave(b, k);
      assert events[i] == blocking;
      RunConcat(w, steps, b);
      RunOne(w, steps + b, Lookup(k));
      Take(Lookup(k));
      steps := steps + b + [Lookup(k)];
    }
  }

  /** None of the steps belongs to call `k`. */
  predicate Foreign(steps: seq<Step>, k: CallId) {
    forall i :: 0 <= i < |steps| ==> steps[i].k != k
  }

  lemma {:induction false} ForeignKeeps(w: World, steps: seq<Step>, k: CallId)
    requires Foreign(steps, k)
    ensures k in Run(w, steps).calls <==> k in w.calls
    ensures k in w.calls ==> Run(w, steps).calls[k] == w.calls[k]
  {
    if steps != [] { ForeignKeeps(w, steps[..|steps| - 1], k); }
  }
}
