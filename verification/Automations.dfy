/**
 Delivery of the change feed to one automation. Several nodes run passes on one stored cursor: each
 reads the cursor, reads a page, and evaluates the entries one by one, advancing the cursor by
 compare-and-set without looking at whether it won.
 */
module Automations {
  import opened Ordering
  import opened ChangeFeed
  import FeedReader
  import FeedStore
  import opened Wrappers

  type NodeId = nat

  const FEED_BATCH := 100

  /** `mark` remembers where this cursor was created. */
  datatype Cursor = Cursor(mark: nat, at: nat)

  /** A pass in progress: the position it believes in, and the entries of its page still to process. */
  datatype Pass = Pass(local: nat, fetched: bool, page: seq<nat>, handled: bool)

  /** One node has considered one entry: fired on it, or declined it as foreign, its own or unmatched. */
  datatype Evaluation = Evaluation(node: NodeId, entry: nat)

  datatype World = World(log: Log, cursor: Option<Cursor>, saves: map<nat, nat>, passes: map<NodeId, Pass>, evals: seq<Evaluation>)

  datatype Step =
    | Writer(op: Op)
    | SaveRead(k: nat)      // Save reads the high-water mark in a transaction of its own
    | SaveWrite(k: nat)     // and seeds the cursor in another, unless there is one
    | Delete
    | Open(n: NodeId)       // a pass reads the cursor, seeding it where an old row has none
    | Fetch(n: NodeId)
    | Evaluate(n: NodeId)
    | Advance(n: NodeId)
    | Crash(n: NodeId)

  datatype Setting = Setting(c: Config, tenant: Tenant)

  function Entries(s: Setting, w: World): set<nat> {
    FeedReader.Visible(w.log.feed, s.tenant, FeedReader.Everything)
  }

  function High(s: Setting, w: World): nat {
    FeedReader.HighWater(w.log.feed, s.tenant)
  }

  function Next(p: Pass): Pass
    requires p.page != []
  {
    Pass(p.page[0], true, p.page[1..], false)
  }

  /** A step its guards refuse changes nothing. */
  function Act(s: Setting, w: World, step: Step): World {
    match step
    case Writer(op) => w.(log := Apply(s.c, w.log, op))
    case SaveRead(k) => w.(saves := w.saves[k := High(s, w)])
    case SaveWrite(k) =>
      if k in w.saves && w.cursor.None? then w.(cursor := Some(Cursor(w.saves[k], w.saves[k]))) else w
    case Delete => w.(cursor := None)
    case Open(n) =>
      var cursor := if w.cursor.Some? then w.cursor.value else Cursor(High(s, w), High(s, w));
      w.(cursor := Some(cursor), passes := w.passes[n := Pass(cursor.at, false, [], false)])
    case Fetch(n) =>
      if n in w.passes && !w.passes[n].fetched
      then w.(passes := w.passes[n := w.passes[n].(fetched := true, page := Page(Entries(s, w), w.passes[n].local, FEED_BATCH))])
      else w
    case Evaluate(n) =>
      if n in w.passes && w.passes[n].page != [] && !w.passes[n].handled
      then w.(evals := w.evals + [Evaluation(n, w.passes[n].page[0])], passes := w.passes[n := w.passes[n].(handled := true)])
      else w
    case Advance(n) =>
      if n in w.passes && w.passes[n].page != [] && w.passes[n].handled
      then
        var p := w.passes[n];
        var won := w.cursor.Some? && w.cursor.value.at == p.local;
        w.(cursor := if won then Some(w.cursor.value.(at := p.page[0])) else w.cursor, passes := w.passes[n := Next(p)])
      else w
    case Crash(n) => w.(passes := w.passes - {n})
  }

  function Play(s: Setting, w: World, steps: seq<Step>): World {
    if steps == [] then w else Act(s, Play(s, w, steps[..|steps| - 1]), steps[|steps| - 1])
  }

  // ---- What every step keeps ----

  ghost predicate Evaluated(w: World, id: nat) {
    exists i :: 0 <= i < |w.evals| && w.evals[i].entry == id
  }

  /** Every entry between the creation mark and the stored cursor has been evaluated by some pass, and
      no entry can still appear there. */
  ghost predicate Covered(s: Setting, w: World) {
    w.cursor.Some? ==>
      && w.cursor.value.mark <= w.cursor.value.at
      && Settled(w.log, s.tenant, w.cursor.value.at)
      && forall id :: id in Entries(s, w) && w.cursor.value.mark < id <= w.cursor.value.at ==> Evaluated(w, id)
  }

  /** A pass's page continues its position without a gap. */
  ghost predicate Contiguous(s: Setting, w: World, p: Pass) {
    && Settled(w.log, s.tenant, p.local)
    && StrictlyAscending(p.page) && (p.page != [] ==> p.fetched)
    && (forall id :: id in p.page ==> p.local < id && id in Entries(s, w))
    && (p.page != [] ==> forall id :: id in Entries(s, w) && p.local < id <= p.page[|p.page| - 1] ==> id in p.page)
    && (p.handled ==> p.page != [] && Evaluated(w, p.page[0]))
  }

  ghost predicate PassesOk(s: Setting, w: World) {
    forall n :: n in w.passes ==> Contiguous(s, w, w.passes[n])
  }

  ghost predicate SavesOk(s: Setting, w: World) {
    forall k :: k in w.saves ==> Settled(w.log, s.tenant, w.saves[k])
  }

  ghost predicate DeliveryInv(s: Setting, w: World) {
    s.c.serialize && Inv(s.c, w.log) && Covered(s, w) && PassesOk(s, w) && SavesOk(s, w)
  }

  /** A committed entry's position is settled, so nothing is ever committed below it. */
  lemma EntrySettled(s: Setting, w: World, id: nat)
    requires s.c.serialize && Inv(s.c, w.log) && id in Entries(s, w)
    ensures Settled(w.log, s.tenant, id)
  {
  }

  /** Below a settled position a writer's step changes no entry. */
  lemma WriterBelow(s: Setting, w: World, op: Op, pos: nat)
    requires s.c.serialize && Inv(s.c, w.log) && Settled(w.log, s.tenant, pos)
    ensures
      var w' := Act(s, w, Writer(op));
      && Settled(w'.log, s.tenant, pos)
      && (forall id: nat :: id <= pos ==> (id in Entries(s, w') <==> id in Entries(s, w)))
      && (forall id: nat :: id in Entries(s, w) ==> id in Entries(s, w'))
  {
    SettledStays(s.c, w.log, op, s.tenant, pos);
  }

  lemma WriterKeepsPass(s: Setting, w: World, op: Op, p: Pass)
    requires s.c.serialize && Inv(s.c, w.log) && Contiguous(s, w, p)
    ensures Contiguous(s, Act(s, w, Writer(op)), p)
  {
    var w' := Act(s, w, Writer(op));
    WriterBelow(s, w, op, p.local);
    if p.page != [] {
      var last := p.page[|p.page| - 1];
      assert last in p.page;
      EntrySettled(s, w, last);
      WriterBelow(s, w, op, last);
    }
    assert p.handled ==> Evaluated(w', p.page[0]);
  }

  lemma WriterKeepsDelivery(s: Setting, w: World, op: Op)
    requires DeliveryInv(s, w)
    ensures DeliveryInv(s, Act(s, w, Writer(op)))
  {
    var w' := Act(s, w, Writer(op));
    ApplyKeepsInv(s.c, w.log, op);
    if w.cursor.Some? {
      WriterBelow(s, w, op, w.cursor.value.at);
      forall id | id in Entries(s, w') && w.cursor.value.mark < id <= w.cursor.value.at ensures Evaluated(w', id) {
        assert Evaluated(w, id);
      }
    }
    forall n | n in w'.passes ensures Contiguous(s, w', w'.passes[n]) {
      WriterKeepsPass(s, w, op, w.passes[n]);
    }
    forall k | k in w'.saves ensures Settled(w'.log, s.tenant, w'.saves[k]) {
      WriterBelow(s, w, op, w.saves[k]);
    }
  }

  lemma EvalsGrow(w: World, w': World, id: nat)
    requires w.evals <= w'.evals && Evaluated(w, id)
    ensures Evaluated(w', id)
  {
    var i :| 0 <= i < |w.evals| && w.evals[i].entry == id;
    assert w'.evals[i] == w.evals[i];
  }

  /** Facts about the feed and the evaluations carry over when the log stays and evaluations only grow. */
  lemma SameFeed(s: Setting, w: World, w': World, n: NodeId)
    requires DeliveryInv(s, w) && w'.log == w.log && w.evals <= w'.evals
    requires forall m :: m in w'.passes && m != n ==> m in w.passes && w'.passes[m] == w.passes[m]
    requires n in w'.passes ==> Contiguous(s, w', w'.passes[n])
    ensures PassesOk(s, w')
  {
    forall m | m in w'.passes ensures Contiguous(s, w', w'.passes[m]) {
      if m != n {
        assert Contiguous(s, w, w.passes[m]);
        if w.passes[m].handled { EvalsGrow(w, w', w.passes[m].page[0]); }
      }
    }
  }

  lemma SameCursor(s: Setting, w: World, w': World)
    requires DeliveryInv(s, w) && w'.log == w.log && w'.cursor == w.cursor && w.evals <= w'.evals
    ensures Covered(s, w')
  {
    if w.cursor.Some? {
      forall id | id in Entries(s, w') && w.cursor.value.mark < id <= w.cursor.value.at ensures Evaluated(w', id) {
        EvalsGrow(w, w', id);
      }
    }
  }

  lemma SeedKeepsDelivery(s: Setting, w: World, step: Step)
    requires DeliveryInv(s, w) && (step.SaveRead? || step.SaveWrite? || step.Delete?)
    ensures DeliveryInv(s, Act(s, w, step))
  {
    var w' := Act(s, w, step);
    FeedReader.HighWaterSettled(s.c, w.log, s.tenant);
    forall n | n in w'.passes ensures Contiguous(s, w', w'.passes[n]) {
      assert Contiguous(s, w, w.passes[n]);
      if w.passes[n].handled { EvalsGrow(w, w', w.passes[n].page[0]); }
    }
    if w'.cursor == w.cursor { SameCursor(s, w, w'); }
  }

  lemma OpenKeepsDelivery(s: Setting, w: World, n: NodeId)
    requires DeliveryInv(s, w)
    ensures DeliveryInv(s, Act(s, w, Open(n)))
  {
    var w' := Act(s, w, Open(n));
    FeedReader.HighWaterSettled(s.c, w.log, s.tenant);
    if w.cursor.Some? { SameCursor(s, w, w'); }
    SameFeed(s, w, w', n);
  }

  lemma FetchKeepsDelivery(s: Setting, w: World, n: NodeId)
    requires DeliveryInv(s, w)
    ensures DeliveryInv(s, Act(s, w, Fetch(n)))
  {
    var w' := Act(s, w, Fetch(n));
    if w' != w {
      assert Contiguous(s, w, w.passes[n]);
      FetchedContiguous(s, w, n);
      SameFeed(s, w, w', n);
      SameCursor(s, w, w');
    }
  }

  lemma FetchedContiguous(s: Setting, w: World, n: NodeId)
    requires DeliveryInv(s, w) && n in w.passes && !w.passes[n].fetched && !w.passes[n].handled
    ensures Contiguous(s, Act(s, w, Fetch(n)), Act(s, w, Fetch(n)).passes[n])
  {
    assert Contiguous(s, w, w.passes[n]);
  }

  lemma EvaluateKeepsDelivery(s: Setting, w: World, n: NodeId)
    requires DeliveryInv(s, w)
    ensures DeliveryInv(s, Act(s, w, Evaluate(n)))
  {
    var w' := Act(s, w, Evaluate(n));
    if w' != w {
      assert Contiguous(s, w, w.passes[n]);
      assert w'.evals[|w.evals|].entry == w.passes[n].page[0];
      assert Evaluated(w', w'.passes[n].page[0]);
      SameFeed(s, w, w', n);
      SameCursor(s, w, w');
    }
  }

  /** The rest of a page continues from its first entry. */
  lemma RestContiguous(s: Setting, w: World, p: Pass)
    requires s.c.serialize && Inv(s.c, w.log) && Contiguous(s, w, p) && p.page != []
    ensures Contiguous(s, w, Next(p))
    ensures forall id :: id in Entries(s, w) && p.local < id <= p.page[0] ==> id == p.page[0]
  {
    var p' := Next(p);
    assert p.page[0] in p.page;
    EntrySettled(s, w, p.page[0]);
    forall id | id in p'.page ensures p'.local < id && id in Entries(s, w) {
      var i :| 0 <= i < |p'.page| && p'.page[i] == id;
      assert p.page[i + 1] == id && id in p.page;
    }
    forall id | id in Entries(s, w) && p.local < id <= p.page[|p.page| - 1] ensures id == p.page[0] || id in p'.page {
      var i :| 0 <= i < |p.page| && p.page[i] == id;
      assert i > 0 ==> p'.page[i - 1] == id;
    }
  }

  lemma AdvanceKeepsDelivery(s: Setting, w: World, n: NodeId)
    requires DeliveryInv(s, w)
    ensures DeliveryInv(s, Act(s, w, Advance(n)))
  {
    var w' := Act(s, w, Advance(n));
    if n in w.passes && w.passes[n].page != [] && w.passes[n].handled {
      var p := w.passes[n];
      assert Contiguous(s, w, p);
      RestContiguous(s, w, p);
      SameFeed(s, w, w', n);
      if w'.cursor == w.cursor {
        SameCursor(s, w, w');
      } else {
        WonAdvanceCovers(s, w, n);
      }
    }
  }

  lemma WonAdvanceCovers(s: Setting, w: World, n: NodeId)
    requires DeliveryInv(s, w) && n in w.passes && w.passes[n].page != [] && w.passes[n].handled
    requires w.cursor.Some? && w.cursor.value.at == w.passes[n].local
    ensures Covered(s, Act(s, w, Advance(n)))
  {
    var p := w.passes[n];
    var w' := Act(s, w, Advance(n));
    assert Contiguous(s, w, p);
    RestContiguous(s, w, p);
    assert p.page[0] in p.page;
    forall id | id in Entries(s, w') && w'.cursor.value.mark < id <= w'.cursor.value.at ensures Evaluated(w', id) {
      if id <= p.local {
        EvalsGrow(w, w', id);
      } else {
        EvalsGrow(w, w', p.page[0]);
      }
    }
  }

  lemma StepKeepsDelivery(s: Setting, w: World, step: Step)
    requires DeliveryInv(s, w)
    ensures DeliveryInv(s, Act(s, w, step))
  {
    match step
    case Writer(op) => WriterKeepsDelivery(s, w, op);
    case Open(n) => OpenKeepsDelivery(s, w, n);
    case Fetch(n) => FetchKeepsDelivery(s, w, n);
    case Evaluate(n) => EvaluateKeepsDelivery(s, w, n);
    case Advance(n) => AdvanceKeepsDelivery(s, w, n);
    case Crash(n) => SameCursor(s, w, Act(s, w, step)); SameFeed(s, w, Act(s, w, step), n);
    case _ => SeedKeepsDelivery(s, w, step);
  }

  /** With any number of runners, crashes, saves and writers interleaving on one cursor, no entry
      between the creation mark and the stored cursor is ever skipped. */
  lemma {:induction false} NothingSkipped(s: Setting, w: World, steps: seq<Step>)
    requires DeliveryInv(s, w)
    ensures DeliveryInv(s, Play(s, w, steps))
  {
    if steps != [] {
      NothingSkipped(s, w, steps[..|steps| - 1]);
      StepKeepsDelivery(s, Play(s, w, steps[..|steps| - 1]), steps[|steps| - 1]);
    }
  }

  /** A stored cursor never moves back and keeps its mark until the automation is deleted. */
  lemma {:induction false} NeverMovesBack(s: Setting, w: World, steps: seq<Step>)
    requires DeliveryInv(s, w) && w.cursor.Some? && Delete !in steps
    ensures
      var w' := Play(s, w, steps);
      w'.cursor.Some? && w'.cursor.value.mark == w.cursor.value.mark && w.cursor.value.at <= w'.cursor.value.at
  {
    if steps != [] {
      var init, step := steps[..|steps| - 1], steps[|steps| - 1];
      NeverMovesBack(s, w, init);
      NothingSkipped(s, w, init);
      var mid := Play(s, w, init);
      if step.Advance? && step.n in mid.passes {
        assert Contiguous(s, mid, mid.passes[step.n]);
        if mid.passes[step.n].page != [] { assert mid.passes[step.n].page[0] in mid.passes[step.n].page; }
      }
    }
  }

  lemma EmptyDelivery(s: Setting)
    requires s.c.serialize
    ensures DeliveryInv(s, World(EMPTY_LOG, None, map[], map[], []))
  {
  }

  // ---- Double processing ----

  function PassSteps(n: NodeId, entries: nat): (steps: seq<Step>)
    ensures |steps| == 2 * entries
  {
    if entries == 0 then [] else PassSteps(n, entries - 1) + [Evaluate(n), Advance(n)]
  }

  function Evaluations(n: NodeId, page: seq<nat>): seq<Evaluation> {
    if page == [] then [] else Evaluations(n, page[..|page| - 1]) + [Evaluation(n, page[|page| - 1])]
  }

  lemma EvaluateAdvance(s: Setting, w: World, n: NodeId)
    requires n in w.passes && !w.passes[n].handled && w.passes[n].page != []
    ensures
      var w' := Act(s, Act(s, w, Evaluate(n)), Advance(n));
      && w'.evals == w.evals + [Evaluation(n, w.passes[n].page[0])] && w'.log == w.log
      && w'.passes == w.passes[n := Next(w.passes[n])]
  {
  }

  /** A pass evaluates its whole page, whether or not any of its advances wins. */
  lemma {:induction false} PassEvaluatesPage(s: Setting, w: World, n: NodeId, k: nat)
    requires n in w.passes && !w.passes[n].handled && k <= |w.passes[n].page|
    ensures
      var w' := Play(s, w, PassSteps(n, k));
      && w'.evals == w.evals + Evaluations(n, w.passes[n].page[..k])
      && w'.log == w.log
      && n in w'.passes && !w'.passes[n].handled && w'.passes[n].page == w.passes[n].page[k..]
      && (forall m :: m in w.passes && m != n ==> m in w'.passes && w'.passes[m] == w.passes[m])
  {
    var page := w.passes[n].page;
    if k > 0 {
      PassEvaluatesPage(s, w, n, k - 1);
      var before := Play(s, w, PassSteps(n, k - 1));
      PlayTwo(s, w, PassSteps(n, k - 1), Evaluate(n), Advance(n));
      EvaluateAdvance(s, before, n);
      EvaluationsNext(n, page, k);
    }
  }

  lemma EvaluationsNext(n: NodeId, page: seq<nat>, k: nat)
    requires 0 < k <= |page|
    ensures forall evals :: evals + Evaluations(n, page[..k]) == (evals + Evaluations(n, page[..k - 1])) + [Evaluation(n, page[k - 1])]
    ensures page[k - 1..][0] == page[k - 1] && page[k - 1..][1..] == page[k..]
  {
    assert page[..k][..k - 1] == page[..k - 1];
  }

  lemma PlayTwo(s: Setting, w: World, steps: seq<Step>, a: Step, b: Step)
    ensures Play(s, w, steps + [a, b]) == Act(s, Act(s, Play(s, w, steps), a), b)
  {
    assert (steps + [a, b])[..|steps| + 1] == steps + [a];
    assert (steps + [a])[..|steps|] == steps;
    assert Play(s, w, steps + [a]) == Act(s, Play(s, w, steps), a);
  }

  lemma {:induction false} PlayConcat(s: Setting, w: World, a: seq<Step>, b: seq<Step>)
    ensures Play(s, w, a + b) == Play(s, Play(s, w, a), b)
  {
    if b == [] {
      assert a + b == a;
    } else {
      assert (a + b)[..|a + b| - 1] == a + b[..|b| - 1];
      PlayConcat(s, w, a, b[..|b| - 1]);
    }
  }

  lemma BothFetch(s: Setting, w: World, a: NodeId, b: NodeId)
    requires w.cursor.Some? && a != b
    ensures
      var page := Page(Entries(s, w), w.cursor.value.at, FEED_BATCH);
      var w' := Play(s, w, [Open(a), Open(b)] + [Fetch(a), Fetch(b)]);
      && w'.evals == w.evals && w'.log == w.log && a in w'.passes && b in w'.passes
      && w'.passes[a] == w'.passes[b] == Pass(w.cursor.value.at, true, page, false)
  {
    PlayTwo(s, w, [], Open(a), Open(b));
    PlayTwo(s, w, [Open(a), Open(b)], Fetch(a), Fetch(b));
    assert [] + [Open(a), Open(b)] == [Open(a), Open(b)];
    assert Play(s, w, []) == w;
  }

  /** Two nodes that start a pass together both evaluate every entry of the page, up to FEED_BATCH of
      them: the compare-and-set does not bound double processing to a single entry. */
  lemma WholePageTwice(s: Setting, w: World, a: NodeId, b: NodeId)
    requires w.cursor.Some? && a != b
    ensures
      var page := Page(Entries(s, w), w.cursor.value.at, FEED_BATCH);
      var steps := [Open(a), Open(b)] + [Fetch(a), Fetch(b)] + PassSteps(a, |page|) + PassSteps(b, |page|);
      Play(s, w, steps).evals == w.evals + Evaluations(a, page) + Evaluations(b, page)
  {
    var page := Page(Entries(s, w), w.cursor.value.at, FEED_BATCH);
    var start := [Open(a), Open(b)] + [Fetch(a), Fetch(b)];
    BothFetch(s, w, a, b);
    var w1 := Play(s, w, start);
    PlayConcat(s, w, start, PassSteps(a, |page|));
    PlayConcat(s, w, start + PassSteps(a, |page|), PassSteps(b, |page|));
    PassEvaluatesPage(s, w1, a, |page|);
    PassEvaluatesPage(s, Play(s, w1, PassSteps(a, |page|)), b, |page|);
    assert page[..|page|] == page;
  }

  // ---- One pass, as the runner performs it ----

  /** What the others do in the pauses of a pass: before the cursor is read, before the page is, and
      before each entry is evaluated and advanced past. */
  datatype Pauses = Pauses(open: seq<Step>, fetch: seq<Step>, evaluate: seq<seq<Step>>, advance: seq<seq<Step>>)

  /** Node `n`'s pass up to the first `k` entries of its page, pauses included. */
  function Script(n: NodeId, p: Pauses, k: nat): seq<Step>
    requires k <= |p.evaluate| == |p.advance|
  {
    if k == 0 then p.open + [Open(n)] + p.fetch + [Fetch(n)]
    else Script(n, p, k - 1) + (p.evaluate[k - 1] + [Evaluate(n)] + p.advance[k - 1] + [Advance(n)])
  }

  predicate Others(steps: seq<Step>, n: NodeId) {
    forall k :: 0 <= k < |steps| ==>
                  match steps[k]
                  case Open(m) => m != n
                  case Fetch(m) => m != n
                  case Evaluate(m) => m != n
                  case Advance(m) => m != n
                  case Crash(m) => m != n
                  case _ => true
  }

  lemma {:induction false} OthersKeepPass(s: Setting, w: World, steps: seq<Step>, n: NodeId)
    requires Others(steps, n)
    ensures n in Play(s, w, steps).passes <==> n in w.passes
    ensures n in w.passes ==> Play(s, w, steps).passes[n] == w.passes[n]
  {
    if steps != [] {
      OthersKeepPass(s, w, steps[..|steps| - 1], n);
      assert Others([steps[|steps| - 1]], n);
    }
  }

  lemma PlayOne(s: Setting, w: World, steps: seq<Step>, step: Step)
    ensures Play(s, w, steps + [step]) == Act(s, Play(s, w, steps), step)
  {
    assert (steps + [step])[..|steps|] == steps;
  }

  /** Two own steps, each after a pause. */
  lemma PlayPaused(s: Setting, w: World, a: seq<Step>, x: Step, b: seq<Step>, y: Step)
    ensures Play(s, w, a + [x] + b + [y]) == Act(s, Play(s, Act(s, Play(s, w, a), x), b), y)
  {
    PlayOne(s, w, a, x);
    PlayConcat(s, w, a + [x], b);
    PlayOne(s, w, a + [x] + b, y);
  }

  /** `after` is the state once node `n` has evaluated and advanced past one entry, each after a pause. */
  ghost predicate OneEntry(s: Setting, n: NodeId, before: World, a: seq<Step>, b: seq<Step>, after: World) {
    after == Act(s, Play(s, Act(s, Play(s, before, a), Evaluate(n)), b), Advance(n))
  }

  lemma ScriptNext(s: Setting, w: World, n: NodeId, p: Pauses, k: nat, before: World, after: World)
    requires k < |p.evaluate| == |p.advance|
    requires Reached(s, w, n, p, k, before) && OneEntry(s, n, before, p.evaluate[k], p.advance[k], after)
    ensures Reached(s, w, n, p, k + 1, after)
  {
    PlayConcat(s, w, Script(n, p, k), p.evaluate[k] + [Evaluate(n)] + p.advance[k] + [Advance(n)]);
    PlayPaused(s, before, p.evaluate[k], Evaluate(n), p.advance[k], Advance(n));
  }

  class AutomationStore {
    const s: Setting
    var log: Log
    var cursor: Option<Cursor>
    var saves: map<nat, nat>
    var passes: map<NodeId, Pass>
    var evals: seq<Evaluation>

    function State(): World
      reads this
    {
      World(log, cursor, saves, passes, evals)
    }

    constructor (s: Setting)
      requires s.c.serialize
      ensures this.s == s && State() == World(EMPTY_LOG, None, map[], map[], []) && DeliveryInv(s, State())
    {
      this.s := s;
      log, cursor, saves, passes, evals := EMPTY_LOG, None, map[], map[], [];
    }

    /** Seed a saved automation's cursor with a mark read earlier, unless it already has one. */
    method SeedCursor(k: nat)
      requires k in saves && DeliveryInv(s, State())
      modifies this
      ensures State() == Act(s, old(State()), SaveWrite(k)) && DeliveryInv(s, State())
    {
      SeedKeepsDelivery(s, State(), SaveWrite(k));
      if cursor.None? {
        cursor := Some(Cursor(saves[k], saves[k]));
      }
    }

    method DeleteCursor()
      requires DeliveryInv(s, State())
      modifies this
      ensures State() == Act(s, old(State()), Delete) && DeliveryInv(s, State())
    {
      SeedKeepsDelivery(s, State(), Delete);
      cursor := None;
    }

    /** The stored position, seeded at the high-water mark when there is none. */
    method ReadCursor(n: NodeId) returns (local: nat)
      modifies this
      ensures State() == Act(s, old(State()), Open(n)) && passes[n] == Pass(local, false, [], false)
    {
      if cursor.None? {
        var high := FeedStore.Highest(FeedReader.Visible(log.feed, s.tenant, FeedReader.Everything));
        cursor := Some(Cursor(high, high));
      }
      local := cursor.value.at;
      passes := passes[n := Pass(local, false, [], false)];
    }

    method ReadPage(n: NodeId, local: nat) returns (changes: seq<nat>)
      requires n in passes && passes[n] == Pass(local, false, [], false)
      modifies this
      ensures State() == Act(s, old(State()), Fetch(n)) && passes[n] == Pass(local, true, changes, false)
      ensures |changes| <= FEED_BATCH
    {
      var ids := FeedReader.Visible(log.feed, s.tenant, FeedReader.Everything);
      var rows := FeedStore.FirstRows(log.feed, ids, local, FEED_BATCH);
      changes := FeedStore.Cursors(rows);
      PageUnique(changes, Page(ids, local, FEED_BATCH), ids, local, FEED_BATCH);
      passes := passes[n := Pass(local, true, changes, false)];
    }

    /** Compare and set; the caller is not told whether it won. */
    method AdvanceCursor(n: NodeId, from: nat, to: nat)
      requires n in passes && passes[n].page != [] && passes[n].handled && passes[n].local == from && passes[n].page[0] == to
      modifies this
      ensures State() == Act(s, old(State()), Advance(n)) && passes[n] == Next(old(passes)[n])
    {
      if cursor.Some? && cursor.value.at == from {
        cursor := Some(cursor.value.(at := to));
      }
      passes := passes[n := Next(passes[n])];
    }

    method Fire(n: NodeId)
      requires n in passes && passes[n].page != [] && !passes[n].handled
      modifies this
      ensures State() == Act(s, old(State()), Evaluate(n)) && passes[n] == old(passes)[n].(handled := true)
    {
      evals := evals + [Evaluation(n, passes[n].page[0])];
      passes := passes[n := passes[n].(handled := true)];
    }

    /** Other nodes, savers and writers take the steps `more`. */
    method Interleave(more: seq<Step>, n: NodeId)
      requires Others(more, n)
      modifies this
      ensures State() == Play(s, old(State()), more)
      ensures n in passes <==> n in old(passes)
      ensures n in passes ==> passes[n] == old(passes)[n]
    {
      OthersKeepPass(s, State(), more, n);
      var world := Play(s, State(), more);
      log, cursor, saves, passes, evals := world.log, world.cursor, world.saves, world.passes, world.evals;
    }

    /** Begin a pass: the cursor, then the page, each after a pause. */
    method Begin(n: NodeId, p: Pauses) returns (local: nat, changes: seq<nat>)
      requires |p.evaluate| == |p.advance| && Others(p.open, n) && Others(p.fetch, n)
      modifies this
      ensures Reached(s, old(State()), n, p, 0, State())
      ensures |changes| <= FEED_BATCH && n in passes && passes[n] == Pass(local, true, changes, false)
    {
      ghost var w := State();
      Interleave(p.open, n);
      local := ReadCursor(n);
      Interleave(p.fetch, n);
      changes := ReadPage(n, local);
      PlayPaused(s, w, p.open, Open(n), p.fetch, Fetch(n));
    }

    /** Process one entry: evaluate it, then advance, each after a pause. */
    method DeliverOne(n: NodeId, local: nat, changes: seq<nat>, i: nat, a: seq<Step>, b: seq<Step>) returns (next: nat)
      requires i < |changes| && Others(a, n) && Others(b, n)
      requires n in passes && passes[n] == Pass(local, true, changes[i..], false)
      modifies this
      ensures OneEntry(s, n, old(State()), a, b, State())
      ensures n in passes && passes[n] == Pass(next, true, changes[i + 1..], false)
    {
      Interleave(a, n);
      Fire(n);
      Interleave(b, n);
      AdvanceCursor(n, local, changes[i]);
      assert changes[i..][1..] == changes[i + 1..];
      return changes[i];
    }

    method DeliverNext(n: NodeId, ghost w: World, p: Pauses, local: nat, changes: seq<nat>, i: nat) returns (next: nat)
      requires i < |changes| <= FEED_BATCH && Undisturbing(p, n)
      requires Reached(s, w, n, p, i, State())
      requires n in passes && passes[n] == Pass(local, true, changes[i..], false)
      modifies this
      ensures Reached(s, w, n, p, i + 1, State())
      ensures n in passes && passes[n] == Pass(next, true, changes[i + 1..], false)
    {
      ghost var before := State();
      assert Others(p.evaluate[i], n) && Others(p.advance[i], n);
      next := DeliverOne(n, local, changes, i, p.evaluate[i], p.advance[i]);
      ScriptNext(s, w, n, p, i, before, State());
    }

    /** Process a fetched page entry by entry. */
    method DeliverPage(n: NodeId, ghost w: World, p: Pauses, start: nat, changes: seq<nat>)
      requires |changes| <= FEED_BATCH && Undisturbing(p, n)
      requires Reached(s, w, n, p, 0, State())
      requires n in passes && passes[n] == Pass(start, true, changes, false)
      modifies this
      ensures Reached(s, w, n, p, |changes|, State())
      ensures n in passes && passes[n].fetched && passes[n].page == [] && !passes[n].handled
    {
      var local := start;
      var entries := 0;
      while entries < |changes|
        invariant entries <= |changes|
        invariant Reached(s, w, n, p, entries, State())
        invariant n in passes && passes[n] == Pass(local, true, changes[entries..], false)
      {
        local := DeliverNext(n, w, p, local, changes, entries);
        entries := entries + 1;
      }
    }

    /** One pass of node `n`: the run of its script, to the end of its page. */
    method Deliver(n: NodeId, p: Pauses) returns (entries: nat)
      requires Undisturbing(p, n)
      modifies this
      ensures entries <= FEED_BATCH && Reached(s, old(State()), n, p, entries, State())
      ensures n in passes && passes[n].fetched && passes[n].page == [] && !passes[n].handled
    {
      ghost var w := State();
      var local, changes := Begin(n, p);
      DeliverPage(n, w, p, local, changes);
      return |changes|;
    }
  }

  ghost predicate Undisturbing(p: Pauses, n: NodeId) {
    && Others(p.open, n) && Others(p.fetch, n)
    && |p.evaluate| == |p.advance| == FEED_BATCH
    && forall j :: 0 <= j < |p.evaluate| ==> Others(p.evaluate[j], n) && Others(p.advance[j], n)
  }

  /** `now` is the state after the first `k` entries of node `n`'s pass from `w`. */
  ghost predicate Reached(s: Setting, w: World, n: NodeId, p: Pauses, k: nat, now: World)
    requires k <= |p.evaluate| == |p.advance|
  {
    now == Play(s, w, Script(n, p, k))
  }
}
