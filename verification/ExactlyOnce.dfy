/** How often delivery evaluates an entry: exactly once when passes do not overlap, and again exactly
 when a pass stands below an entry that has been evaluated already. */
module ExactlyOnce {
  import opened Ordering
  import opened ChangeFeed
  import FeedReader
  import opened Automations
  import opened Wrappers

  const EMPTY_DELIVERY := World(EMPTY_LOG, None, map[], map[], [])

  // ---- The evaluated entries have no gap ----

  /** Every entry past the creation mark, up to `pos`, has been evaluated. */
  ghost predicate AllUpTo(s: Setting, w: World, mark: nat, pos: nat) {
    mark <= pos && forall id :: id in Entries(s, w) && mark < id <= pos ==> Evaluated(w, id)
  }

  ghost predicate PassesBehind(s: Setting, w: World) {
    forall n :: n in w.passes ==> w.cursor.Some? && AllUpTo(s, w, w.cursor.value.mark, w.passes[n].local)
  }

  ghost predicate EvalsContiguous(s: Setting, w: World) {
    forall i :: 0 <= i < |w.evals| ==>
      && w.cursor.Some? && w.cursor.value.mark < w.evals[i].entry && w.evals[i].entry in Entries(s, w)
      && AllUpTo(s, w, w.cursor.value.mark, w.evals[i].entry)
  }

  ghost predicate Gapless(s: Setting, w: World) {
    DeliveryInv(s, w) && PassesBehind(s, w) && EvalsContiguous(s, w)
  }

  /** What was evaluated stays so; below a settled position no entry appears. */
  lemma AllUpToStays(s: Setting, w: World, step: Step, mark: nat, pos: nat)
    requires DeliveryInv(s, w) && Settled(w.log, s.tenant, pos) && AllUpTo(s, w, mark, pos)
    ensures AllUpTo(s, Act(s, w, step), mark, pos)
  {
    var w' := Act(s, w, step);
    forall id | id in Entries(s, w') && mark < id <= pos ensures Evaluated(w', id) {
      if step.Writer? { WriterBelow(s, w, step.op, pos); }
      EvalsGrow(w, w', id);
    }
  }

  lemma KeepsPassesBehind(s: Setting, w: World, step: Step)
    requires Gapless(s, w) && step != Delete
    ensures PassesBehind(s, Act(s, w, step))
  {
    var w' := Act(s, w, step);
    forall n | n in w'.passes ensures w'.cursor.Some? && AllUpTo(s, w', w'.cursor.value.mark, w'.passes[n].local) {
      if step == Open(n) {
        if w.cursor.Some? { AllUpToStays(s, w, step, w.cursor.value.mark, w.cursor.value.at); }
      } else {
        assert n in w.passes && Contiguous(s, w, w.passes[n]);
        assert w'.cursor.value.mark == w.cursor.value.mark;
        AllUpToStays(s, w, step, w.cursor.value.mark, w.passes[n].local);
        if w'.passes[n].local != w.passes[n].local {
          AdvancedBehind(s, w, n);
        }
      }
    }
  }

  lemma AdvancedBehind(s: Setting, w: World, n: NodeId)
    requires Gapless(s, w) && n in w.passes && w.passes[n].page != [] && w.passes[n].handled
    ensures
      var w' := Act(s, w, Advance(n));
      w'.cursor.Some? && AllUpTo(s, w', w'.cursor.value.mark, w'.passes[n].local)
  {
    var p, w' := w.passes[n], Act(s, w, Advance(n));
    assert Contiguous(s, w, p);
    RestContiguous(s, w, p);
    assert p.page[0] in p.page;
    forall id | id in Entries(s, w') && w.cursor.value.mark < id <= p.page[0] ensures Evaluated(w', id) {
      if id <= p.local { assert Evaluated(w, id); }
      EvalsGrow(w, w', id);
    }
  }

  lemma KeepsContiguous(s: Setting, w: World, step: Step)
    requires Gapless(s, w) && step != Delete
    ensures EvalsContiguous(s, Act(s, w, step))
  {
    var w' := Act(s, w, step);
    forall i | 0 <= i < |w'.evals|
      ensures w'.cursor.Some? && w'.cursor.value.mark < w'.evals[i].entry && w'.evals[i].entry in Entries(s, w')
      ensures AllUpTo(s, w', w'.cursor.value.mark, w'.evals[i].entry)
    {
      if i < |w.evals| {
        EntrySettled(s, w, w.evals[i].entry);
        AllUpToStays(s, w, step, w.cursor.value.mark, w.evals[i].entry);
        if step.Writer? { WriterBelow(s, w, step.op, w.evals[i].entry); }
      } else {
        EvaluatedContiguous(s, w, step.n);
      }
    }
  }

  lemma EvaluatedContiguous(s: Setting, w: World, n: NodeId)
    requires Gapless(s, w) && n in w.passes && w.passes[n].page != [] && !w.passes[n].handled
    ensures
      var w', id := Act(s, w, Evaluate(n)), w.passes[n].page[0];
      && w'.evals == w.evals + [Evaluation(n, id)] && w'.cursor == w.cursor && w.cursor.Some?
      && w.cursor.value.mark < id && id in Entries(s, w') && AllUpTo(s, w', w.cursor.value.mark, id)
  {
    var p, w' := w.passes[n], Act(s, w, Evaluate(n));
    assert Contiguous(s, w, p);
    RestContiguous(s, w, p);
    assert p.page[0] in p.page;
    assert w'.evals[|w.evals|].entry == p.page[0];
    forall id | id in Entries(s, w') && w.cursor.value.mark < id <= p.page[0] ensures Evaluated(w', id) {
      if id <= p.local { EvalsGrow(w, w', id); }
    }
  }

  lemma {:induction false} RunGapless(s: Setting, steps: seq<Step>)
    requires s.c.serialize && Delete !in steps
    ensures Gapless(s, Play(s, EMPTY_DELIVERY, steps))
  {
    if steps == [] {
      EmptyDelivery(s);
    } else {
      var init, step := steps[..|steps| - 1], steps[|steps| - 1];
      RunGapless(s, init);
      var w := Play(s, EMPTY_DELIVERY, init);
      StepKeepsDelivery(s, w, step);
      KeepsPassesBehind(s, w, step);
      KeepsContiguous(s, w, step);
    }
  }

  // ---- When an evaluation repeats ----

  /** The step evaluates an entry. */
  predicate Evaluates(w: World, step: Step) {
    step.Evaluate? && step.n in w.passes && w.passes[step.n].page != [] && !w.passes[step.n].handled
  }

  /** The pass stands below an entry that some pass has evaluated already. */
  ghost predicate Behind(w: World, n: NodeId)
    requires n in w.passes
  {
    exists i :: 0 <= i < |w.evals| && w.passes[n].local < w.evals[i].entry
  }

  /** Evaluating repeats exactly then. */
  lemma BehindRepeats(s: Setting, w: World, n: NodeId)
    requires Gapless(s, w) && Evaluates(w, Evaluate(n))
    ensures Evaluated(w, w.passes[n].page[0]) <==> Behind(w, n)
  {
    var p := w.passes[n];
    assert Contiguous(s, w, p);
    RestContiguous(s, w, p);
    assert p.page[0] in p.page;
    if Behind(w, n) {
      var i :| 0 <= i < |w.evals| && p.local < w.evals[i].entry;
      assert AllUpTo(s, w, w.cursor.value.mark, w.evals[i].entry);
    }
  }

  ghost predicate Repeated(w: World) {
    exists i, j :: 0 <= i < j < |w.evals| && w.evals[i].entry == w.evals[j].entry
  }

  /** The k-th step has a pass evaluate an entry while it stands behind. */
  ghost predicate BehindAt(s: Setting, steps: seq<Step>, k: nat) {
    k < |steps| &&
    var w := Play(s, EMPTY_DELIVERY, steps[..k]);
    Evaluates(w, steps[k]) && Behind(w, steps[k].n)
  }

  /** Over every run of one cursor, some entry is evaluated twice if and only if some pass evaluates
      while it stands below an entry that has been evaluated already. */
  lemma {:induction false} RepeatsExactly(s: Setting, steps: seq<Step>)
    requires s.c.serialize && Delete !in steps
    ensures Repeated(Play(s, EMPTY_DELIVERY, steps)) <==> exists k: nat :: BehindAt(s, steps, k)
  {
    if steps != [] {
      var init, step := steps[..|steps| - 1], steps[|steps| - 1];
      RepeatsExactly(s, init);
      RunGapless(s, init);
      var w := Play(s, EMPTY_DELIVERY, init);
      RepeatsLater(s, w, step);
      forall k: nat | k < |init| ensures BehindAt(s, steps, k) <==> BehindAt(s, init, k) {
        assert init[..k] == steps[..k];
      }
      if Evaluates(w, step) && Behind(w, step.n) {
        assert BehindAt(s, steps, |init|);
      }
      if k: nat :| BehindAt(s, init, k) {
        assert BehindAt(s, steps, k);
      }
      if k: nat :| BehindAt(s, steps, k) {
        assert k < |init| ==> BehindAt(s, init, k);
      }
    }
  }

  lemma RepeatedAppend(w: World, w': World, e: Evaluation)
    requires w'.evals == w.evals + [e]
    ensures Repeated(w') <==> Repeated(w) || Evaluated(w, e.entry)
  {
    if Repeated(w) {
      var i, j :| 0 <= i < j < |w.evals| && w.evals[i].entry == w.evals[j].entry;
      assert w'.evals[i].entry == w'.evals[j].entry;
    }
    if Evaluated(w, e.entry) {
      var i :| 0 <= i < |w.evals| && w.evals[i].entry == e.entry;
      assert w'.evals[i].entry == w'.evals[|w.evals|].entry;
    }
    if Repeated(w') {
      var i, j :| 0 <= i < j < |w'.evals| && w'.evals[i].entry == w'.evals[j].entry;
      assert w.evals[i] == w'.evals[i];
      if j < |w.evals| { assert w.evals[j] == w'.evals[j]; }
    }
  }

  lemma RepeatsLater(s: Setting, w: World, step: Step)
    requires Gapless(s, w)
    ensures Repeated(Act(s, w, step)) <==> Repeated(w) || (Evaluates(w, step) && Behind(w, step.n))
  {
    if Evaluates(w, step) {
      BehindRepeats(s, w, step.n);
      RepeatedAppend(w, Act(s, w, step), Evaluation(step.n, w.passes[step.n].page[0]));
    } else {
      assert Act(s, w, step).evals == w.evals;
    }
  }

  // ---- Passes that do not overlap ----

  predicate Finished(p: Pass) {
    p.fetched && p.page == []
  }

  /** A pass starts only when every other has ended, and none is given up between evaluating an entry
      and advancing past it. */
  predicate Alone(w: World, step: Step) {
    match step
    case Open(n) => forall m :: m in w.passes ==> if m == n then !w.passes[m].handled else Finished(w.passes[m])
    case Crash(n) => n in w.passes ==> !w.passes[n].handled
    case _ => true
  }

  ghost predicate AllAlone(s: Setting, steps: seq<Step>) {
    forall k :: 0 <= k < |steps| ==> Alone(Play(s, EMPTY_DELIVERY, steps[..k]), steps[k])
  }

  /** The pass in progress is at the stored cursor, and there is one at most. */
  ghost predicate OneInProgress(w: World) {
    && (forall n :: n in w.passes ==> w.cursor.Some?)
    && (forall n :: n in w.passes ==> (w.passes[n].handled ==> w.passes[n].page != []) && (w.passes[n].page != [] ==> w.passes[n].fetched))
    && (forall n :: n in w.passes && !Finished(w.passes[n]) ==> w.passes[n].local == w.cursor.value.at)
    && (forall m, n :: m in w.passes && n in w.passes && !Finished(w.passes[m]) && !Finished(w.passes[n]) ==> m == n)
  }

  /** Only the entry a pass is about to advance past is evaluated beyond the cursor. */
  ghost predicate EvalsInStep(w: World) {
    forall i :: 0 <= i < |w.evals| ==> w.cursor.Some? && (w.evals[i].entry <= w.cursor.value.at || BeingPassed(w, w.evals[i].entry))
  }

  ghost predicate BeingPassed(w: World, id: nat) {
    exists n :: n in w.passes && w.passes[n].handled && w.passes[n].page != [] && w.passes[n].page[0] == id
  }

  ghost predicate InStep(w: World) {
    OneInProgress(w) && EvalsInStep(w)
  }

  lemma AloneKeepsOne(s: Setting, w: World, step: Step)
    requires OneInProgress(w) && step != Delete && Alone(w, step)
    ensures OneInProgress(Act(s, w, step))
  {
  }

  /** The cursor never moves back, and to the entry passed when the pass in progress advances. */
  lemma CursorClimbs(s: Setting, w: World, step: Step)
    requires DeliveryInv(s, w) && OneInProgress(w) && step != Delete && w.cursor.Some?
    ensures
      var w' := Act(s, w, step);
      && w'.cursor.Some? && w.cursor.value.at <= w'.cursor.value.at
      && (step.Advance? && step.n in w.passes && w.passes[step.n].handled ==> w'.cursor.value.at == w.passes[step.n].page[0])
  {
    if step.Advance? && step.n in w.passes && w.passes[step.n].page != [] {
      assert Contiguous(s, w, w.passes[step.n]);
      assert w.passes[step.n].page[0] in w.passes[step.n].page;
    }
  }

  lemma AloneKeepsEvals(s: Setting, w: World, step: Step)
    requires DeliveryInv(s, w) && InStep(w) && step != Delete && Alone(w, step)
    ensures EvalsInStep(Act(s, w, step))
  {
    var w' := Act(s, w, step);
    forall i | 0 <= i < |w'.evals|
      ensures w'.cursor.Some? && (w'.evals[i].entry <= w'.cursor.value.at || BeingPassed(w', w'.evals[i].entry))
    {
      if i < |w.evals| {
        CursorClimbs(s, w, step);
        if w.evals[i].entry > w.cursor.value.at { StillPassed(s, w, step, w.evals[i].entry); }
      } else {
        assert w'.passes[step.n].handled && w'.passes[step.n].page[0] == w'.evals[i].entry;
      }
    }
  }

  lemma StillPassed(s: Setting, w: World, step: Step, id: nat)
    requires DeliveryInv(s, w) && InStep(w) && step != Delete && Alone(w, step) && w.cursor.Some? && BeingPassed(w, id)
    ensures
      var w' := Act(s, w, step);
      w'.cursor.Some? && (id <= w'.cursor.value.at || BeingPassed(w', id))
  {
    var w' := Act(s, w, step);
    var n :| n in w.passes && w.passes[n].handled && w.passes[n].page != [] && w.passes[n].page[0] == id;
    CursorClimbs(s, w, step);
    if step != Advance(n) {
      assert n in w'.passes && w'.passes[n] == w.passes[n];
    }
  }

  lemma AloneKeepsInStep(s: Setting, w: World, step: Step)
    requires DeliveryInv(s, w) && InStep(w) && step != Delete && Alone(w, step)
    ensures InStep(Act(s, w, step))
  {
    AloneKeepsOne(s, w, step);
    AloneKeepsEvals(s, w, step);
  }

  lemma NoneBehind(s: Setting, w: World, step: Step)
    requires Gapless(s, w) && InStep(w) && Evaluates(w, step)
    ensures !Behind(w, step.n)
  {
  }

  lemma {:induction false} AloneInStep(s: Setting, steps: seq<Step>)
    requires s.c.serialize && Delete !in steps && AllAlone(s, steps)
    ensures InStep(Play(s, EMPTY_DELIVERY, steps)) && forall k: nat :: !BehindAt(s, steps, k)
  {
    if steps != [] {
      var init, step := steps[..|steps| - 1], steps[|steps| - 1];
      forall k | 0 <= k < |init| ensures Alone(Play(s, EMPTY_DELIVERY, init[..k]), init[k]) {
        assert init[..k] == steps[..k];
        assert Alone(Play(s, EMPTY_DELIVERY, steps[..k]), steps[k]);
      }
      AloneInStep(s, init);
      RunGapless(s, init);
      var w := Play(s, EMPTY_DELIVERY, init);
      assert Alone(w, step) by { assert steps[..|init|] == init; }
      AloneKeepsInStep(s, w, step);
      forall k: nat ensures !BehindAt(s, steps, k) {
        if k < |init| {
          assert init[..k] == steps[..k];
          assert !BehindAt(s, init, k);
        } else if k == |init| && Evaluates(w, step) {
          NoneBehind(s, w, step);
        }
      }
    }
  }

  /** When passes do not overlap and none is given up between evaluating and advancing, every entry
      between the creation mark and the stored cursor is evaluated exactly once. */
  lemma OnceEach(s: Setting, steps: seq<Step>)
    requires s.c.serialize && Delete !in steps && AllAlone(s, steps)
    ensures
      var w := Play(s, EMPTY_DELIVERY, steps);
      && !Repeated(w)
      && (w.cursor.Some? ==> forall id :: id in Entries(s, w) && w.cursor.value.mark < id <= w.cursor.value.at ==> Evaluated(w, id))
  {
    AloneInStep(s, steps);
    RepeatsExactly(s, steps);
    RunGapless(s, steps);
  }
}
