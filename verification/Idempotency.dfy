/**
 Idempotent writes: a request looks its key up, reserves it, executes, and finalizes or discards the
 reservation, each in a transaction of its own. Requests interleave freely and may crash at any point.
 */
module Idempotency {

  datatype Slot = Slot(tenant: string, key: string)

  /** `print` stands for the request's fingerprint; a credentialed route stores no body. */
  datatype Request = Request(slot: Slot, fingerprint: string, credentialed: bool)

  /** Status 0 marks a reservation that is not finalized. */
  datatype Row = Row(fingerprint: string, status: int, body: string)

  datatype Answer = Replay(status: int, body: string) | KeyConflict | Fresh(status: int, body: string) | BadRequest | ServerError

  datatype Phase = Arrived | Reserving | LostRace | Executing | Executed(status: int, body: string) | Answered(answer: Answer)

  datatype Live = Live(req: Request, phase: Phase)

  type ReqId = nat

  /** One run of a handler: the status it ended in, and the body that would be stored. */
  datatype Exec = Exec(slot: Slot, fingerprint: string, status: int, stored: string)

  datatype World = World(keys: map<Slot, Row>, reqs: map<ReqId, Live>, execs: seq<Exec>)

  const EMPTY_WORLD := World(map[], map[], [])

  datatype Step =
    | Arrive(r: ReqId, req: Request)
    | Lookup(r: ReqId)
    | Reserve(r: ReqId)
    | LookupAgain(r: ReqId)
    | Execute(r: ReqId, status: int, body: string)  // captured status 0: the handler wrote nothing
    | Finish(r: ReqId)
    | FinishFails(r: ReqId)
    | Crash(r: ReqId)

  predicate Succeeded(status: int) {
    200 <= status < 300
  }

  function DecideExisting(row: Row, fingerprint: string): Answer {
    if row.fingerprint != fingerprint || row.status == 0 then KeyConflict else Replay(row.status, row.body)
  }

  /** What the client is shown: an unset status goes out as 200. */
  function Shown(status: int): int {
    if status == 0 then 200 else status
  }

  function StoredBody(req: Request, body: string): string {
    if req.credentialed then "" else body
  }

  predicate In(w: World, r: ReqId, phase: Phase) {
    r in w.reqs && w.reqs[r].phase == phase
  }

  function Move(w: World, r: ReqId, phase: Phase): map<ReqId, Live>
    requires r in w.reqs
  {
    w.reqs[r := w.reqs[r].(phase := phase)]
  }

  /** A step its guards refuse changes nothing. */
  function Apply(w: World, step: Step): World {
    match step
    case Arrive(r, req) =>
      if r in w.reqs then w
      else w.(reqs := w.reqs[r := Live(req, if req.slot.key == "" then Answered(BadRequest) else Arrived)])
    case Lookup(r) =>
      if !In(w, r, Arrived) then w
      else
        var req := w.reqs[r].req;
        w.(reqs := Move(w, r, if req.slot in w.keys then Answered(DecideExisting(w.keys[req.slot], req.fingerprint)) else Reserving))
    case Reserve(r) =>
      if !In(w, r, Reserving) then w
      else
        var req := w.reqs[r].req;
        if req.slot in w.keys then w.(reqs := Move(w, r, LostRace))
        else w.(keys := w.keys[req.slot := Row(req.fingerprint, 0, "")], reqs := Move(w, r, Executing))
    case LookupAgain(r) =>
      if !In(w, r, LostRace) then w
      else
        var req := w.reqs[r].req;
        w.(reqs := Move(w, r, Answered(if req.slot in w.keys then DecideExisting(w.keys[req.slot], req.fingerprint) else KeyConflict)))
    case Execute(r, status, body) =>
      if !In(w, r, Executing) then w
      else
        var req := w.reqs[r].req;
        w.(reqs := Move(w, r, Executed(status, body)),
           execs := w.execs + [Exec(req.slot, req.fingerprint, status, StoredBody(req, body))])
    case Finish(r) =>
      if r !in w.reqs || !w.reqs[r].phase.Executed? then w
      else
        var req, p := w.reqs[r].req, w.reqs[r].phase;
        w.(keys := if Succeeded(p.status)
                   then if req.slot in w.keys
                        then w.keys[req.slot := w.keys[req.slot].(status := p.status, body := StoredBody(req, p.body))]
                        else w.keys
                   else w.keys - {req.slot},
           reqs := Move(w, r, Answered(Fresh(Shown(p.status), p.body))))
    case FinishFails(r) =>
      if r !in w.reqs || !w.reqs[r].phase.Executed? then w
      else w.(reqs := Move(w, r, Answered(ServerError)))
    case Crash(r) => w.(reqs := w.reqs - {r})
  }

  function Run(w: World, steps: seq<Step>): World {
    if steps == [] then w else Apply(Run(w, steps[..|steps| - 1]), steps[|steps| - 1])
  }

  // ---- What every step keeps ----

  predicate Holding(l: Live) {
    l.phase.Executing? || l.phase.Executed?
  }

  /** A request past its reservation still owns the pending row, alone. */
  ghost predicate Owned(w: World) {
    && (forall r :: r in w.reqs && Holding(w.reqs[r]) ==>
          w.reqs[r].req.slot in w.keys && w.keys[w.reqs[r].req.slot] == Row(w.reqs[r].req.fingerprint, 0, ""))
    && (forall r, q :: r in w.reqs && q in w.reqs && r != q && Holding(w.reqs[r]) && Holding(w.reqs[q]) ==>
          w.reqs[r].req.slot != w.reqs[q].req.slot)
  }

  predicate Success(e: Exec, slot: Slot) {
    e.slot == slot && Succeeded(e.status)
  }

  ghost predicate AnySuccess(w: World, slot: Slot) {
    exists i :: 0 <= i < |w.execs| && Success(w.execs[i], slot)
  }

  /** The execution a row or an answer reports. */
  predicate Reports(e: Exec, slot: Slot, fingerprint: string, status: int, body: string) {
    e == Exec(slot, fingerprint, status, body) && Succeeded(status)
  }

  ghost predicate Reported(w: World, slot: Slot, fingerprint: string, status: int, body: string) {
    exists i :: 0 <= i < |w.execs| && Reports(w.execs[i], slot, fingerprint, status, body)
  }

  /** At most one execution per key has succeeded. */
  ghost predicate Single(w: World) {
    forall i, j :: 0 <= i < j < |w.execs| && w.execs[i].slot == w.execs[j].slot && Succeeded(w.execs[i].status) ==>
      !Succeeded(w.execs[j].status)
  }

  /** While a handler is about to run, nothing has succeeded under its key; once it has run, a success
      is its own. */
  ghost predicate Own(w: World) {
    forall r :: r in w.reqs ==>
      var l := w.reqs[r];
      && (l.phase.Executing? ==> !AnySuccess(w, l.req.slot))
      && (l.phase.Executed? ==>
            if Succeeded(l.phase.status) then Reported(w, l.req.slot, l.req.fingerprint, l.phase.status, StoredBody(l.req, l.phase.body))
            else !AnySuccess(w, l.req.slot))
  }

  /** A key that has succeeded keeps its row. */
  ghost predicate Kept(w: World) {
    forall i :: 0 <= i < |w.execs| && Succeeded(w.execs[i].status) ==> w.execs[i].slot in w.keys
  }

  /** A finalized row reports a success of its key. */
  ghost predicate Truthful(w: World) {
    && (forall slot :: slot in w.keys && w.keys[slot].status != 0 ==>
          Reported(w, slot, w.keys[slot].fingerprint, w.keys[slot].status, w.keys[slot].body))
    && (forall r :: r in w.reqs && w.reqs[r].phase.Answered? && w.reqs[r].phase.answer.Replay? ==>
          Reported(w, w.reqs[r].req.slot, w.reqs[r].req.fingerprint, w.reqs[r].phase.answer.status, w.reqs[r].phase.answer.body))
  }

  ghost predicate Inv(w: World) {
    Owned(w) && Single(w) && Own(w) && Kept(w) && Truthful(w)
  }

  lemma ApplyKeepsOwned(w: World, step: Step)
    requires Owned(w)
    ensures Owned(Apply(w, step))
  {
  }

  lemma ExecsGrow(w: World, step: Step)
    ensures w.execs <= Apply(w, step).execs
    ensures !step.Execute? ==> Apply(w, step).execs == w.execs
  {
  }

  lemma ReportedGrows(w: World, w': World, slot: Slot, fingerprint: string, status: int, body: string)
    requires w.execs <= w'.execs && Reported(w, slot, fingerprint, status, body)
    ensures Reported(w', slot, fingerprint, status, body)
  {
    var i :| 0 <= i < |w.execs| && Reports(w.execs[i], slot, fingerprint, status, body);
    assert w'.execs[i] == w.execs[i];
  }

  lemma AnySuccessAppend(w: World, w': World, e: Exec, slot: Slot)
    requires w'.execs == w.execs + [e]
    ensures AnySuccess(w', slot) <==> AnySuccess(w, slot) || Success(e, slot)
  {
    if AnySuccess(w, slot) {
      var i :| 0 <= i < |w.execs| && Success(w.execs[i], slot);
      assert w'.execs[i] == w.execs[i];
    }
    if Success(e, slot) { assert w'.execs[|w.execs|] == e; }
  }

  lemma ExecuteKeeps(w: World, r: ReqId, status: int, body: string)
    requires Inv(w) && In(w, r, Executing)
    ensures Single(Apply(w, Execute(r, status, body))) && Own(Apply(w, Execute(r, status, body)))
    ensures Kept(Apply(w, Execute(r, status, body))) && Truthful(Apply(w, Execute(r, status, body)))
  {
    var w' := Apply(w, Execute(r, status, body));
    var req := w.reqs[r].req;
    var e := Exec(req.slot, req.fingerprint, status, StoredBody(req, body));
    assert w'.execs == w.execs + [e] && w'.execs[|w.execs|] == e;
    assert !AnySuccess(w, req.slot);
    forall i | 0 <= i < |w.execs| && w.execs[i].slot == req.slot ensures !Succeeded(w.execs[i].status) {
      assert !Success(w.execs[i], req.slot);
    }
    ExecuteKeepsOwn(w, r, status, body);
    forall slot | slot in w'.keys && w'.keys[slot].status != 0
      ensures Reported(w', slot, w'.keys[slot].fingerprint, w'.keys[slot].status, w'.keys[slot].body)
    {
      ReportedGrows(w, w', slot, w.keys[slot].fingerprint, w.keys[slot].status, w.keys[slot].body);
    }
    forall q | q in w'.reqs && w'.reqs[q].phase.Answered? && w'.reqs[q].phase.answer.Replay?
      ensures Reported(w', w'.reqs[q].req.slot, w'.reqs[q].req.fingerprint, w'.reqs[q].phase.answer.status, w'.reqs[q].phase.answer.body)
    {
      var l := w.reqs[q];
      ReportedGrows(w, w', l.req.slot, l.req.fingerprint, l.phase.answer.status, l.phase.answer.body);
    }
  }

  lemma ExecuteKeepsOwn(w: World, r: ReqId, status: int, body: string)
    requires Owned(w) && Own(w) && In(w, r, Executing)
    ensures Own(Apply(w, Execute(r, status, body)))
  {
    var w' := Apply(w, Execute(r, status, body));
    var req := w.reqs[r].req;
    var e := Exec(req.slot, req.fingerprint, status, StoredBody(req, body));
    assert w'.execs == w.execs + [e] && w'.execs[|w.execs|] == e;
    forall q | q in w'.reqs
      ensures w'.reqs[q].phase.Executing? ==> !AnySuccess(w', w'.reqs[q].req.slot)
      ensures w'.reqs[q].phase.Executed? ==>
                if Succeeded(w'.reqs[q].phase.status)
                then Reported(w', w'.reqs[q].req.slot, w'.reqs[q].req.fingerprint, w'.reqs[q].phase.status, StoredBody(w'.reqs[q].req, w'.reqs[q].phase.body))
                else !AnySuccess(w', w'.reqs[q].req.slot)
    {
      AnySuccessAppend(w, w', e, w'.reqs[q].req.slot);
      var l := w.reqs[q];
      if q == r {
        if Succeeded(status) { assert Reports(w'.execs[|w.execs|], req.slot, req.fingerprint, status, StoredBody(req, body)); }
      } else if Holding(l) {
        assert l.req.slot != req.slot;
        if l.phase.Executed? && Succeeded(l.phase.status) {
          ReportedGrows(w, w', l.req.slot, l.req.fingerprint, l.phase.status, StoredBody(l.req, l.phase.body));
        }
      }
    }
  }

  /** Steps other than a handler's run leave what has been executed alone. */
  lemma SameExecs(w: World, w': World, slot: Slot)
    requires w'.execs == w.execs
    ensures AnySuccess(w', slot) == AnySuccess(w, slot)
    ensures forall fingerprint, status, body :: Reported(w', slot, fingerprint, status, body) == Reported(w, slot, fingerprint, status, body)
  {
  }

  lemma OtherKeepsOwn(w: World, step: Step)
    requires Inv(w) && !step.Execute?
    ensures Own(Apply(w, step))
  {
    var w' := Apply(w, step);
    forall r | r in w'.reqs
      ensures w'.reqs[r].phase.Executing? ==> !AnySuccess(w', w'.reqs[r].req.slot)
      ensures w'.reqs[r].phase.Executed? ==>
                if Succeeded(w'.reqs[r].phase.status)
                then Reported(w', w'.reqs[r].req.slot, w'.reqs[r].req.fingerprint, w'.reqs[r].phase.status, StoredBody(w'.reqs[r].req, w'.reqs[r].phase.body))
                else !AnySuccess(w', w'.reqs[r].req.slot)
    {
      SameExecs(w, w', w'.reqs[r].req.slot);
      if w'.reqs[r].phase.Executing? && !(r in w.reqs && w.reqs[r].phase.Executing?) {
        // Reserved just now: the key had no row, so nothing has succeeded under it.
        var slot := w'.reqs[r].req.slot;
        assert slot !in w.keys;
        assert forall i :: 0 <= i < |w.execs| ==> !Success(w.execs[i], slot);
      }
    }
  }

  lemma OtherKeepsKept(w: World, step: Step)
    requires Inv(w) && !step.Execute?
    ensures Kept(Apply(w, step))
  {
    var w' := Apply(w, step);
    if step.Finish? && w' != w && !Succeeded(w.reqs[step.r].phase.status) {
      var slot := w.reqs[step.r].req.slot;
      assert !AnySuccess(w, slot);
      forall i | 0 <= i < |w.execs| && Succeeded(w.execs[i].status) ensures w.execs[i].slot != slot {
        assert !Success(w.execs[i], slot);
      }
    }
  }

  lemma OtherKeepsTruthful(w: World, step: Step)
    requires Inv(w) && !step.Execute?
    ensures Truthful(Apply(w, step))
  {
    var w' := Apply(w, step);
    forall slot ensures AnySuccess(w', slot) == AnySuccess(w, slot) { SameExecs(w, w', slot); }
    forall slot | slot in w'.keys && w'.keys[slot].status != 0
      ensures Reported(w', slot, w'.keys[slot].fingerprint, w'.keys[slot].status, w'.keys[slot].body)
    {
      SameExecs(w, w', slot);
      if slot in w.keys && w.keys[slot] == w'.keys[slot] {
        assert Reported(w, slot, w.keys[slot].fingerprint, w.keys[slot].status, w.keys[slot].body);
      } else {
        assert step.Finish? && w.reqs[step.r].phase.Executed? && slot == w.reqs[step.r].req.slot;
      }
    }
    forall r | r in w'.reqs && w'.reqs[r].phase.Answered? && w'.reqs[r].phase.answer.Replay?
      ensures Reported(w', w'.reqs[r].req.slot, w'.reqs[r].req.fingerprint, w'.reqs[r].phase.answer.status, w'.reqs[r].phase.answer.body)
    {
      SameExecs(w, w', w'.reqs[r].req.slot);
      if !(r in w.reqs && w.reqs[r] == w'.reqs[r]) {
        var slot := w'.reqs[r].req.slot;
        assert slot in w.keys && w.keys[slot].status != 0;
      }
    }
  }

  lemma ApplyKeepsInv(w: World, step: Step)
    requires Inv(w)
    ensures Inv(Apply(w, step))
  {
    ApplyKeepsOwned(w, step);
    if step.Execute? {
      if In(w, step.r, Executing) { ExecuteKeeps(w, step.r, step.status, step.body); }
    } else {
      ExecsGrow(w, step);
      OtherKeepsOwn(w, step);
      OtherKeepsKept(w, step);
      OtherKeepsTruthful(w, step);
    }
  }

  /** Over every interleaving, crashes included, at most one execution per key succeeds, and every
      replay reports that execution's status and stored body to a request with its fingerprint. */
  lemma {:induction false} RunKeepsInv(steps: seq<Step>)
    ensures Inv(Run(EMPTY_WORLD, steps))
  {
    if steps != [] {
      RunKeepsInv(steps[..|steps| - 1]);
      ApplyKeepsInv(Run(EMPTY_WORLD, steps[..|steps| - 1]), steps[|steps| - 1]);
    }
  }

  /** Once a key has succeeded, no request executes under it. One that is answered from its row gets that
      success exactly when the row is finalized and the fingerprint is the execution's, else a conflict. */
  lemma SucceededKeyNeverRuns(steps: seq<Step>, r: ReqId, i: nat)
    requires var w := Run(EMPTY_WORLD, steps);
             r in w.reqs && i < |w.execs| && Success(w.execs[i], w.reqs[r].req.slot)
    ensures var w := Run(EMPTY_WORLD, steps);
            var l, e := w.reqs[r], w.execs[i];
            && !l.phase.Executing? && l.req.slot in w.keys
            && (In(w, r, Reserving) ==> In(Apply(w, Reserve(r)), r, LostRace))
            && (In(w, r, Arrived) ==>
                  Apply(w, Lookup(r)).reqs[r].phase
                  == Answered(if w.keys[l.req.slot].status != 0 && l.req.fingerprint == e.fingerprint then Replay(e.status, e.stored) else KeyConflict))
            && (In(w, r, LostRace) ==>
                  Apply(w, LookupAgain(r)).reqs[r].phase
                  == Answered(if w.keys[l.req.slot].status != 0 && l.req.fingerprint == e.fingerprint then Replay(e.status, e.stored) else KeyConflict))
  {
    RunKeepsInv(steps);
    var w := Run(EMPTY_WORLD, steps);
    var req := w.reqs[r].req;
    assert AnySuccess(w, req.slot);
    assert req.slot in w.keys;
    var row := w.keys[req.slot];
    if row.status != 0 {
      var j :| 0 <= j < |w.execs| && Reports(w.execs[j], req.slot, row.fingerprint, row.status, row.body);
      assert i == j;
    }
  }

  /** A finalized row is never touched again: only a holder writes, and what it holds is pending. */
  lemma {:induction false} FinalRowStays(w: World, steps: seq<Step>, slot: Slot)
    requires Inv(w) && slot in w.keys && w.keys[slot].status != 0
    ensures slot in Run(w, steps).keys && Run(w, steps).keys[slot] == w.keys[slot]
  {
    if steps != [] {
      var init := steps[..|steps| - 1];
      FinalRowStays(w, init, slot);
      RunKeepsInvFrom(w, init);
      FinalRowStaysOnce(Run(w, init), steps[|steps| - 1], slot);
    }
  }

  lemma FinalRowStaysOnce(w: World, step: Step, slot: Slot)
    requires Owned(w) && slot in w.keys && w.keys[slot].status != 0
    ensures slot in Apply(w, step).keys && Apply(w, step).keys[slot] == w.keys[slot]
  {
    if step.Finish? && step.r in w.reqs && w.reqs[step.r].phase.Executed? {
      assert Holding(w.reqs[step.r]);
    }
  }

  /** Once a success has been recorded under a key, whatever follows, every request with that key that
      looks it up, at once or after losing a race, is answered with the status and body recorded exactly
      when it has the same fingerprint, and with a conflict otherwise. A credentialed route records no body. */
  lemma RecordedSuccessReplays(w: World, r: ReqId, rest: seq<Step>, q: ReqId)
    requires Inv(w) && r in w.reqs && w.reqs[r].phase.Executed? && 200 <= w.reqs[r].phase.status < 300
    requires var w' := Run(Apply(w, Finish(r)), rest);
             q in w'.reqs && w'.reqs[q].req.slot == w.reqs[r].req.slot && (w'.reqs[q].phase == Arrived || w'.reqs[q].phase == LostRace)
    ensures
      var w' := Run(Apply(w, Finish(r)), rest);
      var done, req := w.reqs[r], w'.reqs[q].req;
      var answer := if req.fingerprint == done.req.fingerprint
                    then Replay(done.phase.status, if done.req.credentialed then "" else done.phase.body) else KeyConflict;
      if w'.reqs[q].phase == Arrived then In(Apply(w', Lookup(q)), q, Answered(answer))
      else In(Apply(w', LookupAgain(q)), q, Answered(answer))
  {
    assert Holding(w.reqs[r]);
    ApplyKeepsInv(w, Finish(r));
    FinalRowStays(Apply(w, Finish(r)), rest, w.reqs[r].req.slot);
  }

  /** Only a failed execution, or one that wrote nothing, frees a key. */
  lemma OnlyFailureFrees(w: World, step: Step, slot: Slot)
    requires slot in w.keys && slot !in Apply(w, step).keys
    ensures step.Finish? && step.r in w.reqs && w.reqs[step.r].req.slot == slot
    ensures w.reqs[step.r].phase.Executed? && !Succeeded(w.reqs[step.r].phase.status)
  {
  }

  /** A request that is shown success after its own execution has its key kept exactly when its handler
      wrote something. */
  lemma ShownSuccessKeptExactly(w: World, r: ReqId)
    requires Inv(w) && r in w.reqs && w.reqs[r].phase.Executed? && Succeeded(Shown(w.reqs[r].phase.status))
    ensures
      var w' := Apply(w, Finish(r));
      && w'.reqs[r].phase == Answered(Fresh(Shown(w.reqs[r].phase.status), w.reqs[r].phase.body))
      && (w.reqs[r].req.slot in w'.keys <==> w.reqs[r].phase.status != 0)
  {
  }

  /** So a handler that writes nothing runs once per retry, and each client is shown 200. */
  lemma {:induction false} SilentHandlerRunsAgain(w: World, r: ReqId, req: Request)
    requires Inv(w) && r !in w.reqs && req.slot.key != "" && req.slot !in w.keys
    ensures
      var w' := Run(w, [Arrive(r, req), Lookup(r), Reserve(r), Execute(r, 0, ""), Finish(r)]);
      && In(w', r, Answered(Fresh(200, "")))
      && req.slot !in w'.keys && |w'.execs| == |w.execs| + 1
  {
    var steps := [Arrive(r, req), Lookup(r), Reserve(r), Execute(r, 0, ""), Finish(r)];
    var w1 := Apply(w, steps[0]);
    var w2 := Apply(w1, steps[1]);
    var w3 := Apply(w2, steps[2]);
    var w4 := Apply(w3, steps[3]);
    Chain(steps, [w, w1, w2, w3, w4, Apply(w4, steps[4])]);
  }

  /** A run computed one state at a time. */
  lemma {:induction false} Chain(steps: seq<Step>, worlds: seq<World>)
    requires |worlds| == |steps| + 1
    requires forall i :: 0 <= i < |steps| ==> worlds[i + 1] == Apply(worlds[i], steps[i])
    ensures Run(worlds[0], steps) == worlds[|steps|]
  {
    if steps != [] { Chain(steps[..|steps| - 1], worlds[..|steps|]); }
  }

  // ---- One request ----

  /** None of the steps belongs to request `r`. */
  predicate Foreign(steps: seq<Step>, r: ReqId) {
    forall i :: 0 <= i < |steps| ==> steps[i].r != r
  }

  lemma {:induction false} ForeignKeeps(w: World, steps: seq<Step>, r: ReqId)
    requires Foreign(steps, r)
    ensures r in Run(w, steps).reqs <==> r in w.reqs
    ensures r in w.reqs ==> Run(w, steps).reqs[r] == w.reqs[r]
  {
    if steps != [] { ForeignKeeps(w, steps[..|steps| - 1], r); }
  }

  lemma {:induction false} RunKeepsInvFrom(w: World, steps: seq<Step>)
    requires Inv(w)
    ensures Inv(Run(w, steps))
  {
    if steps != [] {
      RunKeepsInvFrom(w, steps[..|steps| - 1]);
      ApplyKeepsInv(Run(w, steps[..|steps| - 1]), steps[|steps| - 1]);
    }
  }

  lemma {:induction false} RunConcat(w: World, a: seq<Step>, b: seq<Step>)
    ensures Run(w, a + b) == Run(Run(w, a), b)
  {
    if b == [] {
      assert a + b == a;
    } else {
      assert (a + b)[..|a + b| - 1] == a + b[..|b| - 1];
      RunConcat(w, a, b[..|b| - 1]);
    }
  }

  /** Some steps of others, then one of one's own. */
  lemma RunThen(w: World, others: seq<Step>, step: Step)
    ensures Run(w, others + [step]) == Apply(Run(w, others), step)
  {
    assert (others + [step])[..|others|] == others;
  }

  /** No step reserves the key. */
  ghost predicate NoneReserves(w: World, steps: seq<Step>, slot: Slot) {
    forall k :: 0 <= k < |steps| && steps[k].Reserve? ==> !OnSlot(Run(w, steps[..k]), steps[k].r, slot)
  }

  predicate OnSlot(w: World, r: ReqId, slot: Slot) {
    r in w.reqs && w.reqs[r].req.slot == slot
  }

  lemma {:induction false} KeyStaysFree(w: World, steps: seq<Step>, slot: Slot)
    requires slot !in w.keys && NoneReserves(w, steps, slot)
    ensures slot !in Run(w, steps).keys
  {
    if steps != [] {
      var init := steps[..|steps| - 1];
      forall k | 0 <= k < |init| && init[k].Reserve? ensures !OnSlot(Run(w, init[..k]), init[k].r, slot) {
        assert init[..k] == steps[..k];
        assert !OnSlot(Run(w, steps[..k]), steps[k].r, slot);
      }
      KeyStaysFree(w, init, slot);
      assert steps[|init|].Reserve? ==> !OnSlot(Run(w, steps[..|init|]), steps[|init|].r, slot);
    }
  }

  /** How a request gets to be answered or to execute, once its first lookup has found nothing. */
  ghost predicate ReserveScript(steps: seq<Step>, r: ReqId, a: seq<Step>, b: seq<Step>, executes: bool) {
    steps == a + [Reserve(r)] || (!executes && steps == (a + [Reserve(r)]) + (b + [LookupAgain(r)]))
  }

  function ExecuteScript(r: ReqId, status: int, body: string, during: seq<Step>, after: seq<Step>, saved: bool): seq<Step> {
    (during + [Execute(r, status, body)]) + (after + [if saved then Finish(r) else FinishFails(r)])
  }

  class KeyTable {
    var keys: map<Slot, Row>
    var reqs: map<ReqId, Live>
    var execs: seq<Exec>

    function State(): World
      reads this
    {
      World(keys, reqs, execs)
    }

    constructor ()
      ensures State() == EMPTY_WORLD && Inv(State())
    {
      keys, reqs, execs := map[], map[], [];
    }

    method Set(w: World)
      modifies this
      ensures State() == w
    {
      keys, reqs, execs := w.keys, w.reqs, w.execs;
    }

    method Interleave(steps: seq<Step>, r: ReqId)
      requires Inv(State()) && Foreign(steps, r)
      modifies this
      ensures Inv(State()) && State() == Run(old(State()), steps)
      ensures r in old(reqs) ==> r in reqs && reqs[r] == old(reqs)[r]
    {
      RunKeepsInvFrom(State(), steps);
      ForeignKeeps(State(), steps, r);
      Set(Run(State(), steps));
    }

    /** A finalized row of the request's fingerprint is replayed, any other row is a conflict. */
    method LookUp(r: ReqId)
      requires Inv(State()) && In(State(), r, Arrived)
      modifies this
      ensures Inv(State()) && State() == Apply(old(State()), Lookup(r))
      ensures keys == old(keys) && execs == old(execs) && r in reqs && reqs[r].req == old(reqs)[r].req
      ensures
        var req := old(reqs)[r].req;
        reqs[r].phase == if req.slot !in keys then Reserving
                         else if keys[req.slot].fingerprint == req.fingerprint && keys[req.slot].status != 0
                              then Answered(Replay(keys[req.slot].status, keys[req.slot].body))
                         else Answered(KeyConflict)
    {
      ApplyKeepsInv(State(), Lookup(r));
      var req := reqs[r].req;
      var phase := if req.slot in keys then Answered(DecideExisting(keys[req.slot], req.fingerprint)) else Reserving;
      reqs := reqs[r := reqs[r].(phase := phase)];
    }

    /** Insert the pending row; an existing one is a lost race. */
    method InsertPending(r: ReqId)
      requires Inv(State()) && In(State(), r, Reserving)
      modifies this
      ensures Inv(State()) && State() == Apply(old(State()), Reserve(r))
    {
      ApplyKeepsInv(State(), Reserve(r));
      var req := reqs[r].req;
      if req.slot in keys {
        reqs := reqs[r := reqs[r].(phase := LostRace)];
      } else {
        keys, reqs := keys[req.slot := Row(req.fingerprint, 0, "")], reqs[r := reqs[r].(phase := Executing)];
      }
    }

    /** The loser of a race decides against the winner's row; one that is gone again is a conflict. */
    method LookUpAgain(r: ReqId)
      requires Inv(State()) && In(State(), r, LostRace)
      modifies this
      ensures Inv(State()) && State() == Apply(old(State()), LookupAgain(r))
      ensures keys == old(keys) && execs == old(execs) && r in reqs && reqs[r].req == old(reqs)[r].req
      ensures
        var req := old(reqs)[r].req;
        reqs[r].phase == Answered(if req.slot in keys && keys[req.slot].fingerprint == req.fingerprint && keys[req.slot].status != 0
                                  then Replay(keys[req.slot].status, keys[req.slot].body) else KeyConflict)
    {
      ApplyKeepsInv(State(), LookupAgain(r));
      var req := reqs[r].req;
      var answer := if req.slot in keys then DecideExisting(keys[req.slot], req.fingerprint) else KeyConflict;
      reqs := reqs[r := reqs[r].(phase := Answered(answer))];
    }

    method ReserveAfter(r: ReqId, a: seq<Step>)
      requires Inv(State()) && In(State(), r, Reserving) && Foreign(a, r)
      modifies this
      ensures Inv(State()) && State() == Run(old(State()), a + [Reserve(r)])
      ensures r in reqs && reqs[r].req == old(reqs)[r].req && (reqs[r].phase == Executing || reqs[r].phase == LostRace)
      ensures old(reqs)[r].req.slot !in Run(old(State()), a).keys <==> reqs[r].phase == Executing
    {
      RunThen(State(), a, Reserve(r));
      Interleave(a, r);
      InsertPending(r);
    }

    method LookUpAfter(r: ReqId, b: seq<Step>)
      requires Inv(State()) && In(State(), r, LostRace) && Foreign(b, r)
      modifies this
      ensures Inv(State()) && State() == Run(old(State()), b + [LookupAgain(r)])
      ensures r in reqs && reqs[r].req == old(reqs)[r].req && reqs[r].phase.Answered?
      ensures
        var req := reqs[r].req;
        reqs[r].phase.answer == if req.slot in keys && keys[req.slot].fingerprint == req.fingerprint && keys[req.slot].status != 0
                                then Replay(keys[req.slot].status, keys[req.slot].body) else KeyConflict
    {
      RunThen(State(), b, LookupAgain(r));
      Interleave(b, r);
      LookUpAgain(r);
    }

    /** Reserve a key the first lookup did not find, or decide against the winner of a lost race. */
    method ReserveOrDecide(r: ReqId, a: seq<Step>, b: seq<Step>) returns (ghost steps: seq<Step>)
      requires Inv(State()) && In(State(), r, Reserving) && Foreign(a, r) && Foreign(b, r)
      modifies this
      ensures Inv(State()) && State() == Run(old(State()), steps)
      ensures r in reqs && reqs[r].req == old(reqs)[r].req && ReserveScript(steps, r, a, b, reqs[r].phase.Executing?)
      ensures
        var req := reqs[r].req;
        reqs[r].phase.Executing?
        || reqs[r].phase == Answered(if req.slot in keys && keys[req.slot].fingerprint == req.fingerprint && keys[req.slot].status != 0
                                     then Replay(keys[req.slot].status, keys[req.slot].body) else KeyConflict)
      ensures old(reqs)[r].req.slot !in Run(old(State()), a).keys <==> reqs[r].phase.Executing?
    {
      ghost var w := State();
      ReserveAfter(r, a);
      steps := a + [Reserve(r)];
      if reqs[r].phase == LostRace {
        RunConcat(w, a + [Reserve(r)], b + [LookupAgain(r)]);
        LookUpAfter(r, b);
        steps := steps + (b + [LookupAgain(r)]);
      }
    }

    /** Look the key up, reserve it, and decide against the winner of a lost race. */
    method Begin(r: ReqId, a: seq<Step>, b: seq<Step>) returns (ghost steps: seq<Step>)
      requires Inv(State()) && In(State(), r, Arrived) && Foreign(a, r) && Foreign(b, r)
      modifies this
      ensures Inv(State()) && State() == Run(Apply(old(State()), Lookup(r)), steps)
      ensures r in reqs && reqs[r].req == old(reqs)[r].req
      ensures if old(reqs)[r].req.slot in old(keys) then steps == [] else ReserveScript(steps, r, a, b, reqs[r].phase.Executing?)
      ensures
        var req := reqs[r].req;
        reqs[r].phase.Executing?
        || reqs[r].phase == Answered(if req.slot in keys && keys[req.slot].fingerprint == req.fingerprint && keys[req.slot].status != 0
                                     then Replay(keys[req.slot].status, keys[req.slot].body) else KeyConflict)
      ensures old(reqs)[r].req.slot in old(keys) ==> keys == old(keys)
      ensures old(reqs)[r].req.slot !in old(keys) && old(reqs)[r].req.slot !in Run(Apply(old(State()), Lookup(r)), a).keys <==>
                reqs[r].phase.Executing?
    {
      LookUp(r);
      steps := [];
      if !reqs[r].phase.Answered? {
        steps := ReserveOrDecide(r, a, b);
      }
    }

    method Finalize(slot: Slot, status: int, body: string)
      modifies this`keys
      ensures keys == if slot in old(keys) then old(keys)[slot := old(keys)[slot].(status := status, body := body)] else old(keys)
    {
      if slot in keys {
        keys := keys[slot := keys[slot].(status := status, body := body)];
      }
    }

    method Discard(slot: Slot)
      modifies this`keys
      ensures keys == old(keys) - {slot}
    {
      keys := keys - {slot};
    }

    /** The handler runs; `status` and `body` are what it leaves in the capture buffer. */
    method RunHandler(r: ReqId, status: int, body: string)
      requires Inv(State()) && In(State(), r, Executing)
      modifies this
      ensures Inv(State()) && State() == Apply(old(State()), Execute(r, status, body))
    {
      ApplyKeepsInv(State(), Execute(r, status, body));
      var req := reqs[r].req;
      execs := execs + [Exec(req.slot, req.fingerprint, status, StoredBody(req, body))];
      reqs := reqs[r := reqs[r].(phase := Executed(status, body))];
    }

    /** Record a 2xx response under the key, or free the key; then answer. */
    method Record(r: ReqId)
      requires Inv(State()) && r in reqs && reqs[r].phase.Executed?
      modifies this
      ensures Inv(State()) && State() == Apply(old(State()), Finish(r))
    {
      ApplyKeepsInv(State(), Finish(r));
      var req, phase := reqs[r].req, reqs[r].phase;
      if Succeeded(phase.status) {
        Finalize(req.slot, phase.status, StoredBody(req, phase.body));
      } else {
        Discard(req.slot);
      }
      reqs := reqs[r := reqs[r].(phase := Answered(Fresh(Shown(phase.status), phase.body)))];
    }

    method ExecuteAfter(r: ReqId, during: seq<Step>, status: int, body: string)
      requires Inv(State()) && In(State(), r, Executing) && Foreign(during, r)
      modifies this
      ensures Inv(State()) && State() == Run(old(State()), during + [Execute(r, status, body)])
      ensures In(State(), r, Executed(status, body)) && reqs[r].req == old(reqs)[r].req
    {
      RunThen(State(), during, Execute(r, status, body));
      Interleave(during, r);
      RunHandler(r, status, body);
    }

    /** `saved` is false when finalizing or discarding failed; the client is told so. */
    method FinishAfter(r: ReqId, after: seq<Step>, status: int, body: string, saved: bool)
      requires Inv(State()) && In(State(), r, Executed(status, body)) && Foreign(after, r)
      modifies this
      ensures Inv(State()) && State() == Run(old(State()), after + [if saved then Finish(r) else FinishFails(r)])
      ensures In(State(), r, Answered(if saved then Fresh(Shown(status), body) else ServerError)) && reqs[r].req == old(reqs)[r].req
      ensures
        var req := reqs[r].req;
        if !saved then req.slot in keys && keys[req.slot] == Row(req.fingerprint, 0, "")
        else if Succeeded(status) then req.slot in keys && keys[req.slot] == Row(req.fingerprint, status, StoredBody(req, body))
        else req.slot !in keys
    {
      RunThen(State(), after, if saved then Finish(r) else FinishFails(r));
      Interleave(after, r);
      assert Holding(reqs[r]);
      if saved {
        Record(r);
      } else {
        ApplyKeepsInv(State(), FinishFails(r));
        reqs := reqs[r := reqs[r].(phase := Answered(ServerError))];
      }
    }

    /** Execute once the key is reserved, then record the outcome. */
    method ExecuteReserved(r: ReqId, status: int, body: string, during: seq<Step>, after: seq<Step>, saved: bool)
      requires Inv(State()) && In(State(), r, Executing) && Foreign(during, r) && Foreign(after, r)
      modifies this
      ensures Inv(State()) && State() == Run(old(State()), ExecuteScript(r, status, body, during, after, saved))
      ensures In(State(), r, Answered(if saved then Fresh(Shown(status), body) else ServerError)) && reqs[r].req == old(reqs)[r].req
      ensures
        var req := reqs[r].req;
        if !saved then req.slot in keys && keys[req.slot] == Row(req.fingerprint, 0, "")
        else if Succeeded(status) then req.slot in keys && keys[req.slot] == Row(req.fingerprint, status, StoredBody(req, body))
        else req.slot !in keys
    {
      RunConcat(State(), during + [Execute(r, status, body)], after + [if saved then Finish(r) else FinishFails(r)]);
      ExecuteAfter(r, during, status, body);
      FinishAfter(r, after, status, body, saved);
    }

    method WriteArrived(r: ReqId, status: int, body: string, a: seq<Step>, b: seq<Step>, during: seq<Step>, after: seq<Step>, saved: bool)
      returns (answer: Answer, ghost steps: seq<Step>)
      requires Inv(State()) && In(State(), r, Arrived) && Foreign(a, r) && Foreign(b, r) && Foreign(during, r) && Foreign(after, r)
      modifies this
      ensures Inv(State()) && In(State(), r, Answered(answer)) && reqs[r].req == old(reqs)[r].req
      ensures State() == Run(Apply(old(State()), Lookup(r)), steps)
      ensures if old(reqs)[r].req.slot in old(keys) then steps == []
              else steps == (a + [Reserve(r)]) + ExecuteScript(r, status, body, during, after, saved) || ReserveScript(steps, r, a, b, false)
      ensures old(reqs)[r].req.slot in old(keys) ==> keys == old(keys)
      ensures
        var req := reqs[r].req;
        if req.slot !in old(keys) && req.slot !in Run(Apply(old(State()), Lookup(r)), a).keys
        then answer == if saved then Fresh(if status == 0 then 200 else status, body) else ServerError
        else answer == if req.slot in keys && keys[req.slot].fingerprint == req.fingerprint && keys[req.slot].status != 0
                       then Replay(keys[req.slot].status, keys[req.slot].body) else KeyConflict
      ensures
        var req := reqs[r].req;
        answer.Fresh? ==>
          if 200 <= status < 300
          then req.slot in keys && keys[req.slot] == Row(req.fingerprint, status, if req.credentialed then "" else body)
          else req.slot !in keys
    {
      ghost var w := Apply(State(), Lookup(r));
      steps := Begin(r, a, b);
      if reqs[r].phase.Answered? {
        return reqs[r].phase.answer, steps;
      }
      RunConcat(w, steps, ExecuteScript(r, status, body, during, after, saved));
      ExecuteReserved(r, status, body, during, after, saved);
      steps := steps + ExecuteScript(r, status, body, during, after, saved);
      return if saved then Fresh(Shown(status), body) else ServerError, steps;
    }

    /** A whole write: arrive, reserve or be answered, execute at most once. `a`, `b`, `during` and
        `after` are what others do in between; `steps` are all that followed the first lookup. */
    method HandleWrite(r: ReqId, req: Request, status: int, body: string, a: seq<Step>, b: seq<Step>,
                       during: seq<Step>, after: seq<Step>, saved: bool)
      returns (answer: Answer, ghost steps: seq<Step>)
      requires Inv(State()) && r !in reqs && Foreign(a, r) && Foreign(b, r) && Foreign(during, r) && Foreign(after, r)
      modifies this
      ensures Inv(State()) && In(State(), r, Answered(answer)) && reqs[r].req == req
      ensures State() == Run(LookedUp(old(State()), r, req), steps)
      ensures if req.slot.key == "" || req.slot in old(keys) then steps == []
              else steps == (a + [Reserve(r)]) + ExecuteScript(r, status, body, during, after, saved) || ReserveScript(steps, r, a, b, false)
      ensures answer == BadRequest <==> req.slot.key == ""
      ensures req.slot.key != "" && req.slot in old(keys) ==>
                && keys == old(keys)
                && answer == if keys[req.slot].fingerprint == req.fingerprint && keys[req.slot].status != 0
                             then Replay(keys[req.slot].status, keys[req.slot].body) else KeyConflict
      ensures req.slot.key != "" && req.slot !in old(keys) ==>
                if req.slot !in Run(LookedUp(old(State()), r, req), a).keys
                then answer == if saved then Fresh(if status == 0 then 200 else status, body) else ServerError
                else answer == if req.slot in keys && keys[req.slot].fingerprint == req.fingerprint && keys[req.slot].status != 0
                               then Replay(keys[req.slot].status, keys[req.slot].body) else KeyConflict
      ensures req.slot !in old(keys) && NoneReserves(LookedUp(old(State()), r, req), a, req.slot) ==>
                req.slot !in Run(LookedUp(old(State()), r, req), a).keys
      ensures answer.Replay? ==> Reported(State(), req.slot, req.fingerprint, answer.status, answer.body)
      ensures answer.Fresh? ==>
                if 200 <= status < 300
                then req.slot in keys && keys[req.slot] == Row(req.fingerprint, status, if req.credentialed then "" else body)
                else req.slot !in keys
    {
      ghost var w := LookedUp(State(), r, req);
      ApplyKeepsInv(State(), Arrive(r, req));
      if req.slot !in keys && NoneReserves(w, a, req.slot) {
        KeyStaysFree(w, a, req.slot);
      }
      if req.slot.key == "" {
        reqs := reqs[r := Live(req, Answered(BadRequest))];
        return BadRequest, [];
      }
      reqs := reqs[r := Live(req, Arrived)];
      answer, steps := WriteArrived(r, status, body, a, b, during, after, saved);
    }
  }

  /** The state once a request has arrived and looked its key up. */
  function LookedUp(w: World, r: ReqId, req: Request): World {
    Apply(Apply(w, Arrive(r, req)), Lookup(r))
  }
}
