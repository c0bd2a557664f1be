/**
 Recurring jobs: any number of nodes tick the same schedule rows, each winning a firing by
 compare-and-set and only then enqueuing its job. Clocks are nanoseconds, as in `Cron`; firings are
 stored in microseconds.
 */
module Schedules {
  import Calendar
  import Cron
  import Jobs
  import Text
  import opened Wrappers

  type ScheduleId = string

  datatype Row = Row(kind: string, payload: string, cron: Cron.Schedule, owner: string, next: nat)

  /** A firing some node won; `handed` once its job has been enqueued. */
  datatype Firing = Firing(id: ScheduleId, at: nat, kind: string, payload: string, handed: bool)

  datatype Board = Board(rows: map<ScheduleId, Row>, won: seq<Firing>, queue: Jobs.Queue)

  const EMPTY_BOARD := Board(map[], [], Jobs.EMPTY_QUEUE)

  function Micros(instant: nat): nat {
    instant / 1000
  }

  /** The firing of minute `t`, in microseconds. */
  function FiringAt(t: nat): nat {
    Micros(Cron.At(t))
  }

  /** A firing is due exactly when its minute has begun. */
  lemma DueWhenBegun(now: nat, t: nat)
    ensures FiringAt(t) <= Micros(now) <==> Cron.At(t) <= now
  {
  }

  /** The same date a hundred years on; 29 February may become 1 March. */
  function LaterDate(d: Calendar.Date): (later: Calendar.Date)
    requires Calendar.Valid(d)
    ensures Calendar.Valid(later) && later.year == d.year + 100
  {
    if d.day <= Calendar.MonthLength(d.year + 100, d.month) then Calendar.Date(d.year + 100, d.month, d.day)
    else Calendar.Date(d.year + 100, 3, 1)
  }

  function CenturyDay(day: nat): (later: nat)
    ensures later > day
  {
    Calendar.DateOfNumber(day);
    Calendar.EarlierYear(Calendar.DateOf(day), LaterDate(Calendar.DateOf(day)));
    Calendar.DayNumber(LaterDate(Calendar.DateOf(day)))
  }

  /** The same time of day a hundred years on. */
  function CenturyLater(now: nat): nat {
    Cron.Midnight(CenturyDay(Cron.DayOf(now))) + now - Cron.Midnight(Cron.DayOf(now))
  }

  lemma CenturyIsLater(now: nat)
    ensures Micros(CenturyLater(now)) > Micros(now)
  {
    ADayLater(now, Cron.DayOf(now), CenturyDay(Cron.DayOf(now)));
  }

  lemma ADayLater(now: nat, day: nat, later: nat)
    requires day == Cron.DayOf(now) && day < later
    ensures Micros(Cron.Midnight(later) + now - Cron.Midnight(day)) > Micros(now)
  {
  }

  /** Firings are whole minutes, in microseconds. */
  lemma FiringUnit(t: nat)
    ensures FiringAt(t) == 60_000_000 * t
  {
  }

  /** A parked row waits for the same date and time of day a hundred years on, 1 March for 29 February
      where that year has none. */
  lemma ParkedDate(now: nat)
    ensures
      var was, later := Calendar.DateOf(Cron.DayOf(now)), Calendar.DateOf(Cron.DayOf(CenturyLater(now)));
      && later.year == was.year + 100
      && ((later.month == was.month && later.day == was.day)
          || (was.month == 2 && was.day == 29 && later.month == 3 && later.day == 1 && !Calendar.IsLeap(later.year)))
      && CenturyLater(now) % 86_400_000_000_000 == now % 86_400_000_000_000
  {
    var day := Cron.DayOf(now);
    Calendar.DateOfNumber(day);
    Calendar.NumberRoundTrip(LaterDate(Calendar.DateOf(day)));
    SameTime(now, day, CenturyDay(day));
  }

  lemma SameTime(now: nat, day: nat, later: nat)
    requires day == Cron.DayOf(now)
    ensures
      var t := Cron.Midnight(later) + now - Cron.Midnight(day);
      t >= 0 && Cron.DayOf(t) == later && t % 86_400_000_000_000 == now % 86_400_000_000_000
  {
  }

  /** Where a tick at `now` moves a row. An expression that can never fire again is parked. */
  ghost function After(cron: Cron.Schedule, now: nat): nat
    requires Cron.Sized(cron)
  {
    match Cron.NextAt(cron, now)
    case Some(t) => FiringAt(t)
    case None => Micros(CenturyLater(now))
  }

  lemma AfterIsLater(cron: Cron.Schedule, now: nat)
    requires Cron.Sized(cron)
    ensures After(cron, now) > Micros(now)
  {
    CenturyIsLater(now);
    match Cron.NextAt(cron, now)
    case Some(t) => DueWhenBegun(now, t);
    case None =>
  }

  datatype Op =
    | Upsert(id: ScheduleId, kind: string, payload: string, cron: Cron.Schedule, owner: string, clock: nat)
    | DeleteOwner(owner: string)
    | Advance(id: ScheduleId, read: Row, clock: nat)     // `read` is the row as an earlier scan saw it
    | HandOver(k: nat, job: Jobs.JobId)                  // a node that dies first never takes this step
    | QueueStep(op: Jobs.Op)

  predicate Accepted(op: Op)
    requires op.Upsert?
  {
    op.id != "" && op.kind != "" && op.owner != "" && Cron.Sized(op.cron)
  }

  function Key(f: Firing): string {
    f.id + "@" + Text.Show(f.at)
  }

  /** The compare-and-set of one row. */
  ghost function Advanced(b: Board, id: ScheduleId, read: Row, clock: nat): Board {
    if id in b.rows && Cron.Sized(read.cron) && b.rows[id].next == read.next <= Micros(clock)
    then b.(rows := b.rows[id := b.rows[id].(next := After(read.cron, clock))],
            won := b.won + [Firing(id, read.next, read.kind, read.payload, false)])
    else b
  }

  /** The job of the k-th won firing is enqueued under its key. */
  function HandedOver(b: Board, k: nat, job: Jobs.JobId): Board {
    if k < |b.won| && !b.won[k].handed
    then
      var f := b.won[k];
      b.(won := b.won[k := f.(handed := true)],
         queue := Jobs.Apply(b.queue, Jobs.Enqueue(job, f.kind, f.payload, Key(f), f.at)))
    else b
  }

  /** A step its guards refuse changes nothing. */
  ghost function Apply(b: Board, op: Op): Board {
    match op
    case Upsert(id, kind, payload, cron, owner, clock) =>
      if Accepted(op) && Cron.NextAt(cron, clock).Some?
      then b.(rows := b.rows[id := Row(kind, payload, cron, owner, FiringAt(Cron.NextAt(cron, clock).value))])
      else b
    case DeleteOwner(owner) =>
      b.(rows := map id | id in b.rows && b.rows[id].owner != owner :: b.rows[id])
    case Advance(id, read, clock) => Advanced(b, id, read, clock)
    case HandOver(k, job) => HandedOver(b, k, job)
    case QueueStep(step) => b.(queue := Jobs.Apply(b.queue, step))
  }

  ghost function Run(b: Board, ops: seq<Op>): Board {
    if ops == [] then b else Apply(Run(b, ops[..|ops| - 1]), ops[|ops| - 1])
  }

  // ---- Each firing is won at most once ----

  /** The clock of an upsert is not behind a firing of that schedule that has been won. */
  ghost predicate Prompt(b: Board, op: Op) {
    op.Upsert? ==> forall k :: 0 <= k < |b.won| && b.won[k].id == op.id ==> b.won[k].at <= Micros(op.clock)
  }

  ghost predicate AllPrompt(b: Board, ops: seq<Op>) {
    forall k :: 0 <= k < |ops| ==> Prompt(Run(b, ops[..k]), ops[k])
  }

  /** A row's next firing is later than every firing already won for it. */
  ghost predicate Ahead(b: Board) {
    forall id, k :: id in b.rows && 0 <= k < |b.won| && b.won[k].id == id ==> b.won[k].at < b.rows[id].next
  }

  /** The firings won for one schedule strictly increase. */
  ghost predicate Climbing(b: Board) {
    forall j, k :: 0 <= j < k < |b.won| && b.won[j].id == b.won[k].id ==> b.won[j].at < b.won[k].at
  }

  /** A row is only ever written with a firing later than every firing won for it before and with it. */
  lemma RowWritten(b: Board, b': Board, id: ScheduleId, next: nat)
    requires Ahead(b) && Climbing(b)
    requires forall other :: other in b'.rows && other != id ==> other in b.rows && b'.rows[other].next == b.rows[other].next
    requires id in b'.rows && b'.rows[id].next == next
    requires b'.won == b.won || (id in b.rows && |b'.won| == |b.won| + 1 && b'.won[..|b.won|] == b.won
                                 && b'.won[|b.won|].id == id && b'.won[|b.won|].at == b.rows[id].next < next)
    requires b'.won == b.won ==> forall k :: 0 <= k < |b.won| && b.won[k].id == id ==> b.won[k].at < next
    ensures Ahead(b') && Climbing(b')
  {
    assert forall k :: 0 <= k < |b.won| ==> b'.won[k] == b'.won[..|b.won|][k] == b.won[k];
  }

  /** The firing an upsert computes is later than every firing of that schedule that has been won. */
  ghost predicate Later(b: Board, op: Op) {
    op.Upsert? && Accepted(op) && Cron.NextAt(op.cron, op.clock).Some? ==>
      forall k :: 0 <= k < |b.won| && b.won[k].id == op.id ==> b.won[k].at < FiringAt(Cron.NextAt(op.cron, op.clock).value)
  }

  ghost predicate AllLater(b: Board, ops: seq<Op>) {
    ops == [] || (AllLater(b, ops[..|ops| - 1]) && Later(Run(b, ops[..|ops| - 1]), ops[|ops| - 1]))
  }

  /** Every row is ahead before the first step and after each one. */
  ghost predicate AllAhead(b: Board, ops: seq<Op>) {
    Ahead(Run(b, ops)) && (ops == [] || AllAhead(b, ops[..|ops| - 1]))
  }

  lemma PromptIsLater(b: Board, op: Op)
    requires Prompt(b, op)
    ensures Later(b, op)
  {
    if op.Upsert? && Accepted(op) && Cron.NextAt(op.cron, op.clock).Some? {
      DueWhenBegun(op.clock, Cron.NextAt(op.cron, op.clock).value);
    }
  }

  lemma ApplyKeepsClimbing(b: Board, op: Op)
    requires Ahead(b) && Climbing(b) && Later(b, op)
    ensures Ahead(Apply(b, op)) && Climbing(Apply(b, op))
  {
    var b' := Apply(b, op);
    if op.Upsert? && op.id in b'.rows && Accepted(op) && Cron.NextAt(op.cron, op.clock).Some? {
      RowWritten(b, b', op.id, b'.rows[op.id].next);
    } else if op.Advance? && b'.won != b.won {
      AfterIsLater(op.read.cron, op.clock);
      RowWritten(b, b', op.id, b'.rows[op.id].next);
    }
  }

  /** Whatever the step, and whether or not its expression is the stored one: it keeps every row ahead of
      what has been won exactly when the firing it computes is later than every firing won. */
  lemma StepAheadExactly(b: Board, op: Op)
    requires Ahead(b) && Climbing(b)
    ensures Ahead(Apply(b, op)) <==> Later(b, op)
    ensures Climbing(Apply(b, op))
  {
    if Later(b, op) {
      ApplyKeepsClimbing(b, op);
    } else {
      var next := FiringAt(Cron.NextAt(op.cron, op.clock).value);
      var k :| 0 <= k < |b.won| && b.won[k].id == op.id && b.won[k].at >= next;
      assert op.id in Apply(b, op).rows && Apply(b, op).won == b.won && Apply(b, op).rows[op.id].next == next;
    }
  }

  /** Being ahead is what the next ticks need: the firings keep climbing whichever row is ticked, at any
      clock, exactly when every row is ahead of what has been won for it. */
  lemma TickClimbsExactly(b: Board)
    requires Climbing(b) && forall id :: id in b.rows ==> Cron.Sized(b.rows[id].cron)
    ensures Ahead(b) <==> forall id, clock: nat :: id in b.rows ==> Climbing(Apply(b, Advance(id, b.rows[id], clock)))
  {
    if Ahead(b) {
      forall id, clock: nat | id in b.rows ensures Climbing(Apply(b, Advance(id, b.rows[id], clock))) {
        ApplyKeepsClimbing(b, Advance(id, b.rows[id], clock));
      }
    } else {
      var id, k :| id in b.rows && 0 <= k < |b.won| && b.won[k].id == id && b.won[k].at >= b.rows[id].next;
      var clock: nat := b.rows[id].next * 1000;
      assert Micros(clock) == b.rows[id].next;
      var b' := Apply(b, Advance(id, b.rows[id], clock));
      assert b'.won[k] == b.won[k] && b'.won[|b.won|].id == id && b'.won[|b.won|].at == b.rows[id].next;
      assert !Climbing(b');
    }
  }

  /** Over every run, each row stays ahead throughout exactly when each upsert's firing is later than
      every firing of its schedule won before it. */
  lemma {:induction false} RunAheadExactly(b: Board, ops: seq<Op>)
    requires Ahead(b) && Climbing(b)
    ensures AllAhead(b, ops) <==> AllLater(b, ops)
    ensures AllLater(b, ops) ==> Climbing(Run(b, ops))
  {
    if ops != [] {
      var init := ops[..|ops| - 1];
      RunAheadExactly(b, init);
      if AllLater(b, init) { StepAheadExactly(Run(b, init), ops[|ops| - 1]); }
    }
  }

  lemma {:induction false} AllPromptIsLater(b: Board, ops: seq<Op>)
    requires AllPrompt(b, ops)
    ensures AllLater(b, ops)
  {
    if ops != [] {
      var init := ops[..|ops| - 1];
      forall k | 0 <= k < |init| ensures Prompt(Run(b, init[..k]), init[k]) {
        assert init[..k] == ops[..k];
        assert Prompt(Run(b, ops[..k]), ops[k]);
      }
      AllPromptIsLater(b, init);
      PromptIsLater(Run(b, init), ops[|ops| - 1]);
    }
  }

  /** Over every interleaving of ticks, upserts and deletions, no firing of a schedule is won twice,
      as long as no upsert's clock is behind a firing already won. */
  lemma RunWinsOnce(b: Board, ops: seq<Op>)
    requires Ahead(b) && Climbing(b) && AllPrompt(b, ops)
    ensures Ahead(Run(b, ops)) && Climbing(Run(b, ops))
  {
    AllPromptIsLater(b, ops);
    RunAheadExactly(b, ops);
  }

  /** Installing an expression again is safe exactly when the clock is not behind the schedule's last won
      firing, provided that firing is one of the expression's and inside the lookahead. */
  lemma PromptExactly(b: Board, op: Op, last: nat, m: nat)
    requires Ahead(b) && Climbing(b)
    requires op.Upsert? && Accepted(op) && Cron.NextAt(op.cron, op.clock).Some?
    requires last < |b.won| && b.won[last].id == op.id && forall k :: last < k < |b.won| ==> b.won[k].id != op.id
    requires b.won[last].at == FiringAt(m) && Cron.Matches(op.cron, m) && Cron.At(m) < op.clock + Cron.LOOKAHEAD
    ensures Ahead(Apply(b, op)) <==> Cron.At(m) <= op.clock
    ensures Cron.At(m) <= op.clock <==> Prompt(b, op)
  {
    var next := Cron.NextAt(op.cron, op.clock).value;
    DueWhenBegun(op.clock, m);
    assert forall k :: 0 <= k < |b.won| && b.won[k].id == op.id ==> b.won[k].at <= b.won[last].at;
    StepAheadExactly(b, op);
    if Cron.At(m) <= op.clock {
      PromptIsLater(b, op);
    } else {
      assert Cron.InWindow(op.clock, m);
      assert next <= m;
      assert FiringAt(next) <= b.won[last].at;
    }
  }

  /** The premise is needed: an upsert on a node whose clock is still before a firing that a faster
      node has won arms that firing again, and it is won a second time. */
  lemma SlowClockFiresTwice(cron: Cron.Schedule, slow: nat, fast: nat)
    requires Cron.Sized(cron) && Cron.NextAt(cron, slow).Some? && Cron.At(Cron.NextAt(cron, slow).value) <= fast
    ensures
      var f := FiringAt(Cron.NextAt(cron, slow).value);
      var read := Row("k", "", cron, "o", f);
      var ops := [Upsert("s", "k", "", cron, "o", slow), Advance("s", read, fast),
                  Upsert("s", "k", "", cron, "o", slow), Advance("s", read, fast)];
      Run(EMPTY_BOARD, ops).won == [Firing("s", f, "k", "", false), Firing("s", f, "k", "", false)]
  {
    var f := FiringAt(Cron.NextAt(cron, slow).value);
    var read := Row("k", "", cron, "o", f);
    var up, adv := Upsert("s", "k", "", cron, "o", slow), Advance("s", read, fast);
    DueWhenBegun(fast, Cron.NextAt(cron, slow).value);
    Runs2(EMPTY_BOARD, up, adv);
    var b := Run(EMPTY_BOARD, [up, adv]);
    assert [up, adv, up, adv][..3] == [up, adv, up] && [up, adv, up][..2] == [up, adv];
    assert Run(EMPTY_BOARD, [up, adv, up]) == Apply(b, up);
  }

  lemma Runs2(b: Board, x: Op, y: Op)
    ensures Run(b, [x, y]) == Apply(Apply(b, x), y)
  {
    assert [x, y][..1] == [x] && [x][..0] == [];
    assert Run(b, [x]) == Apply(b, x);
  }

  // ---- A missed window fires once ----

  function WinsOf(won: seq<Firing>, id: ScheduleId): nat {
    if won == [] then 0 else WinsOf(won[..|won| - 1], id) + (if won[|won| - 1].id == id then 1 else 0)
  }

  predicate TicksAt(ops: seq<Op>, clock: nat) {
    forall k :: 0 <= k < |ops| ==> ops[k].Advance? && ops[k].clock == clock
  }

  /** However many firings were missed and however many nodes tick, one clock reading wins at most one
      firing of a schedule, and the row is then no longer due. */
  lemma {:induction false} MissedWindowFiresOnce(b: Board, ops: seq<Op>, clock: nat, id: ScheduleId)
    requires id in b.rows && TicksAt(ops, clock)
    ensures
      var b' := Run(b, ops);
      && id in b'.rows
      && (if b'.rows[id].next == b.rows[id].next then WinsOf(b'.won, id) == WinsOf(b.won, id)
          else WinsOf(b'.won, id) == WinsOf(b.won, id) + 1 && b'.rows[id].next > Micros(clock))
  {
    if ops != [] {
      var init, op := ops[..|ops| - 1], ops[|ops| - 1];
      MissedWindowFiresOnce(b, init, clock, id);
      var mid := Run(b, init);
      if Apply(mid, op) != mid {
        AfterIsLater(op.read.cron, clock);
        assert (mid.won + [Firing(op.id, op.read.next, op.read.kind, op.read.payload, false)])[..|mid.won|] == mid.won;
      }
    }
  }

  // ---- Jobs handed over ----

  /** Every run keeps the queue's own invariant: conservation, leases, one job per kind and key. */
  lemma {:induction false} RunKeepsQueue(b: Board, ops: seq<Op>)
    requires Jobs.Inv(b.queue)
    ensures Jobs.Inv(Run(b, ops).queue)
  {
    if ops != [] {
      var mid, op := Run(b, ops[..|ops| - 1]), ops[|ops| - 1];
      RunKeepsQueue(b, ops[..|ops| - 1]);
      if op.HandOver? && op.k < |mid.won| {
        var f := mid.won[op.k];
        Jobs.ApplyKeepsConserved(mid.queue, Jobs.Enqueue(op.job, f.kind, f.payload, Key(f), f.at));
        Jobs.ApplyKeepsRows(mid.queue, Jobs.Enqueue(op.job, f.kind, f.payload, Key(f), f.at));
      }
      if op.QueueStep? {
        Jobs.ApplyKeepsConserved(mid.queue, op.op);
        Jobs.ApplyKeepsRows(mid.queue, op.op);
      }
    }
  }

  /** Different firings have different keys, even when a schedule id itself contains '@'. */
  lemma KeyInjective(f: Firing, g: Firing)
    requires Key(f) == Key(g)
    ensures f.id == g.id && f.at == g.at
  {
    LastAt(f.id, Text.Show(f.at), g.id, Text.Show(g.at));
    Text.ShowInjective(f.at, g.at);
  }

  lemma LastAt(a: string, s: string, b: string, t: string)
    requires '@' !in s && '@' !in t && a + "@" + s == b + "@" + t
    ensures a == b && s == t
  {
    NotAfter(a, s, b, t);
    NotAfter(b, t, a, s);
    assert (a + "@" + s)[..|a|] == a && (b + "@" + t)[..|b|] == b;
    assert (a + "@" + s)[|a| + 1..] == s && (b + "@" + t)[|b| + 1..] == t;
  }

  lemma NotAfter(a: string, s: string, b: string, t: string)
    requires '@' !in s && a + "@" + s == b + "@" + t
    ensures |b| <= |a|
  {
    forall k | |a| < k < |a + "@" + s| ensures (a + "@" + s)[k] != '@' {
      assert (a + "@" + s)[k] == s[k - |a| - 1];
    }
    assert (b + "@" + t)[|b|] == '@';
  }

  /** A hand-over that inserted a job: which win it was for, and the job's id. */
  datatype Handed = Handed(k: nat, job: Jobs.JobId)

  predicate Issues(b: Board, op: Op) {
    op.HandOver? && op.job !in b.queue.issued && op.job in HandedOver(b, op.k, op.job).queue.issued
  }

  /** Every job that a run's hand-overs have inserted, in order. */
  ghost function Hands(b: Board, ops: seq<Op>): seq<Handed> {
    if ops == [] then []
    else
      var init, op := ops[..|ops| - 1], ops[|ops| - 1];
      Hands(b, init) + (if Issues(Run(b, init), op) then [Handed(op.k, op.job)] else [])
  }

  /** Each win has been handed over at most once, and a job still queued is as it was handed over. */
  ghost predicate HandsOk(b: Board, hands: seq<Handed>) {
    && (forall i :: 0 <= i < |hands| ==>
          hands[i].k < |b.won| && b.won[hands[i].k].handed && hands[i].job in b.queue.issued)
    && (forall i, j :: 0 <= i < j < |hands| ==> hands[i].k != hands[j].k)
    && (forall i :: 0 <= i < |hands| && hands[i].job in b.queue.jobs ==> Carries(b, hands[i]))
  }

  predicate Carries(b: Board, h: Handed)
    requires h.k < |b.won| && h.job in b.queue.jobs
  {
    b.queue.jobs[h.job].kind == b.won[h.k].kind && b.queue.jobs[h.job].dedupe == Key(b.won[h.k])
  }

  /** Wins are only added; one already there changes at most its `handed` flag, and never back. */
  lemma WinsStay(b: Board, op: Op)
    ensures
      var b' := Apply(b, op);
      |b.won| <= |b'.won| && forall k :: 0 <= k < |b.won| ==>
        b'.won[k].(handed := true) == b.won[k].(handed := true) && (b.won[k].handed ==> b'.won[k].handed)
  {
  }

  /** No queue step revives or rewrites the kind and key of a job. */
  lemma JobsStay(q: Jobs.Queue, op: Jobs.Op, id: Jobs.JobId)
    requires id in q.issued
    ensures
      var q' := Jobs.Apply(q, op);
      id in q'.issued && (id in q'.jobs ==> id in q.jobs && q'.jobs[id].kind == q.jobs[id].kind && q'.jobs[id].dedupe == q.jobs[id].dedupe)
  {
  }

  /** The queue step behind a board step, if there is one. */
  function QueueOp(b: Board, op: Op): Option<Jobs.Op> {
    match op
    case HandOver(k, job) =>
      if k < |b.won| && !b.won[k].handed
      then Some(Jobs.Enqueue(job, b.won[k].kind, b.won[k].payload, Key(b.won[k]), b.won[k].at)) else None
    case QueueStep(step) => Some(step)
    case _ => None
  }

  lemma QueueOfApply(b: Board, op: Op)
    ensures Apply(b, op).queue == match QueueOp(b, op) case Some(step) => Jobs.Apply(b.queue, step) case None => b.queue
  {
  }

  lemma KeyOfWin(f: Firing, g: Firing)
    requires f.(handed := true) == g.(handed := true)
    ensures Key(f) == Key(g) && f.kind == g.kind
  {
  }

  lemma OldHandStays(b: Board, op: Op, h: Handed)
    requires h.k < |b.won| && b.won[h.k].handed && h.job in b.queue.issued
    requires h.job in b.queue.jobs ==> Carries(b, h)
    ensures
      var b' := Apply(b, op);
      h.k < |b'.won| && b'.won[h.k].handed && h.job in b'.queue.issued && (h.job in b'.queue.jobs ==> Carries(b', h))
  {
    WinsStay(b, op);
    QueueOfApply(b, op);
    KeyOfWin(Apply(b, op).won[h.k], b.won[h.k]);
    if QueueOp(b, op).Some? { JobsStay(b.queue, QueueOp(b, op).value, h.job); }
  }

  lemma ApplyKeepsHands(b: Board, op: Op, hands: seq<Handed>)
    requires HandsOk(b, hands)
    ensures HandsOk(Apply(b, op), hands + (if Issues(b, op) then [Handed(op.k, op.job)] else []))
  {
    var b' := Apply(b, op);
    var hands' := hands + if Issues(b, op) then [Handed(op.k, op.job)] else [];
    forall i | 0 <= i < |hands'|
      ensures hands'[i].k < |b'.won| && b'.won[hands'[i].k].handed && hands'[i].job in b'.queue.issued
      ensures hands'[i].job in b'.queue.jobs ==> Carries(b', hands'[i])
    {
      if i < |hands| { OldHandStays(b, op, hands[i]); } else { KeyOfWin(b'.won[op.k], b.won[op.k]); }
    }
  }

  lemma {:induction false} RunKeepsHands(b: Board, ops: seq<Op>)
    ensures HandsOk(Run(b, ops), Hands(b, ops))
  {
    if ops != [] {
      RunKeepsHands(b, ops[..|ops| - 1]);
      ApplyKeepsHands(Run(b, ops[..|ops| - 1]), ops[|ops| - 1], Hands(b, ops[..|ops| - 1]));
    }
  }

  /** At most one job is ever inserted for a firing, whether it is still queued, done or dead: over every
      interleaving in which no upsert's clock is behind a firing already won. */
  lemma OneJobPerFiring(b: Board, ops: seq<Op>)
    requires Ahead(b) && Climbing(b) && AllPrompt(b, ops)
    ensures
      var b', hands := Run(b, ops), Hands(b, ops);
      HandsOk(b', hands) && forall i, j :: 0 <= i < j < |hands| ==>
        b'.won[hands[i].k].id != b'.won[hands[j].k].id || b'.won[hands[i].k].at != b'.won[hands[j].k].at
  {
    RunKeepsHands(b, ops);
    RunWinsOnce(b, ops);
  }

  /** Nobody but the scheduler enqueues under this key. */
  predicate NoForeign(ops: seq<Op>, key: string) {
    forall i :: 0 <= i < |ops| && ops[i].QueueStep? && ops[i].op.Enqueue? ==> ops[i].op.dedupe != key
  }

  /** Every queued job under the key was handed over for a firing with that key. */
  ghost predicate OnlyHanded(b: Board, hands: seq<Handed>, key: string) {
    forall id: Jobs.JobId :: id in b.queue.jobs && b.queue.jobs[id].dedupe == key ==> HandedAs(hands, id)
  }

  ghost predicate HandedAs(hands: seq<Handed>, id: Jobs.JobId) {
    exists i :: 0 <= i < |hands| && hands[i].job == id
  }

  lemma {:induction false} RunOnlyHanded(ops: seq<Op>, key: string)
    requires NoForeign(ops, key)
    ensures OnlyHanded(Run(EMPTY_BOARD, ops), Hands(EMPTY_BOARD, ops), key)
  {
    if ops != [] {
      var init, op := ops[..|ops| - 1], ops[|ops| - 1];
      RunOnlyHanded(init, key);
      var b, b' := Run(EMPTY_BOARD, init), Run(EMPTY_BOARD, ops);
      var hands, hands' := Hands(EMPTY_BOARD, init), Hands(EMPTY_BOARD, ops);
      QueueOfApply(b, op);
      forall id: Jobs.JobId | id in b'.queue.jobs && b'.queue.jobs[id].dedupe == key ensures HandedAs(hands', id) {
        if id in b.queue.jobs && b.queue.jobs[id].dedupe == key {
          var i :| 0 <= i < |hands| && hands[i].job == id;
          assert hands'[i] == hands[i];
        } else {
          assert Issues(b, op) && op.job == id;
          assert hands'[|hands|] == Handed(op.k, id);
        }
      }
    }
  }

  /** So, of jobs nobody else enqueued under a firing's key, the queue never holds two. */
  lemma OneQueuedPerKey(ops: seq<Op>, f: Firing, a: Jobs.JobId, c: Jobs.JobId)
    requires AllPrompt(EMPTY_BOARD, ops) && NoForeign(ops, Key(f))
    requires
      var jobs := Run(EMPTY_BOARD, ops).queue.jobs;
      a in jobs && c in jobs && jobs[a].dedupe == Key(f) == jobs[c].dedupe
    ensures a == c
  {
    var b, hands := Run(EMPTY_BOARD, ops), Hands(EMPTY_BOARD, ops);
    OneJobPerFiring(EMPTY_BOARD, ops);
    RunOnlyHanded(ops, Key(f));
    assert HandedAs(hands, a) && HandedAs(hands, c);
    var i :| 0 <= i < |hands| && hands[i].job == a;
    var j :| 0 <= j < |hands| && hands[j].job == c;
    assert Carries(b, hands[i]) && Carries(b, hands[j]);
    KeyInjective(b.won[hands[i].k], b.won[hands[j].k]);
  }

  /** Without that premise a firing may be won again; handing the later win over inserts a second job
      exactly when every earlier one is of another kind or has been dead-lettered. */
  lemma SecondJobExactly(ops: seq<Op>, k: nat, job: Jobs.JobId)
    requires
      var b := Run(EMPTY_BOARD, ops);
      && k < |b.won| && !b.won[k].handed && b.won[k].kind != "" && job !in b.queue.issued
      && NoForeign(ops, Key(b.won[k]))
    ensures
      var b, hands := Run(EMPTY_BOARD, ops), Hands(EMPTY_BOARD, ops);
      && HandsOk(b, hands)
      && (Issues(b, HandOver(k, job)) <==>
          forall i :: 0 <= i < |hands| && SameFiring(b.won[hands[i].k], b.won[k]) ==>
            b.won[hands[i].k].kind != b.won[k].kind || Jobs.Filed(b.queue, hands[i].job))
  {
    var b, hands := Run(EMPTY_BOARD, ops), Hands(EMPTY_BOARD, ops);
    var f := b.won[k];
    RunKeepsHands(EMPTY_BOARD, ops);
    RunKeepsQueue(EMPTY_BOARD, ops);
    RunOnlyHanded(ops, Key(f));
    assert Key(f)[|f.id|] == '@';
    if Issues(b, HandOver(k, job)) {
      forall i | 0 <= i < |hands| && SameFiring(b.won[hands[i].k], f)
        ensures b.won[hands[i].k].kind != f.kind || Jobs.Filed(b.queue, hands[i].job)
      {
        if hands[i].job in b.queue.jobs {
          assert Carries(b, hands[i]) && !Jobs.Duplicate(b.queue, f.kind, Key(f), hands[i].job);
        }
      }
    } else {
      var d: Jobs.JobId :| d in b.queue.jobs && Jobs.Duplicate(b.queue, f.kind, Key(f), d);
      assert HandedAs(hands, d);
      var i :| 0 <= i < |hands| && hands[i].job == d;
      assert Carries(b, hands[i]);
      KeyInjective(b.won[hands[i].k], f);
      assert SameFiring(b.won[hands[i].k], f) && !Jobs.Filed(b.queue, d);
    }
  }

  predicate SameFiring(f: Firing, g: Firing) {
    f.id == g.id && f.at == g.at
  }

  /** Such a run: a slow node's upsert renames the kind and arms the firing again, and two jobs are
      queued under its one key. */
  lemma SlowClockTwoJobs(cron: Cron.Schedule, slow: nat, fast: nat)
    requires Cron.Sized(cron) && Cron.NextAt(cron, slow).Some? && Cron.At(Cron.NextAt(cron, slow).value) <= fast
    ensures
      var f := FiringAt(Cron.NextAt(cron, slow).value);
      var ops := [Upsert("s", "a", "", cron, "o", slow), Advance("s", Row("a", "", cron, "o", f), fast), HandOver(0, 1),
                  Upsert("s", "b", "", cron, "o", slow), Advance("s", Row("b", "", cron, "o", f), fast), HandOver(1, 2)];
      var jobs := Run(EMPTY_BOARD, ops).queue.jobs;
      1 in jobs && 2 in jobs && jobs[1].dedupe == jobs[2].dedupe == Key(Firing("s", f, "a", "", true))
  {
    var f := FiringAt(Cron.NextAt(cron, slow).value);
    DueWhenBegun(fast, Cron.NextAt(cron, slow).value);
    var ops := [Upsert("s", "a", "", cron, "o", slow), Advance("s", Row("a", "", cron, "o", f), fast), HandOver(0, 1),
                Upsert("s", "b", "", cron, "o", slow), Advance("s", Row("b", "", cron, "o", f), fast), HandOver(1, 2)];
    var b1 := Apply(EMPTY_BOARD, ops[0]);
    var b2 := Apply(b1, ops[1]);
    var b3 := Apply(b2, ops[2]);
    var b4 := Apply(b3, ops[3]);
    var b5 := Apply(b4, ops[4]);
    var b6 := Apply(b5, ops[5]);
    Chain(ops, [EMPTY_BOARD, b1, b2, b3, b4, b5, b6]);
  }

  /** A run computed one board at a time. */
  lemma {:induction false} Chain(ops: seq<Op>, boards: seq<Board>)
    requires |boards| == |ops| + 1
    requires forall i :: 0 <= i < |ops| ==> boards[i + 1] == Apply(boards[i], ops[i])
    ensures Run(boards[0], ops) == boards[|ops|]
  {
    if ops != [] { Chain(ops[..|ops| - 1], boards[..|ops|]); }
  }

  // ---- SyncSchedules ----

  const OWNER := "automations"
  const JOB_KIND := "automation.run"

  datatype Wanted = Wanted(id: string, payload: string, cron: Cron.Schedule)

  function RowId(w: Wanted): ScheduleId {
    "automation:" + w.id
  }

  function UpsertOf(w: Wanted, now: nat): Op {
    Upsert(RowId(w), JOB_KIND, w.payload, w.cron, OWNER, now)
  }

  ghost predicate Fires(w: Wanted, now: nat) {
    Cron.Sized(w.cron) && Cron.NextAt(w.cron, now).Some?
  }

  /** The first expression that can never fire stops the sync. */
  ghost function Reached(list: seq<Wanted>, now: nat): (n: nat)
    ensures n <= |list| && (n < |list| ==> !Fires(list[n], now))
    ensures forall k :: 0 <= k < n ==> Fires(list[k], now)
  {
    if list == [] || !Fires(list[0], now) then 0 else 1 + Reached(list[1..], now)
  }

  ghost function Upserted(b: Board, list: seq<Wanted>, now: nat): Board {
    if list == [] then b
    else Apply(Upserted(b, list[..|list| - 1], now), UpsertOf(list[|list| - 1], now))
  }

  /** Deleting the owner's rows and writing the wanted ones are separate transactions. */
  ghost function Synced(b: Board, list: seq<Wanted>, now: nat): Board {
    Upserted(Apply(b, DeleteOwner(OWNER)), list[..Reached(list, now)], now)
  }

  ghost predicate Distinct(list: seq<Wanted>) {
    forall j, k :: 0 <= j < k < |list| ==> list[j].id != list[k].id
  }

  ghost function RowFor(w: Wanted, now: nat): Row
    requires Fires(w, now)
  {
    Row(JOB_KIND, w.payload, w.cron, OWNER, FiringAt(Cron.NextAt(w.cron, now).value))
  }

  lemma RowIdInjective(a: Wanted, b: Wanted)
    requires RowId(a) == RowId(b)
    ensures a.id == b.id
  {
    assert RowId(a)[11..] == a.id && RowId(b)[11..] == b.id;
  }

  lemma {:induction false} UpsertedHistory(b: Board, list: seq<Wanted>, now: nat)
    ensures Upserted(b, list, now).won == b.won && Upserted(b, list, now).queue == b.queue
  {
    if list != [] { UpsertedHistory(b, list[..|list| - 1], now); }
  }

  lemma {:induction false} UpsertedRow(b: Board, list: seq<Wanted>, now: nat, k: nat)
    requires k < |list| && Distinct(list) && forall j :: 0 <= j < |list| ==> Fires(list[j], now)
    ensures
      var rows := Upserted(b, list, now).rows;
      RowId(list[k]) in rows && rows[RowId(list[k])] == RowFor(list[k], now)
  {
    var last := list[|list| - 1];
    if k < |list| - 1 {
      UpsertedRow(b, list[..|list| - 1], now, k);
      if RowId(list[k]) == RowId(last) { RowIdInjective(list[k], last); }
    } else {
      assert Fires(last, now) && Accepted(UpsertOf(last, now));
    }
  }

  lemma {:induction false} UpsertedOther(b: Board, list: seq<Wanted>, now: nat, id: ScheduleId)
    requires forall k :: 0 <= k < |list| ==> id != RowId(list[k])
    ensures id in Upserted(b, list, now).rows <==> id in b.rows
    ensures id in b.rows ==> Upserted(b, list, now).rows[id] == b.rows[id]
  {
    if list != [] { UpsertedOther(b, list[..|list| - 1], now, id); }
  }

  /** The row's firing was computed from its own expression, at a clock not after `now`. */
  ghost predicate Armed(r: Row, now: nat) {
    && Cron.Sized(r.cron)
    && exists t0: nat :: t0 <= now && ArmedAt(r, t0)
  }

  ghost predicate ArmedAt(r: Row, t0: nat)
    requires Cron.Sized(r.cron)
  {
    Cron.NextAt(r.cron, t0).Some? && r.next == FiringAt(Cron.NextAt(r.cron, t0).value)
  }

  /** A sync leaves the next firing of an unchanged row as it was exactly when that firing is not due.
      A due firing that no tick has won yet is dropped: the row moves past `now` and nothing is won. */
  lemma SyncKeepsFiring(b: Board, list: seq<Wanted>, now: nat, k: nat)
    requires Distinct(list) && Reached(list, now) == |list| && k < |list|
    requires RowId(list[k]) in b.rows && Armed(b.rows[RowId(list[k])], now) && b.rows[RowId(list[k])].cron == list[k].cron
    ensures
      var b' := Synced(b, list, now);
      var id := RowId(list[k]);
      && id in b'.rows
      && (b'.rows[id].next == b.rows[id].next <==> Micros(now) < b.rows[id].next)
      && b'.rows[id].next > Micros(now) && b'.won == b.won && b'.queue == b.queue
  {
    assert list[..|list|] == list;
    UpsertedRow(Apply(b, DeleteOwner(OWNER)), list, now, k);
    UpsertedHistory(Apply(b, DeleteOwner(OWNER)), list, now);
    var row := b.rows[RowId(list[k])];
    var t0: nat :| t0 <= now && ArmedAt(row, t0);
    var n := Cron.NextAt(row.cron, t0).value;
    DueWhenBegun(now, n);
    DueWhenBegun(now, Cron.NextAt(row.cron, now).value);
    if now < Cron.At(n) {
      Cron.NextStable(row.cron, t0, now);
    }
  }

  /** The owner's rows are deleted before the wanted ones are written, and an expression with no firing in
      the search window stops the sync there: an automation has a schedule afterwards exactly when it
      comes before the first such expression, or when another owner's row bears its id. */
  lemma SyncLeavesExactly(b: Board, list: seq<Wanted>, now: nat, k: nat)
    requires Distinct(list) && k < |list|
    ensures
      var id := RowId(list[k]);
      && (id in Synced(b, list, now).rows <==> k < Reached(list, now) || (id in b.rows && b.rows[id].owner != OWNER))
      && (k < Reached(list, now) ==> Synced(b, list, now).rows[id] == RowFor(list[k], now))
  {
    var done := list[..Reached(list, now)];
    if k < |done| {
      UpsertedRow(Apply(b, DeleteOwner(OWNER)), done, now, k);
    } else {
      forall j | 0 <= j < |done| ensures RowId(done[j]) != RowId(list[k]) {
        if RowId(done[j]) == RowId(list[k]) { RowIdInjective(done[j], list[k]); }
      }
      UpsertedOther(Apply(b, DeleteOwner(OWNER)), done, now, RowId(list[k]));
    }
  }

  /** Every upsert arms its row, and so does every tick that read the row's current expression and
      did not park it. */
  lemma ApplyArms(b: Board, op: Op, now: nat)
    requires forall id :: id in b.rows ==> Armed(b.rows[id], now)
    requires op.Upsert? ==> op.clock <= now
    requires op.Advance? ==> op.clock <= now && (op.id in b.rows ==> op.read.cron == b.rows[op.id].cron)
    requires op.Advance? && Cron.Sized(op.read.cron) ==> Cron.NextAt(op.read.cron, op.clock).Some?
    ensures forall id :: id in Apply(b, op).rows ==> Armed(Apply(b, op).rows[id], now)
  {
    var b' := Apply(b, op);
    forall id | id in b'.rows ensures Armed(b'.rows[id], now) {
      if id in b.rows && b'.rows[id] == b.rows[id] {
      } else if op.Upsert? {
        assert ArmedAt(b'.rows[id], op.clock);
      } else {
        assert ArmedAt(b'.rows[id], op.clock);
      }
    }
  }

  // ---- One tick ----

  /** A row as the scan for due schedules read it. */
  datatype Due = Due(id: ScheduleId, row: Row)

  ghost predicate DueScan(scan: seq<Due>, now: nat) {
    forall k :: 0 <= k < |scan| ==> Cron.Sized(scan[k].row.cron) && scan[k].row.next <= Micros(now)
  }

  /** Try one scanned row, and enqueue its job if the compare-and-set won. */
  ghost function TickOne(b: Board, d: Due, now: nat, job: Jobs.JobId): (r: (Board, bool)) {
    var b' := Advanced(b, d.id, d.row, now);
    if b'.won == b.won then (b', false) else (HandedOver(b', |b.won|, job), true)
  }

  /** The board and the number of firings won after trying every scanned row in turn. Other nodes take
      the steps `between[k]` before the k-th row is tried. */
  ghost function Ticked(b: Board, scan: seq<Due>, now: nat, between: seq<seq<Op>>, ids: seq<Jobs.JobId>)
    : (r: (Board, nat))
    requires |scan| <= |between| && |scan| <= |ids|
  {
    if scan == [] then (b, 0)
    else
      var k := |scan| - 1;
      var (before, n) := Ticked(b, scan[..k], now, between, ids);
      var (after, won) := TickOne(Run(before, between[k]), scan[k], now, ids[k]);
      (after, if won then n + 1 else n)
  }

  lemma TickedNext(b: Board, scan: seq<Due>, now: nat, between: seq<seq<Op>>, ids: seq<Jobs.JobId>, k: nat)
    requires k < |scan| <= |between| && |scan| <= |ids|
    ensures
      var (before, n) := Ticked(b, scan[..k], now, between, ids);
      var (after, won) := TickOne(Run(before, between[k]), scan[k], now, ids[k]);
      Ticked(b, scan[..k + 1], now, between, ids) == (after, if won then n + 1 else n)
  {
    assert scan[..k + 1][..k] == scan[..k];
  }

  /** The scan read the stored rows, one each. */
  ghost predicate Current(b: Board, scan: seq<Due>) {
    && (forall j, k :: 0 <= j < k < |scan| ==> scan[j].id != scan[k].id)
    && (forall k :: 0 <= k < |scan| ==> scan[k].id in b.rows && b.rows[scan[k].id] == scan[k].row)
  }

  function WonBy(d: Due): Firing {
    Firing(d.id, d.row.next, d.row.kind, d.row.payload, true)
  }

  /** Where a tick at `now` moves each scanned row. */
  ghost function Targets(scan: seq<Due>, now: nat): (rows: seq<Row>)
    requires DueScan(scan, now)
    ensures |rows| == |scan| && forall k :: 0 <= k < |scan| ==> rows[k] == scan[k].row.(next := After(scan[k].row.cron, now))
  {
    if scan == [] then []
    else
      var d := scan[|scan| - 1];
      Targets(scan[..|scan| - 1], now) + [d.row.(next := After(d.row.cron, now))]
  }

  /** Exactly the scanned rows have moved, each to its target. */
  ghost predicate Moved(b: Board, b': Board, scan: seq<Due>, targets: seq<Row>)
    requires |targets| == |scan|
  {
    && (forall id :: id in b'.rows <==> id in b.rows)
    && (forall k :: 0 <= k < |scan| ==> scan[k].id in b'.rows && b'.rows[scan[k].id] == targets[k])
    && (forall id :: id in b.rows && id in b'.rows && Unscanned(scan, id) ==> b'.rows[id] == b.rows[id])
  }

  ghost predicate Unscanned(scan: seq<Due>, id: ScheduleId) {
    forall k :: 0 <= k < |scan| ==> scan[k].id != id
  }

  function AllWon(scan: seq<Due>): seq<Firing> {
    if scan == [] then [] else AllWon(scan[..|scan| - 1]) + [WonBy(scan[|scan| - 1])]
  }

  lemma MoveOne(b: Board, before: Board, b': Board, init: seq<Due>, d: Due, targets: seq<Row>, target: Row)
    requires |targets| == |init| && Current(b, init + [d])
    requires Moved(b, before, init, targets) && b'.rows == before.rows[d.id := target]
    ensures Moved(b, b', init + [d], targets + [target])
  {
    var scan := init + [d];
    assert scan[|init|] == d && d.id in b.rows;
    forall k | 0 <= k < |scan| ensures scan[k].id in b'.rows && b'.rows[scan[k].id] == (targets + [target])[k] {
      if k < |init| { assert scan[k].id != scan[|init|].id; }
    }
    forall id | id in b.rows && Unscanned(scan, id) ensures b'.rows[id] == b.rows[id] {
      assert scan[|init|].id != id;
      assert forall k :: 0 <= k < |init| ==> init[k] == scan[k];
      assert Unscanned(init, id);
    }
  }

  lemma TickStep(b: Board, d: Due, now: nat, job: Jobs.JobId) returns (target: Row)
    requires Cron.Sized(d.row.cron) && d.row.next <= Micros(now) && d.id in b.rows && b.rows[d.id] == d.row
    ensures target == d.row.(next := After(d.row.cron, now))
    ensures
      var (b', won) := TickOne(b, d, now, job);
      won && b'.won == b.won + [WonBy(d)] && b'.rows == b.rows[d.id := target]
  {
    target := d.row.(next := After(d.row.cron, now));
    var won := b.won + [WonBy(d).(handed := false)];
    assert won[|b.won| := WonBy(d)] == b.won + [WonBy(d)];
  }

  /** Undisturbed, a tick wins each due firing once, hands its job over, and leaves every other row alone. */
  lemma {:induction false} TickWinsEach(b: Board, scan: seq<Due>, now: nat,
                                        between: seq<seq<Op>>, ids: seq<Jobs.JobId>)
    requires |scan| <= |between| && |scan| <= |ids| && forall k :: 0 <= k < |scan| ==> between[k] == []
    requires DueScan(scan, now) && Current(b, scan)
    ensures
      var (b', n) := Ticked(b, scan, now, between, ids);
      n == |scan| && b'.won == b.won + AllWon(scan) && Moved(b, b', scan, Targets(scan, now))
  {
    if scan != [] {
      var init, d := scan[..|scan| - 1], scan[|scan| - 1];
      TickWinsEach(b, init, now, between, ids);
      var before := Ticked(b, init, now, between, ids).0;
      assert init + [d] == scan && Run(before, []) == before;
      TickExtends(b, before, init, d, now, ids[|init|]);
    }
  }

  lemma TickExtends(b: Board, before: Board, init: seq<Due>, d: Due, now: nat, job: Jobs.JobId)
    requires DueScan(init + [d], now) && Current(b, init + [d])
    requires DueScan(init, now) && Moved(b, before, init, Targets(init, now)) && before.won == b.won + AllWon(init)
    ensures
      var (b', won) := TickOne(before, d, now, job);
      won && b'.won == b.won + AllWon(init + [d]) && Moved(b, b', init + [d], Targets(init + [d], now))
  {
    assert (init + [d])[|init|] == d;
    UndisturbedRow(b, before, init, d, now);
    var target := TickStep(before, d, now, job);
    TargetsExtend(init, d, now);
    MoveOne(b, before, TickOne(before, d, now, job).0, init, d, Targets(init, now), target);
    assert b.won + (AllWon(init) + [WonBy(d)]) == (b.won + AllWon(init)) + [WonBy(d)];
  }

  lemma TargetsExtend(init: seq<Due>, d: Due, now: nat)
    requires DueScan(init + [d], now) && DueScan(init, now) && Cron.Sized(d.row.cron)
    ensures Targets(init + [d], now) == Targets(init, now) + [d.row.(next := After(d.row.cron, now))]
    ensures AllWon(init + [d]) == AllWon(init) + [WonBy(d)]
  {
    var scan := init + [d];
    assert scan[..|scan| - 1] == init && scan[|scan| - 1] == d;
  }

  /** A row not yet tried is still as it was scanned. */
  lemma UndisturbedRow(b: Board, before: Board, init: seq<Due>, d: Due, now: nat)
    requires DueScan(init, now) && Current(b, init + [d]) && Moved(b, before, init, Targets(init, now))
    ensures d.id in before.rows && before.rows[d.id] == d.row
  {
    var scan := init + [d];
    assert scan[|init|] == d;
    forall k | 0 <= k < |init| ensures init[k].id != d.id {
      assert scan[k].id != scan[|init|].id;
    }
    assert Unscanned(init, d.id);
  }

  /** After a tick that scanned every due row, nothing is due at that clock. */
  lemma TickClearsDue(b: Board, scan: seq<Due>, now: nat, between: seq<seq<Op>>, ids: seq<Jobs.JobId>)
    requires |scan| <= |between| && |scan| <= |ids| && forall k :: 0 <= k < |scan| ==> between[k] == []
    requires DueScan(scan, now) && Current(b, scan)
    requires forall id :: id in b.rows && b.rows[id].next <= Micros(now) ==> exists k :: 0 <= k < |scan| && scan[k].id == id
    ensures
      var b' := Ticked(b, scan, now, between, ids).0;
      forall id :: id in b'.rows ==> b'.rows[id].next > Micros(now)
  {
    TickWinsEach(b, scan, now, between, ids);
    var b' := Ticked(b, scan, now, between, ids).0;
    forall id | id in b'.rows ensures b'.rows[id].next > Micros(now) {
      if k: int :| 0 <= k < |scan| && scan[k].id == id {
        AfterIsLater(scan[k].row.cron, now);
      }
    }
  }

  // ---- The stored schedules ----

  /** Draining `q` ran the jobs of `log`, each claimable in its turn, and left `q'`. */
  ghost predicate DrainedTo(q: Jobs.Queue, q': Jobs.Queue, now: int, log: seq<Jobs.JobId>, succeeds: seq<bool>,
                            before: seq<seq<Jobs.Op>>, during: seq<seq<Jobs.Op>>)
    requires |log| <= |succeeds| == |before| == |during| == Jobs.MAX_PER_PASS
  {
    && Jobs.IsPass(q, now, log, succeeds, before, during)
    && var passed := Jobs.Passed(q, now, log, succeeds, before, during);
       q' == if |log| < Jobs.MAX_PER_PASS then Jobs.Run(passed, before[|log|]) else passed
  }

  lemma {:induction false} TickKeepsQueue(b: Board, scan: seq<Due>, now: nat, between: seq<seq<Op>>, ids: seq<Jobs.JobId>)
    requires Jobs.Inv(b.queue) && |scan| <= |between| && |scan| <= |ids|
    ensures Jobs.Inv(Ticked(b, scan, now, between, ids).0.queue)
  {
    if scan != [] {
      var k := |scan| - 1;
      var (mid, n) := Ticked(b, scan[..k], now, between, ids);
      TickKeepsQueue(b, scan[..k], now, between, ids);
      RunKeepsQueue(mid, between[k]);
      var board := Run(mid, between[k]);
      var adv, hand := Advance(scan[k].id, scan[k].row, now), HandOver(|board.won|, ids[k]);
      RunKeepsQueue(board, [adv, hand]);
      Runs2(board, adv, hand);
    }
  }

  /** The automation's row, field by field. */
  ghost predicate Wants(rows: map<ScheduleId, Row>, w: Wanted, now: nat)
    requires Cron.Sized(w.cron)
  {
    var id := "automation:" + w.id;
    && id in rows && rows[id].kind == "automation.run" && rows[id].payload == w.payload && rows[id].cron == w.cron
    && rows[id].owner == "automations"
    && exists t: nat :: Cron.IsNext(w.cron, now, Some(t)) && rows[id].next == 60_000_000 * t
  }

  ghost predicate AllWant(b: Board, list: seq<Wanted>, now: nat)
    requires forall k :: 0 <= k < |list| ==> Cron.Sized(list[k].cron)
  {
    forall k :: 0 <= k < |list| ==> Wants(b.rows, list[k], now)
  }

  lemma SyncWants(b: Board, list: seq<Wanted>, now: nat)
    requires Distinct(list) && Reached(list, now) == |list| && forall k :: 0 <= k < |list| ==> Cron.Sized(list[k].cron)
    ensures AllWant(Synced(b, list, now), list, now)
  {
    forall k | 0 <= k < |list| ensures Wants(Synced(b, list, now).rows, list[k], now) {
      SyncLeavesExactly(b, list, now, k);
      FiringUnit(Cron.NextAt(list[k].cron, now).value);
    }
  }

  class ScheduleTable {
    var rows: map<ScheduleId, Row>
    var won: seq<Firing>
    var queue: Jobs.Queue

    function State(): Board
      reads this
    {
      Board(rows, won, queue)
    }

    constructor ()
      ensures State() == EMPTY_BOARD && Ahead(State()) && Climbing(State())
    {
      rows, won, queue := map[], [], Jobs.EMPTY_QUEUE;
    }

    /** Create or replace a row; its next firing is recomputed. False when it is refused. */
    method UpsertSchedule(id: ScheduleId, kind: string, payload: string, cron: Cron.Schedule, owner: string, clock: nat)
      returns (ok: bool)
      requires Cron.Sized(cron)
      modifies this
      ensures State() == Apply(old(State()), Upsert(id, kind, payload, cron, owner, clock))
      ensures ok <==> id != "" && kind != "" && owner != "" && Cron.NextAt(cron, clock).Some?
    {
      if id == "" || kind == "" || owner == "" {
        return false;
      }
      var next := Cron.Next(cron, clock);
      Cron.NextUnique(cron, clock, next, Cron.NextAt(cron, clock));
      if next.None? {
        return false;
      }
      rows := rows[id := Row(kind, payload, cron, owner, FiringAt(next.value))];
      return true;
    }

    method DeleteSchedulesByOwner(owner: string)
      modifies this
      ensures State() == Apply(old(State()), DeleteOwner(owner))
    {
      rows := map id | id in rows && rows[id].owner != owner :: rows[id];
    }

    /** Compare and set: only the node that still sees the firing it read wins it. */
    method AdvanceSchedule(id: ScheduleId, read: Row, clock: nat) returns (advanced: bool)
      requires Cron.Sized(read.cron) && read.next <= Micros(clock)
      modifies this
      ensures State() == Apply(old(State()), Advance(id, read, clock))
      ensures advanced <==> id in old(rows) && old(rows)[id].next == read.next
      ensures advanced <==> won != old(won)
    {
      var next := Cron.Next(read.cron, clock);
      Cron.NextUnique(read.cron, clock, next, Cron.NextAt(read.cron, clock));
      var to := if next.Some? then FiringAt(next.value) else Micros(CenturyLater(clock));
      if id !in rows || rows[id].next != read.next {
        return false;
      }
      rows := rows[id := rows[id].(next := to)];
      won := won + [Firing(id, read.next, read.kind, read.payload, false)];
      return true;
    }

    /** Other nodes take the steps `ops` and leave `board` stored. */
    method Interleave(ghost ops: seq<Op>, board: Board)
      requires board == Run(State(), ops)
      modifies this
      ensures State() == Run(old(State()), ops)
    {
      rows, won, queue := board.rows, board.won, board.queue;
    }

    /** Enqueue the job of a firing this node has won. */
    method HandOverJob(k: nat, job: Jobs.JobId)
      requires k < |won| && !won[k].handed
      modifies this
      ensures State() == Apply(old(State()), HandOver(k, job))
      ensures rows == old(rows) && won == old(won)[k := old(won)[k].(handed := true)]
      ensures
        var f, key := old(won)[k], old(won)[k].id + "@" + Text.Show(old(won)[k].at);
        f.kind != "" && job !in old(queue).issued
        && (forall d: Jobs.JobId :: d in old(queue).jobs ==> old(queue).jobs[d].kind != f.kind || old(queue).jobs[d].dedupe != key) ==>
          queue.jobs == old(queue).jobs[job := Jobs.Row(f.kind, f.payload, key, Jobs.Pending, f.at, None, 0)]
    {
      var f := won[k];
      won := won[k := f.(handed := true)];
      queue := Jobs.Apply(queue, Jobs.Enqueue(job, f.kind, f.payload, Key(f), f.at));
    }

    /** Advance one scanned row, and enqueue its job only if this node won it. A row whose stored
        expression no longer parses is skipped. */
    method TickRow(d: Due, now: nat, job: Jobs.JobId) returns (advanced: bool)
      requires d.row.next <= Micros(now)
      modifies this
      ensures (State(), advanced) == TickOne(old(State()), d, now, job)
      ensures !Cron.Sized(d.row.cron) ==> !advanced && State() == old(State())
    {
      if !Cron.Sized(d.row.cron) {
        return false;
      }
      var firing := |won|;
      advanced := AdvanceSchedule(d.id, d.row, now);
      if advanced {
        HandOverJob(firing, job);
      }
    }

    /** Try every scanned row. `boards[k]` is what the other nodes have left stored when the k-th row
        is tried. */
    method TickSchedules(ghost b: Board, scan: seq<Due>, now: nat, ghost between: seq<seq<Op>>, boards: seq<Board>,
                         ids: seq<Jobs.JobId>)
      returns (enqueued: nat)
      requires b == State() && |scan| == |between| == |boards| == |ids|
      requires forall k :: 0 <= k < |scan| ==> scan[k].row.next <= Micros(now)
      requires forall k :: 0 <= k < |scan| ==>
                 boards[k] == Run(Ticked(b, scan[..k], now, between, ids).0, between[k])
      modifies this
      ensures (State(), enqueued) == Ticked(b, scan, now, between, ids)
    {
      enqueued := 0;
      for k := 0 to |scan|
        invariant State() == Ticked(b, scan[..k], now, between, ids).0
        invariant enqueued == Ticked(b, scan[..k], now, between, ids).1
      {
        Interleave(between[k], boards[k]);
        var advanced := TickRow(scan[k], now, ids[k]);
        TickedNext(b, scan, now, between, ids, k);
        if advanced {
          enqueued := enqueued + 1;
        }
      }
      assert scan[..|scan|] == scan;
    }

    /** One pass of a node: tick the schedules, then drain the queue, at one clock reading. While it
        drains, the others commit `before[i]` and `during[i]` to the queue around its i-th run. */
    method RunOnce(ghost b: Board, scan: seq<Due>, now: nat, ghost between: seq<seq<Op>>, boards: seq<Board>, ids: seq<Jobs.JobId>,
                   picks: seq<seq<Jobs.JobId>>, succeeds: seq<bool>, before: seq<seq<Jobs.Op>>, during: seq<seq<Jobs.Op>>)
      returns (ran: nat, log: seq<Jobs.JobId>)
      requires b == State() && Jobs.Inv(queue) && |scan| == |between| == |boards| == |ids|
      requires forall k :: 0 <= k < |scan| ==> scan[k].row.next <= Micros(now)
      requires forall k :: 0 <= k < |scan| ==>
                 boards[k] == Run(Ticked(b, scan[..k], now, between, ids).0, between[k])
      requires |picks| == |succeeds| == |before| == |during| == Jobs.MAX_PER_PASS
      requires forall i :: 0 <= i < |picks| ==> |picks[i]| == Jobs.CLAIM_CANDIDATES
      modifies this
      ensures Jobs.Inv(queue)
      ensures ran == |log| <= Jobs.MAX_PER_PASS
      ensures var ticked := Ticked(b, scan, now, between, ids).0;
              && rows == ticked.rows && won == ticked.won
              && DrainedTo(ticked.queue, queue, Micros(now), log, succeeds, before, during)
      ensures ran < Jobs.MAX_PER_PASS ==>
                !Jobs.AnyDue(queue, Micros(now))
                || forall k :: 0 <= k < |picks[ran]| ==> !Jobs.CanTake(queue, picks[ran][k], Micros(now))
      ensures Jobs.NoRepeat(log, before, during)
    {
      var _ := TickSchedules(b, scan, now, between, boards, ids);
      TickKeepsQueue(b, scan, now, between, ids);
      var store := new Jobs.JobStore();
      store.Store(queue);
      ran, log := store.Drain(Micros(now), picks, succeeds, before, during);
      queue := store.State();
    }

    /** Replace the owner's rows wholesale; false when an expression can never fire. */
    method SyncSchedules(list: seq<Wanted>, now: nat) returns (ok: bool)
      requires forall k :: 0 <= k < |list| ==> Cron.Sized(list[k].cron)
      modifies this
      ensures State() == Synced(old(State()), list, now)
      ensures ok <==> Reached(list, now) == |list|
      ensures ok && Distinct(list) ==> AllWant(State(), list, now)
    {
      ghost var before := State();
      if Reached(list, now) == |list| && Distinct(list) {
        SyncWants(before, list, now);
      }
      DeleteSchedulesByOwner(OWNER);
      ghost var b := State();
      for i := 0 to |list|
        invariant State() == Upserted(b, list[..i], now)
        invariant i <= Reached(list, now)
      {
        assert list[..i + 1][..i] == list[..i];
        var w := list[i];
        var done := UpsertSchedule(RowId(w), JOB_KIND, w.payload, w.cron, OWNER, now);
        ReachedAt(list, now, i);
        if !done {
          return false;
        }
      }
      assert list[..|list|] == list;
      return true;
    }
  }

  lemma ReachedAt(list: seq<Wanted>, now: nat, i: nat)
    requires i < |list| && i <= Reached(list, now)
    ensures i < Reached(list, now) <==> Fires(list[i], now)
  {
  }
}
