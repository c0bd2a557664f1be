/**
 The durable job queue of one tenant: leases, retries and dead letters. Every step is one
 transaction; steps of any number of workers, crashed and stale ones included, interleave freely.
 Clock readings are microseconds, as the queue's columns store them.
 */
module Jobs {
  import opened Wrappers

  /** Job ids are numbered in their own order, the second sort key of a claim. */
  type JobId = nat

  datatype Status = Pending | Running | Done

  datatype Row = Row(kind: string, payload: string, dedupe: string, status: Status, runAt: int,
                     lockedUntil: Option<int>, attempts: nat)

  datatype DeadLetter = DeadLetter(job: JobId, kind: string, payload: string, attempts: nat)

  /** `issued` remembers every id an insert has used: ids are never drawn twice. */
  datatype Queue = Queue(jobs: map<JobId, Row>, dead: seq<DeadLetter>, issued: set<JobId>)

  const EMPTY_QUEUE := Queue(map[], [], {})

  const MAX_ATTEMPTS := 3
  const LEASE := 300_000_000
  const RETRY_BASE := 10_000_000
  const RETRY_MAX := 300_000_000

  datatype Op =
    | Enqueue(id: JobId, kind: string, payload: string, dedupe: string, runAt: int)
    | Take(id: JobId, now: int)
    | Complete(id: JobId)
    | Fail(id: JobId, now: int)

  predicate Claimable(r: Row, now: int) {
    && r.runAt <= now && r.status != Done
    && (r.status == Pending || r.lockedUntil.None? || r.lockedUntil.value <= now)
  }

  predicate CanTake(q: Queue, id: JobId, now: int) {
    id in q.jobs && Claimable(q.jobs[id], now)
  }

  function Pow2(n: nat): (p: int)
    ensures p >= 1
  {
    if n == 0 then 1 else 2 * Pow2(n - 1)
  }

  /** The retry delay: 10 s doubled per earlier attempt, capped at 5 minutes. */
  function Backoff(attempts: nat): (d: int)
    ensures 0 < d <= RETRY_MAX
  {
    var d := 10_000_000 * Pow2(if attempts == 0 then 0 else attempts - 1);
    if d > RETRY_MAX then RETRY_MAX else d
  }

  predicate Duplicate(q: Queue, kind: string, dedupe: string, id: JobId) {
    dedupe != "" && id in q.jobs && q.jobs[id].kind == kind && q.jobs[id].dedupe == dedupe
  }

  /** A step that its guards refuse changes nothing. */
  function Apply(q: Queue, op: Op): Queue {
    match op
    case Enqueue(id, kind, payload, dedupe, runAt) =>
      if kind == "" || id in q.issued || exists d: JobId :: d in q.jobs && Duplicate(q, kind, dedupe, d) then q
      else Queue(q.jobs[id := Row(kind, payload, dedupe, Pending, runAt, None, 0)], q.dead, q.issued + {id})
    case Take(id, now) =>
      if !CanTake(q, id, now) then q
      else
        var r := q.jobs[id];
        q.(jobs := q.jobs[id := r.(status := Running, lockedUntil := Some(now + LEASE), attempts := r.attempts + 1)])
    case Complete(id) =>
      if id !in q.jobs then q
      else q.(jobs := q.jobs[id := q.jobs[id].(status := Done, lockedUntil := None)])
    case Fail(id, now) =>
      if id !in q.jobs then q
      else
        var r := q.jobs[id];
        if r.attempts < MAX_ATTEMPTS
        then q.(jobs := q.jobs[id := r.(status := Pending, runAt := now + Backoff(r.attempts), lockedUntil := None)])
        else q.(jobs := q.jobs - {id}, dead := q.dead + [DeadLetter(id, r.kind, r.payload, r.attempts)])
  }

  function Run(q: Queue, ops: seq<Op>): Queue {
    if ops == [] then q else Apply(Run(q, ops[..|ops| - 1]), ops[|ops| - 1])
  }

  // ---- What every step keeps ----

  ghost predicate Filed(q: Queue, id: JobId) {
    exists k :: 0 <= k < |q.dead| && q.dead[k].job == id
  }

  /** Every issued id is in exactly one of the queue and the dead letters, and is filed at most once. */
  ghost predicate Conserved(q: Queue) {
    && (forall id: JobId :: id in q.issued <==> id in q.jobs || Filed(q, id))
    && (forall id: JobId :: id in q.jobs ==> !Filed(q, id))
    && (forall j, k :: 0 <= j < k < |q.dead| ==> q.dead[j].job != q.dead[k].job)
  }

  ghost predicate Leased(q: Queue) {
    forall id :: id in q.jobs ==> (q.jobs[id].status == Running <==> q.jobs[id].lockedUntil.Some?)
  }

  /** The unique index on (kind, dedupe key). */
  ghost predicate Deduplicated(q: Queue) {
    forall a, b :: a in q.jobs && b in q.jobs && q.jobs[a].kind == q.jobs[b].kind && q.jobs[a].dedupe == q.jobs[b].dedupe != ""
      ==> a == b
  }

  /** A dead letter was tried at least MAX_ATTEMPTS times, and a pending job fewer. */
  ghost predicate Tried(q: Queue) {
    && (forall k :: 0 <= k < |q.dead| ==> q.dead[k].attempts >= MAX_ATTEMPTS)
    && (forall id :: id in q.jobs && q.jobs[id].status == Pending ==> q.jobs[id].attempts < MAX_ATTEMPTS)
  }

  ghost predicate Inv(q: Queue) {
    Conserved(q) && Leased(q) && Deduplicated(q) && Tried(q)
  }

  lemma ApplyKeepsConserved(q: Queue, op: Op)
    requires Conserved(q)
    ensures Conserved(Apply(q, op))
  {
    var q' := Apply(q, op);
    if q'.dead != q.dead {
      assert op.Fail? && q'.dead == q.dead + [q'.dead[|q.dead|]];
      forall id: JobId ensures Filed(q', id) <==> Filed(q, id) || id == op.id {
        FiledAppend(q, q', id);
      }
    } else {
      forall id: JobId ensures Filed(q', id) <==> Filed(q, id) {
        if Filed(q, id) {
          var k :| 0 <= k < |q.dead| && q.dead[k].job == id;
          assert q'.dead[k].job == id;
        }
      }
    }
  }

  lemma FiledAppend(q: Queue, q': Queue, id: JobId)
    requires |q'.dead| == |q.dead| + 1 && q'.dead[..|q.dead|] == q.dead
    ensures Filed(q', id) <==> Filed(q, id) || id == q'.dead[|q.dead|].job
  {
    if Filed(q, id) {
      var k :| 0 <= k < |q.dead| && q.dead[k].job == id;
      assert q'.dead[..|q.dead|][k] == q'.dead[k];
    }
    if Filed(q', id) {
      var k :| 0 <= k < |q'.dead| && q'.dead[k].job == id;
      if k < |q.dead| {
        assert q'.dead[..|q.dead|][k] == q'.dead[k];
        assert q.dead[k].job == id;
      }
    }
    assert q'.dead[|q.dead|].job == q'.dead[|q.dead|].job;
  }

  lemma ApplyKeepsRows(q: Queue, op: Op)
    requires Leased(q) && Deduplicated(q) && Tried(q)
    ensures Leased(Apply(q, op)) && Deduplicated(Apply(q, op)) && Tried(Apply(q, op))
  {
    if op.Enqueue? && Apply(q, op) != q {
      forall d | d in q.jobs ensures !Duplicate(q, op.kind, op.dedupe, d) {
      }
    }
  }

  /** Job conservation, deduplication and the lease discipline hold in every reachable state. */
  lemma {:induction false} RunKeepsInv(q: Queue, ops: seq<Op>)
    requires Inv(q)
    ensures Inv(Run(q, ops))
  {
    if ops != [] {
      RunKeepsInv(q, ops[..|ops| - 1]);
      ApplyKeepsConserved(Run(q, ops[..|ops| - 1]), ops[|ops| - 1]);
      ApplyKeepsRows(Run(q, ops[..|ops| - 1]), ops[|ops| - 1]);
    }
  }

  lemma EmptyInv()
    ensures Inv(EMPTY_QUEUE)
  {
  }

  lemma {:induction false} RunConcat(q: Queue, a: seq<Op>, b: seq<Op>)
    ensures Run(q, a + b) == Run(Run(q, a), b)
  {
    if b == [] {
      assert a + b == a;
    } else {
      assert (a + b)[..|a + b| - 1] == a + b[..|b| - 1];
      RunConcat(q, a, b[..|b| - 1]);
    }
  }

  /** Nothing issued is ever lost, and a dead letter is never withdrawn. */
  lemma {:induction false} RunKeepsIssued(q: Queue, ops: seq<Op>)
    ensures q.issued <= Run(q, ops).issued && q.dead <= Run(q, ops).dead
  {
    if ops != [] {
      RunKeepsIssued(q, ops[..|ops| - 1]);
    }
  }

  // ---- Lease exclusivity ----

  predicate NoFailOf(ops: seq<Op>, id: JobId) {
    forall k :: 0 <= k < |ops| && ops[k].Fail? ==> ops[k].id != id
  }

  /** The job is gone, done, or held at least until `until`. */
  ghost predicate HeldUntil(q: Queue, id: JobId, until: int) {
    && id in q.issued
    && (id in q.jobs ==> q.jobs[id].status == Done ||
                         (q.jobs[id].status == Running && q.jobs[id].lockedUntil.Some? && until <= q.jobs[id].lockedUntil.value))
  }

  lemma {:induction false} HeldStays(q: Queue, ops: seq<Op>, id: JobId, until: int)
    requires HeldUntil(q, id, until) && NoFailOf(ops, id)
    ensures HeldUntil(Run(q, ops), id, until)
  {
    if ops != [] {
      HeldStays(q, ops[..|ops| - 1], id, until);
    }
  }

  /** Two successful claims of one job, with no Fail of it in between, are a whole lease apart,
      whatever every other worker does and whatever their clocks say. */
  lemma LeaseExclusive(q: Queue, id: JobId, first: int, ops: seq<Op>, second: int)
    requires Inv(q) && CanTake(q, id, first) && NoFailOf(ops, id)
    requires CanTake(Run(Apply(q, Take(id, first)), ops), id, second)
    ensures second >= first + LEASE
  {
    HeldStays(Apply(q, Take(id, first)), ops, id, first + LEASE);
  }

  /** A completed job is never claimed again unless somebody fails it. */
  lemma CompletedStaysDone(q: Queue, id: JobId, ops: seq<Op>, now: int)
    requires Inv(q) && id in q.jobs && NoFailOf(ops, id)
    ensures !CanTake(Run(Apply(q, Complete(id)), ops), id, now)
  {
    if CanTake(Run(Apply(q, Complete(id)), ops), id, now) {
      HeldStays(Apply(q, Complete(id)), ops, id, now + 1);
    }
  }

  /** A recorded failure puts a job back exactly below the attempt limit, whatever state the job was in. */
  lemma FailRevivesExactly(q: Queue, id: JobId, now: int)
    requires Inv(q) && id in q.jobs
    ensures (exists t: int :: CanTake(Apply(q, Fail(id, now)), id, t)) <==> q.jobs[id].attempts < MAX_ATTEMPTS
  {
    if q.jobs[id].attempts < MAX_ATTEMPTS {
      assert CanTake(Apply(q, Fail(id, now)), id, now + Backoff(q.jobs[id].attempts));
    }
  }

  lemma {:induction false} DoneStays(q: Queue, ops: seq<Op>, id: JobId)
    requires id in q.issued && id in q.jobs && q.jobs[id].status == Done && q.jobs[id].lockedUntil.None? && NoFailOf(ops, id)
    ensures id in Run(q, ops).jobs && Run(q, ops).jobs[id] == q.jobs[id]
  {
    if ops != [] {
      DoneStays(q, ops[..|ops| - 1], id);
      RunKeepsIssued(q, ops[..|ops| - 1]);
    }
  }

  lemma {:induction false} GoneStays(q: Queue, ops: seq<Op>, id: JobId)
    requires id in q.issued && id !in q.jobs
    ensures id !in Run(q, ops).jobs
  {
    if ops != [] {
      GoneStays(q, ops[..|ops| - 1], id);
      RunKeepsIssued(q, ops[..|ops| - 1]);
    }
  }

  lemma {:induction false} FirstFail(ops: seq<Op>, id: JobId) returns (k: nat)
    requires !NoFailOf(ops, id)
    ensures k < |ops| && ops[k].Fail? && ops[k].id == id && NoFailOf(ops[..k], id)
  {
    var init := ops[..|ops| - 1];
    if NoFailOf(init, id) {
      k := |init|;
    } else {
      k := FirstFail(init, id);
      assert init[..k] == ops[..k];
    }
  }

  ghost predicate ClaimableAt(q: Queue, ops: seq<Op>, id: JobId, k: nat, t: int) {
    k <= |ops| && CanTake(Run(q, ops[..k]), id, t)
  }

  /** A completed job can be claimed again, at some point of a run, if and only if somebody fails it and
      it had been tried fewer times than the limit when it was completed. */
  lemma CompletedRevivedExactly(q: Queue, id: JobId, ops: seq<Op>)
    requires Inv(q) && id in q.jobs
    ensures (exists k: nat, t: int :: ClaimableAt(Apply(q, Complete(id)), ops, id, k, t))
            <==> !NoFailOf(ops, id) && q.jobs[id].attempts < MAX_ATTEMPTS
  {
    var q1 := Apply(q, Complete(id));
    RunKeepsInv(q, [Complete(id)]);
    assert [Complete(id)][..0] == [] && Run(q, [Complete(id)]) == q1;
    if NoFailOf(ops, id) {
      forall k: nat, t: int ensures !ClaimableAt(q1, ops, id, k, t) {
        if k <= |ops| { CompletedStaysDone(q, id, ops[..k], t); }
      }
    } else {
      var k := FirstFail(ops, id);
      DoneStays(q1, ops[..k], id);
      RunKeepsInv(q1, ops[..k]);
      var before := Run(q1, ops[..k]);
      FailRevivesExactly(before, id, ops[k].now);
      assert ops[..k + 1][..k] == ops[..k] && Run(q1, ops[..k + 1]) == Apply(before, ops[k]);
      if q.jobs[id].attempts < MAX_ATTEMPTS {
        var t: int :| CanTake(Apply(before, Fail(id, ops[k].now)), id, t);
        assert ClaimableAt(q1, ops, id, k + 1, t);
      } else {
        forall j: nat, t: int ensures !ClaimableAt(q1, ops, id, j, t) {
          NeverAgain(q1, ops, id, k, j, t);
        }
      }
    }
  }

  lemma NeverAgain(q: Queue, ops: seq<Op>, id: JobId, k: nat, j: nat, t: int)
    requires id in q.issued && id in q.jobs && q.jobs[id].status == Done && q.jobs[id].lockedUntil.None?
    requires k < |ops| && NoFailOf(ops[..k], id) && id !in Run(q, ops[..k + 1]).jobs
    ensures !ClaimableAt(q, ops, id, j, t)
  {
    if j <= k {
      assert ops[..j] == ops[..k][..j];
      DoneStays(q, ops[..j], id);
    } else if j <= |ops| {
      assert ops[..j] == ops[..k + 1] + ops[k + 1..j];
      RunConcat(q, ops[..k + 1], ops[k + 1..j]);
      RunKeepsIssued(q, ops[..k + 1]);
      GoneStays(Run(q, ops[..k + 1]), ops[k + 1..j], id);
    }
  }

  /** Fail is not guarded by the lease: a worker that lost its lease revives a job another one completed. */
  lemma StaleFailRevives(id: JobId)
    ensures
      var ops := [Enqueue(id, "k", "", "", 0), Take(id, 0), Take(id, LEASE), Complete(id)];
      && id in Run(EMPTY_QUEUE, ops).jobs && Run(EMPTY_QUEUE, ops).jobs[id].status == Done
      && CanTake(Run(EMPTY_QUEUE, ops + [Fail(id, LEASE)]), id, LEASE + 2 * RETRY_BASE)
  {
    var q1 := Apply(EMPTY_QUEUE, Enqueue(id, "k", "", "", 0));
    var q2 := Apply(q1, Take(id, 0));
    var q3 := Apply(q2, Take(id, LEASE));
    var q4 := Apply(q3, Complete(id));
    Runs4(EMPTY_QUEUE, Enqueue(id, "k", "", "", 0), Take(id, 0), Take(id, LEASE), Complete(id));
    var ops := [Enqueue(id, "k", "", "", 0), Take(id, 0), Take(id, LEASE), Complete(id)];
    RunConcat(EMPTY_QUEUE, ops, [Fail(id, LEASE)]);
    assert [Fail(id, LEASE)][..0] == [];
    assert Run(q4, [Fail(id, LEASE)]) == Apply(q4, Fail(id, LEASE));
    assert Pow2(1) == 2 * Pow2(0);
  }

  lemma Runs4(q: Queue, a: Op, b: Op, c: Op, d: Op)
    ensures Run(q, [a, b, c, d]) == Apply(Apply(Apply(Apply(q, a), b), c), d)
  {
    assert [a, b, c, d][..3] == [a, b, c] && [a, b, c][..2] == [a, b] && [a, b][..1] == [a] && [a][..0] == [];
    assert Run(q, [a]) == Apply(q, a);
    assert Run(q, [a, b]) == Apply(Apply(q, a), b);
    assert Run(q, [a, b, c]) == Apply(Apply(Apply(q, a), b), c);
  }

  /** No job, queued or dead, has been tried more often than the limit. */
  ghost predicate Limited(q: Queue) {
    && (forall id :: id in q.jobs ==> q.jobs[id].attempts <= MAX_ATTEMPTS)
    && (forall k :: 0 <= k < |q.dead| ==> q.dead[k].attempts == MAX_ATTEMPTS)
  }

  /** The step claims a job whose last allowed attempt has already been used up. */
  predicate Overdraws(q: Queue, op: Op) {
    op.Take? && CanTake(q, op.id, op.now) && q.jobs[op.id].attempts >= MAX_ATTEMPTS
  }

  lemma StepLimits(q: Queue, op: Op)
    requires Inv(q)
    ensures Limited(Apply(q, op)) <==> Limited(q) && !Overdraws(q, op)
  {
    var q' := Apply(q, op);
    assert Overdraws(q, op) ==> op.id in q'.jobs && q'.jobs[op.id].attempts > MAX_ATTEMPTS;
    if Limited(q') {
      forall k | 0 <= k < |q.dead| ensures q.dead[k].attempts == MAX_ATTEMPTS {
        assert q'.dead[k] == q.dead[k];
      }
      forall id | id in q.jobs ensures q.jobs[id].attempts <= MAX_ATTEMPTS {
        if id !in q'.jobs { assert q'.dead[|q.dead|].attempts == q.jobs[id].attempts; }
      }
    }
  }

  ghost predicate OverdrawsAt(q: Queue, ops: seq<Op>, k: nat) {
    k < |ops| && Overdraws(Run(q, ops[..k]), ops[k])
  }

  /** Over every run, the attempt limit bounds every job and every dead letter if and only if no claim
      takes a job whose last allowed attempt never reported back. */
  lemma {:induction false} AttemptLimitExactly(ops: seq<Op>)
    ensures Limited(Run(EMPTY_QUEUE, ops)) <==> forall k: nat :: !OverdrawsAt(EMPTY_QUEUE, ops, k)
  {
    if ops != [] {
      var init, op := ops[..|ops| - 1], ops[|ops| - 1];
      AttemptLimitExactly(init);
      EmptyInv();
      RunKeepsInv(EMPTY_QUEUE, init);
      StepLimits(Run(EMPTY_QUEUE, init), op);
      forall k: nat | k < |init| ensures OverdrawsAt(EMPTY_QUEUE, ops, k) <==> OverdrawsAt(EMPTY_QUEUE, init, k) {
        assert init[..k] == ops[..k];
      }
      assert ops[..|init|] == init;
      assert OverdrawsAt(EMPTY_QUEUE, ops, |init|) <==> Overdraws(Run(EMPTY_QUEUE, init), op);
      forall k: nat | OverdrawsAt(EMPTY_QUEUE, init, k) ensures OverdrawsAt(EMPTY_QUEUE, ops, k) {
        assert k < |init|;
      }
    }
  }

  /** So a run whose claims all find their job pending, no lease having expired, stays within the limit. */
  lemma PendingClaimsLimited(ops: seq<Op>)
    requires forall k :: 0 <= k < |ops| && ops[k].Take? && CanTake(Run(EMPTY_QUEUE, ops[..k]), ops[k].id, ops[k].now) ==>
               Run(EMPTY_QUEUE, ops[..k]).jobs[ops[k].id].status == Pending
    ensures Limited(Run(EMPTY_QUEUE, ops))
  {
    forall k: nat ensures !OverdrawsAt(EMPTY_QUEUE, ops, k) {
      if k < |ops| {
        EmptyInv();
        RunKeepsInv(EMPTY_QUEUE, ops[..k]);
      }
    }
    AttemptLimitExactly(ops);
  }

  /** MAX_ATTEMPTS bounds failures that are recorded, not claims: a worker that dies every time, so
      that only leases expire, has the job claimed any number of times and never files it. */
  lemma {:induction false} CrashLoop(id: JobId, n: nat) returns (ops: seq<Op>)
    ensures
      var q := Run(EMPTY_QUEUE, ops);
      && id in q.jobs && q.jobs[id].attempts == n && q.dead == []
      && CanTake(q, id, n * 300_000_000)
  {
    if n == 0 {
      ops := [Enqueue(id, "k", "", "", 0)];
      assert ops[..0] == [];
    } else {
      var before := CrashLoop(id, n - 1);
      ops := before + [Take(id, (n - 1) * 300_000_000)];
      assert ops[..|ops| - 1] == before;
    }
  }

  // ---- Claiming ----

  datatype Job = Job(id: JobId, kind: string, payload: string, attempts: nat, runAt: int)

  predicate Before(q: Queue, a: JobId, b: JobId) {
    && a in q.jobs && b in q.jobs
    && (q.jobs[a].runAt < q.jobs[b].runAt || (q.jobs[a].runAt == q.jobs[b].runAt && a <= b))
  }

  /** The first claimable job by run time, then id. */
  predicate IsHead(q: Queue, now: int, id: JobId) {
    && CanTake(q, id, now)
    && forall other: JobId | other in q.jobs && CanTake(q, other, now) :: Before(q, id, other)
  }

  lemma {:induction false} HeadAmong(q: Queue, now: int, ids: set<JobId>) returns (head: JobId)
    requires ids != {} && forall id: JobId :: id in ids ==> CanTake(q, id, now)
    ensures head in ids && forall id: JobId :: id in ids ==> Before(q, head, id)
    decreases ids
  {
    var some :| some in ids;
    var rest := ids - {some};
    if rest == {} {
      assert ids == {some};
      head := some;
    } else {
      var r := HeadAmong(q, now, rest);
      head := if Before(q, some, r) then some else r;
      forall id: JobId | id in ids ensures Before(q, head, id) {
        assert id == some || id in rest;
      }
    }
  }

  lemma HeadExists(q: Queue, now: int, id: JobId)
    requires CanTake(q, id, now)
    ensures exists head: JobId | head in q.jobs :: IsHead(q, now, head)
  {
    var ids := set j: JobId | j in q.jobs && CanTake(q, j, now);
    assert id in ids;
    var head := HeadAmong(q, now, ids);
    assert IsHead(q, now, head);
  }

  predicate AnyDue(q: Queue, now: int) {
    exists id: JobId | id in q.jobs :: CanTake(q, id, now)
  }

  function JobOf(q: Queue, id: JobId): Job
    requires id in q.jobs
  {
    Job(id, q.jobs[id].kind, q.jobs[id].payload, q.jobs[id].attempts, q.jobs[id].runAt)
  }

  /** `job` is running under the lease this claim took out in state `q`. */
  predicate HoldsJob(q: Queue, job: Job, now: int) {
    && job.id in q.jobs && JobOf(q, job.id) == job
    && q.jobs[job.id].status == Running && q.jobs[job.id].lockedUntil == Some(now + LEASE)
  }

  /** The head is the due job with the least run time, ties by id. */
  lemma HeadIsEarliest(q: Queue, now: int, head: JobId, other: JobId)
    requires Leased(q) && IsHead(q, now, head) && other in q.jobs && Free(q.jobs[other], now)
    ensures head in q.jobs && Free(q.jobs[head], now)
    ensures q.jobs[head].runAt < q.jobs[other].runAt || (q.jobs[head].runAt == q.jobs[other].runAt && head <= other)
  {
  }

  /** The job as enqueued, field by field, one attempt further. */
  predicate AsStored(q: Queue, job: Job) {
    && job.id in q.jobs
    && job.kind == q.jobs[job.id].kind && job.payload == q.jobs[job.id].payload && job.runAt == q.jobs[job.id].runAt
    && job.attempts == q.jobs[job.id].attempts + 1
  }

  const CLAIM_CANDIDATES := 10

  /**
   One attempt of the claim transaction. `picks[i]` is the row the i-th statement's subquery chose;
   its snapshot may be stale, so the update re-checks the row, and a lost race tries again while
   anything is due. `claimed` is the variable captured from outside: an aborted attempt may have
   left anything in it.
   */
  method ClaimAttempt(q: Queue, now: int, picks: seq<JobId>, captured: Option<Job>)
    returns (q': Queue, claimed: Option<Job>)
    requires |picks| == CLAIM_CANDIDATES
    ensures claimed.None? ==> q' == q
    ensures claimed.Some? ==>
              && claimed.value.id in picks && CanTake(q, claimed.value.id, now)
              && q' == Apply(q, Take(claimed.value.id, now)) && HoldsJob(q', claimed.value, now)
              && AsStored(q, claimed.value)
    ensures claimed.None? && AnyDue(q, now) ==> forall k :: 0 <= k < |picks| ==> !CanTake(q, picks[k], now)
    ensures CanTake(q, picks[0], now) ==> claimed.Some? && claimed.value.id == picks[0]
  {
    claimed := None;
    var attempt := 0;
    while attempt < CLAIM_CANDIDATES
      invariant 0 <= attempt <= CLAIM_CANDIDATES
      invariant forall k :: 0 <= k < attempt ==> !CanTake(q, picks[k], now)
    {
      var id := picks[attempt];
      if CanTake(q, id, now) {
        q' := Apply(q, Take(id, now));
        return q', Some(JobOf(q', id));
      }
      if !AnyDue(q, now) {
        return q, None;
      }
      attempt := attempt + 1;
    }
    return q, None;
  }

  /** The attempt as it stood without the reset of `claimed`. */
  function UnresetAttempt(q: Queue, now: int, pick: JobId, captured: Option<Job>): (r: (Queue, Option<Job>)) {
    if CanTake(q, pick, now)
    then (Apply(q, Take(pick, now)), Some(JobOf(Apply(q, Take(pick, now)), pick)))
    else (q, captured)
  }

  /** Without the reset, an attempt that claims and fails to commit hands out a job that another
      worker took meanwhile: the committed attempt changed nothing, yet a job is returned. */
  lemma WithoutResetDoubleDelivers(q: Queue, id: JobId, now: int)
    requires Inv(q) && CanTake(q, id, now)
    ensures
      var aborted := UnresetAttempt(q, now, id, None).1;
      var taken := Apply(q, Take(id, now));
      var committed := UnresetAttempt(taken, now, id, aborted);
      committed.0 == taken && committed.1.Some? && committed.1.value.id == id && !CanTake(taken, id, now)
  {
  }

  // ---- The stored queue ----

  lemma StepKeepsInv(q: Queue, op: Op)
    requires Inv(q)
    ensures Inv(Apply(q, op))
  {
    ApplyKeepsConserved(q, op);
    ApplyKeepsRows(q, op);
  }

  /** Due, and waiting for its first or next run or held under a lease that is over. */
  predicate Free(r: Row, now: int) {
    r.runAt <= now && (r.status == Pending || (r.status == Running && r.lockedUntil.Some? && r.lockedUntil.value <= now))
  }

  lemma FreeExactly(q: Queue, id: JobId, now: int)
    requires Leased(q)
    ensures CanTake(q, id, now) <==> id in q.jobs && Free(q.jobs[id], now)
  {
  }

  class JobStore {
    var jobs: map<JobId, Row>
    var dead: seq<DeadLetter>
    var issued: set<JobId>

    function State(): Queue
      reads this
    {
      Queue(jobs, dead, issued)
    }

    constructor ()
      ensures State() == EMPTY_QUEUE && Inv(State())
    {
      jobs, dead, issued := map[], [], {};
      new;
      EmptyInv();
    }

    method Store(q: Queue)
      modifies this
      ensures State() == q
    {
      jobs, dead, issued := q.jobs, q.dead, q.issued;
    }

    /** A new job under a fresh id, or the queued one that has the same kind and key. */
    method Add(fresh_: JobId, kind: string, payload: string, dedupe: string, runAt: int) returns (r: Option<JobId>)
      requires Inv(State()) && fresh_ !in issued
      modifies this
      ensures Inv(State()) && State() == Apply(old(State()), Enqueue(fresh_, kind, payload, dedupe, runAt))
      ensures r.None? <==> kind == ""
      ensures r.Some? ==> r.value in jobs && jobs[r.value].kind == kind && jobs[r.value].dedupe == dedupe
      ensures r.Some? ==> (r.value in old(jobs) || r.value == fresh_)
      ensures r.Some? && r.value != fresh_ ==> State() == old(State())
      ensures r == Some(fresh_) <==>
                kind != "" && (dedupe == "" || forall d: JobId :: d in old(jobs) ==> old(jobs)[d].kind != kind || old(jobs)[d].dedupe != dedupe)
      ensures r == Some(fresh_) ==> jobs == old(jobs)[fresh_ := Row(kind, payload, dedupe, Pending, runAt, None, 0)]
    {
      ghost var before := State();
      ghost var op := Enqueue(fresh_, kind, payload, dedupe, runAt);
      ApplyKeepsConserved(before, op);
      ApplyKeepsRows(before, op);
      if kind == "" {
        return None;
      }
      if d: JobId :| d in jobs && Duplicate(State(), kind, dedupe, d) {
        return Some(d);
      }
      jobs := jobs[fresh_ := Row(kind, payload, dedupe, Pending, runAt, None, 0)];
      issued := issued + {fresh_};
      return Some(fresh_);
    }

    /**
     Claim the next due job. `aborted` are the database states seen by attempts of the callback that
     did not commit; only the last attempt runs on the stored queue, where every subquery sees `picks`.
     */
    method Claim(now: int, aborted: seq<Queue>, picks: seq<JobId>) returns (claimed: Option<Job>)
      requires Inv(State()) && |picks| == CLAIM_CANDIDATES
      modifies this
      ensures Inv(State())
      ensures claimed.None? ==> State() == old(State())
      ensures claimed.Some? ==>
                && CanTake(old(State()), claimed.value.id, now) && HoldsJob(State(), claimed.value, now)
                && AsStored(old(State()), claimed.value)
                && State() == Apply(old(State()), Take(claimed.value.id, now))
      ensures claimed.Some? ==>
                var was := old(jobs)[claimed.value.id];
                && Free(was, now) && dead == old(dead) && issued == old(issued)
                && jobs == old(jobs)[claimed.value.id := Row(was.kind, was.payload, was.dedupe, Running, was.runAt, Some(now + LEASE), was.attempts + 1)]
      ensures claimed.None? && (exists id: JobId :: id in jobs && Free(jobs[id], now)) ==>
                forall k :: 0 <= k < |picks| ==> picks[k] !in jobs || !Free(jobs[picks[k]], now)
      ensures IsHead(old(State()), now, picks[0]) ==> claimed.Some? && claimed.value.id == picks[0]
      ensures claimed.None? && AnyDue(old(State()), now) ==>
                forall k :: 0 <= k < |picks| ==> !CanTake(old(State()), picks[k], now)
    {
      claimed := None;
      for i := 0 to |aborted|
        invariant State() == old(State())
      {
        var _, captured := ClaimAttempt(aborted[i], now, picks, claimed);
        claimed := captured;
      }
      ghost var before := State();
      forall id: JobId ensures CanTake(before, id, now) <==> id in jobs && Free(jobs[id], now) { FreeExactly(before, id, now); }
      var q, captured := ClaimAttempt(State(), now, picks, claimed);
      claimed := captured;
      if claimed.Some? {
        ApplyKeepsConserved(before, Take(claimed.value.id, now));
        ApplyKeepsRows(before, Take(claimed.value.id, now));
      }
      Store(q);
    }

    method Finish(id: JobId)
      requires Inv(State())
      modifies this
      ensures Inv(State()) && State() == Apply(old(State()), Complete(id))
    {
      ApplyKeepsConserved(State(), Complete(id));
      ApplyKeepsRows(State(), Complete(id));
      if id in jobs {
        jobs := jobs[id := jobs[id].(status := Done, lockedUntil := None)];
      }
    }

    /** Record a failed attempt; false when the job no longer exists. */
    method FailJob(id: JobId, now: int) returns (found: bool)
      requires Inv(State())
      modifies this
      ensures Inv(State()) && State() == Apply(old(State()), Fail(id, now))
      ensures found == (id in old(jobs))
    {
      StepKeepsInv(State(), Fail(id, now));
      if id !in jobs {
        return false;
      }
      var r := jobs[id];
      if r.attempts < MAX_ATTEMPTS {
        var delay := BackoffLoop(r.attempts);
        jobs := jobs[id := r.(status := Pending, runAt := now + delay, lockedUntil := None)];
      } else {
        dead := dead + [DeadLetter(id, r.kind, r.payload, r.attempts)];
        jobs := jobs - {id};
      }
      return true;
    }

    /** Whatever other workers and producers commit in between. */
    method Interleave(ops: seq<Op>)
      requires Inv(State())
      modifies this
      ensures Inv(State()) && State() == Run(old(State()), ops)
    {
      RunKeepsInv(State(), ops);
      var q := Run(State(), ops);
      Store(q);
    }

    /**
     Claim one job, run its handler and record the outcome. Other workers commit `between` before the
     claim and `during` while the handler runs; `ok` is what the handler returned, false also when it
     panicked or none is registered for the kind.
     */
    method RunNext(now: int, picks: seq<JobId>, ok: bool, between: seq<Op>, during: seq<Op>)
      returns (ran: Option<JobId>)
      requires Inv(State()) && |picks| == CLAIM_CANDIDATES
      modifies this
      ensures Inv(State())
      ensures ran.None? ==> State() == Run(old(State()), between)
      ensures ran.None? ==> !AnyDue(State(), now) || forall k :: 0 <= k < |picks| ==> !CanTake(State(), picks[k], now)
      ensures ran.Some? ==>
                && CanTake(Run(old(State()), between), ran.value, now)
                && State() == Recorded(Run(Apply(Run(old(State()), between), Take(ran.value, now)), during), ran.value, ok, now)
    {
      Interleave(between);
      var job := Claim(now, [], picks);
      if job.None? {
        return None;
      }
      Interleave(during);
      if ok {
        Finish(job.value.id);
      } else {
        var _ := FailJob(job.value.id, now);
      }
      return Some(job.value.id);
    }

    /**
     One drain of the queue at one clock reading: at most MAX_PER_PASS jobs, `log` lists them in
     order. `between[i]` and `during[i]` are what others commit around the i-th run.
     */
    method Drain(now: int, picks: seq<seq<JobId>>, succeeds: seq<bool>, between: seq<seq<Op>>, during: seq<seq<Op>>)
      returns (ran: nat, log: seq<JobId>)
      requires Inv(State())
      requires |picks| == |succeeds| == |between| == |during| == MAX_PER_PASS
      requires forall i :: 0 <= i < |picks| ==> |picks[i]| == CLAIM_CANDIDATES
      modifies this
      ensures Inv(State())
      ensures ran == |log| <= MAX_PER_PASS
      ensures IsPass(old(State()), now, log, succeeds, between, during)
      ensures var q := Passed(old(State()), now, log, succeeds, between, during);
              State() == if ran < MAX_PER_PASS then Run(q, between[ran]) else q
      ensures ran < MAX_PER_PASS ==>
                !AnyDue(State(), now) || forall k :: 0 <= k < |picks[ran]| ==> !CanTake(State(), picks[ran][k], now)
      ensures NoRepeat(log, between, during)
    {
      ghost var start := State();
      ran, log := 0, [];
      while ran < MAX_PER_PASS
        invariant ran == |log| <= MAX_PER_PASS
        invariant PassInv(start, State(), now, log, succeeds, between, during)
      {
        ghost var q := State();
        var id := RunNext(now, picks[ran], succeeds[ran], between[ran], during[ran]);
        if id.None? {
          return ran, log;
        }
        PassGoesOn(start, q, now, log, id.value, succeeds, between, during);
        log := log + [id.value];
        ran := ran + 1;
      }
    }
  }

  const MAX_PER_PASS := 100

  ghost predicate FailedByOthers(between: seq<seq<Op>>, during: seq<seq<Op>>, id: JobId) {
    exists i :: 0 <= i < |between| && i < |during| && !(NoFailOf(between[i], id) && NoFailOf(during[i], id))
  }

  /** Only a job that another worker failed is run twice. */
  ghost predicate NoRepeat(log: seq<JobId>, between: seq<seq<Op>>, during: seq<seq<Op>>) {
    forall a, b :: 0 <= a < b < |log| && log[a] == log[b] ==> FailedByOthers(between, during, log[a])
  }

  ghost predicate AllRest(q: Queue, log: seq<JobId>, between: seq<seq<Op>>, during: seq<seq<Op>>, now: int) {
    forall a :: 0 <= a < |log| && !FailedByOthers(between, during, log[a]) ==> Resting(q, log[a], now)
  }

  /** The job cannot be claimed at `now`. */
  ghost predicate Resting(q: Queue, id: JobId, now: int) {
    id in q.issued && !CanTake(q, id, now)
  }

  lemma {:induction false} RestStays(q: Queue, ops: seq<Op>, id: JobId, now: int)
    requires Inv(q) && Resting(q, id, now) && NoFailOf(ops, id)
    ensures Resting(Run(q, ops), id, now)
  {
    if ops != [] {
      var init := ops[..|ops| - 1];
      RestStays(q, init, id, now);
      RunKeepsInv(q, init);
    }
  }

  function Recorded(q: Queue, id: JobId, ok: bool, now: int): Queue {
    if ok then Apply(q, Complete(id)) else Apply(q, Fail(id, now))
  }

  /** The queue after running the jobs of `log` one by one. */
  function Passed(q: Queue, now: int, log: seq<JobId>, succeeds: seq<bool>, between: seq<seq<Op>>, during: seq<seq<Op>>): Queue
    requires |log| <= |succeeds| == |between| == |during|
  {
    if log == [] then q
    else
      var k := |log| - 1;
      var claimed := Apply(Run(Passed(q, now, log[..k], succeeds, between, during), between[k]), Take(log[k], now));
      Recorded(Run(claimed, during[k]), log[k], succeeds[k], now)
  }

  /** Each job of `log` was claimable when its turn came. */
  predicate IsPass(q: Queue, now: int, log: seq<JobId>, succeeds: seq<bool>, between: seq<seq<Op>>, during: seq<seq<Op>>)
    requires |log| <= |succeeds| == |between| == |during|
  {
    log == [] ||
    var k := |log| - 1;
    && IsPass(q, now, log[..k], succeeds, between, during)
    && CanTake(Run(Passed(q, now, log[..k], succeeds, between, during), between[k]), log[k], now)
  }

  /** A job that cannot be claimed at `now`, or was just claimed at `now`, cannot be claimed at `now`
      after the run has been recorded, unless somebody else fails it. */
  lemma RestsThroughRun(q: Queue, id: JobId, ok: bool, between: seq<Op>, during: seq<Op>, other: JobId, now: int)
    requires Inv(q) && NoFailOf(between, other) && NoFailOf(during, other)
    requires CanTake(Run(q, between), id, now) && (Resting(q, other, now) || other == id)
    ensures Resting(q, other, now) ==> other != id
    ensures Resting(Recorded(Run(Apply(Run(q, between), Take(id, now)), during), id, ok, now), other, now)
  {
    var q1 := Run(q, between);
    RunKeepsInv(q, between);
    if Resting(q, other, now) {
      RestStays(q, between, other, now);
    }
    var q2 := Apply(q1, Take(id, now));
    RunKeepsInv(q1, [Take(id, now)]);
    assert [Take(id, now)][..0] == [];
    assert Run(q1, [Take(id, now)]) == q2;
    RestStays(q2, during, other, now);
    RecordRests(Run(q2, during), id, other, now);
  }

  lemma RunExtends(q: Queue, log: seq<JobId>, id: JobId, ok: bool, between: seq<seq<Op>>, during: seq<seq<Op>>, now: int)
    requires Inv(q) && |log| < |between| == |during|
    requires NoRepeat(log, between, during) && AllRest(q, log, between, during, now)
    requires CanTake(Run(q, between[|log|]), id, now)
    ensures NoRepeat(log + [id], between, during)
    ensures AllRest(Recorded(Run(Apply(Run(q, between[|log|]), Take(id, now)), during[|log|]), id, ok, now),
                    log + [id], between, during, now)
  {
    var longer := log + [id];
    var q' := Recorded(Run(Apply(Run(q, between[|log|]), Take(id, now)), during[|log|]), id, ok, now);
    forall a | 0 <= a < |longer| && !FailedByOthers(between, during, longer[a])
      ensures Resting(q', longer[a], now) && (a < |log| ==> longer[a] != id)
    {
      RestsThroughRun(q, id, ok, between[|log|], during[|log|], longer[a], now);
    }
  }

  ghost predicate PassInv(start: Queue, q: Queue, now: int, log: seq<JobId>, succeeds: seq<bool>,
                          between: seq<seq<Op>>, during: seq<seq<Op>>)
    requires |log| <= |succeeds| == |between| == |during|
  {
    && Inv(q)
    && IsPass(start, now, log, succeeds, between, during)
    && q == Passed(start, now, log, succeeds, between, during)
    && NoRepeat(log, between, during) && AllRest(q, log, between, during, now)
  }

  lemma PassGoesOn(start: Queue, q: Queue, now: int, log: seq<JobId>, id: JobId, succeeds: seq<bool>,
                   between: seq<seq<Op>>, during: seq<seq<Op>>)
    requires |log| < |succeeds| == |between| == |during|
    requires PassInv(start, q, now, log, succeeds, between, during)
    requires CanTake(Run(q, between[|log|]), id, now)
    requires Inv(Recorded(Run(Apply(Run(q, between[|log|]), Take(id, now)), during[|log|]), id, succeeds[|log|], now))
    ensures PassInv(start, Recorded(Run(Apply(Run(q, between[|log|]), Take(id, now)), during[|log|]), id, succeeds[|log|], now),
                    now, log + [id], succeeds, between, during)
  {
    RunExtends(q, log, id, succeeds[|log|], between, during, now);
    assert (log + [id])[..|log|] == log;
  }

  /** Recording this worker's own outcome never makes a job claimable at the same clock. */
  lemma RecordRests(q: Queue, id: JobId, other: JobId, now: int)
    requires Resting(q, other, now)
    ensures Resting(Apply(q, Complete(id)), other, now) && Resting(Apply(q, Fail(id, now)), other, now)
  {
  }

  /** The doubling loop computes the capped power. */
  method BackoffLoop(attempts: nat) returns (d: int)
    ensures d == Backoff(attempts)
  {
    d := RETRY_BASE;
    var i := 1;
    while i < attempts
      invariant 1 <= i && (if attempts == 0 then i == 1 else i <= attempts)
      invariant d == 10_000_000 * Pow2(i - 1) && d < RETRY_MAX
    {
      d := d * 2;
      if d >= RETRY_MAX {
        Pow2Monotone(i, attempts - 1);
        return RETRY_MAX;
      }
      i := i + 1;
    }
  }

  lemma {:induction false} Pow2Monotone(a: nat, b: nat)
    requires a <= b
    ensures Pow2(a) <= Pow2(b)
  {
    if a < b { Pow2Monotone(a, b - 1); }
  }
}
