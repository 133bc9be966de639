/**
 The background runner (`auth/background.go`): a token bucket admits, a bounded
 queue holds, a fixed set of workers runs. Time is in seconds, as reals.
 */
module Background {
  import opened Options

  const WORKERS: nat := 16
  const BURST: real := 32.0
  const QUEUE: nat := 64
  /** `backgroundWorstCase`: the task deadline of 30 seconds and three tail steps of 5. */
  const WORST_CASE: real := 45.0
  /** What the workers finish in the worst case, per second. */
  const RATE: real := 16.0 / 45.0
  const CLOSED_RETRY_AFTER: real := 5.0

  type Task = nat

  // The admission bucket

  datatype Bucket = Bucket(tokens: real, last: real)

  function MinReal(a: real, b: real): real {
    if a <= b then a else b
  }

  /** The tokens at `now`. */
  function Level(b: Bucket, now: real): real {
    if now > b.last then MinReal(BURST, b.tokens + (now - b.last) * RATE) else b.tokens
  }

  /** `admit`: takes a token, or says how long until the next. */
  function Admit(b: Bucket, now: real): (Bucket, bool, real) {
    var level := Level(b, now);
    if level >= 1.0 then (Bucket(level - 1.0, now), true, 0.0)
    else (Bucket(level, now), false, (1.0 - level) / RATE)
  }

  /** The wait a refusal reports is the least after which the next attempt is admitted. */
  lemma RetryAfterExact(b: Bucket, now: real, later: real)
    requires !Admit(b, now).1 && later >= now
    ensures Admit(Admit(b, now).0, later).1 <==> later >= now + Admit(b, now).2
  {
  }

  /** The bucket refills as fast as sixteen workers finish tasks that take their deadline of 30 seconds and
      three tail steps of 5. */
  lemma RateIsTheWorkers()
    ensures WORST_CASE == 30.0 + 3.0 * 5.0 && RATE * WORST_CASE == 16.0 && WORKERS == 16
  {
  }

  /** The bucket after attempts at the given times, and how many were admitted. */
  function AdmitAll(b: Bucket, times: seq<real>): (Bucket, nat) {
    if times == [] then (b, 0)
    else
      var (before, n) := AdmitAll(b, times[..|times| - 1]);
      var (after, ok, _) := Admit(before, times[|times| - 1]);
      (after, if ok then n + 1 else n)
  }

  predicate InOrder(start: real, times: seq<real>) {
    && (forall k | 0 <= k < |times| :: start <= times[k])
    && (forall j, k | 0 <= j < k < |times| :: times[j] <= times[k])
  }

  function LastOf(start: real, times: seq<real>): real {
    if times == [] then start else times[|times| - 1]
  }

  /** However the attempts come, the bucket admits no more than it held and has been refilled with. */
  lemma {:induction false} AdmittedBound(b: Bucket, times: seq<real>)
    requires InOrder(b.last, times) && b.tokens >= 0.0
    ensures var (after, n) := AdmitAll(b, times);
            && after.last == LastOf(b.last, times) && after.tokens >= 0.0
            && n as real + after.tokens <= b.tokens + (after.last - b.last) * RATE
  {
    if times != [] {
      AdmittedBound(b, times[..|times| - 1]);
    }
  }

  /** A full bucket admits a burst at once, and nothing after it at the same instant. */
  lemma {:induction false} BurstAdmitted(now: real, times: seq<real>)
    requires forall k | 0 <= k < |times| :: times[k] == now
    ensures var (after, n) := AdmitAll(Bucket(BURST, now), times);
            && after == Bucket(BURST - n as real, now)
            && n == if |times| <= 32 then |times| else 32
  {
    if times != [] {
      BurstAdmitted(now, times[..|times| - 1]);
    }
  }

  datatype Answer =
    | Queued
    | Discarded
    | Busy(retryAfter: real)

  /** What the client is told: a discarded task is answered as admitted. */
  function Told(a: Answer): Answer {
    if a.Discarded? then Queued else a
  }

  // The runner

  /** What requests and workers share. */
  datatype Desk = Desk(bucket: Bucket, pending: seq<Task>, closed: bool)

  /** What a submitted task does to it, and the answer. */
  function Accept(d: Desk, task: Task, now: real): (Desk, Answer) {
    if d.closed then (d, Busy(CLOSED_RETRY_AFTER))
    else
      var (bucket, ok, wait) := Admit(d.bucket, now);
      if !ok then (d.(bucket := bucket), Busy(wait))
      else if |d.pending| >= QUEUE then (d.(bucket := bucket), Discarded)
      else (d.(bucket := bucket, pending := d.pending + [task]), Queued)
  }

  /** What a free worker takes, and leaves. */
  function TakeOldest(d: Desk): (Desk, Option<Task>) {
    if d.pending == [] then (d, None) else (d.(pending := d.pending[1..]), Some(d.pending[0]))
  }

  class Runner {
    var bucket: Bucket
    var pending: seq<Task>
    var started: bool
    var closed: bool

    constructor (now: real)
      ensures bucket == Bucket(BURST, now) && pending == [] && !started && !closed
    {
      bucket := Bucket(BURST, now);
      pending, started, closed := [], false, false;
    }

    function AsDesk(): Desk
      reads this
    {
      Desk(bucket, pending, closed)
    }

    method TakeToken(now: real) returns (wait: real, ok: bool)
      modifies this`bucket
      ensures (bucket, ok, wait) == Admit(old(bucket), now)
    {
      var tokens := bucket.tokens;
      var elapsed := now - bucket.last;
      if elapsed > 0.0 {
        tokens := MinReal(BURST, tokens + elapsed * RATE);
      }
      if tokens >= 1.0 {
        bucket := Bucket(tokens - 1.0, now);
        return 0.0, true;
      }
      bucket := Bucket(tokens, now);
      return (1.0 - tokens) / RATE, false;
    }

    method Submit(task: Task, now: real) returns (r: Answer)
      modifies this`bucket, this`pending, this`started
      ensures (AsDesk(), r) == Accept(old(AsDesk()), task, now)
      ensures old(closed) ==> r == Busy(CLOSED_RETRY_AFTER) && AsDesk() == old(AsDesk()) && started == old(started)
      ensures !old(closed) ==>
                && bucket == Admit(old(bucket), now).0
                && (r.Busy? <==> !Admit(old(bucket), now).1)
                && (r.Busy? ==> r.retryAfter == Admit(old(bucket), now).2 && started == old(started))
                && (!r.Busy? ==> started)
                && (r.Discarded? ==> |old(pending)| >= QUEUE)
                && (r.Queued? ==> |old(pending)| < QUEUE)
                && pending == if r.Queued? then old(pending) + [task] else old(pending)
    {
      if closed {
        return Busy(CLOSED_RETRY_AFTER);
      }
      var wait, ok := TakeToken(now);
      if !ok {
        return Busy(wait);
      }
      started := true;
      if |pending| >= QUEUE {
        return Discarded;
      }
      pending := pending + [task];
      r := Queued;
    }

    /** `next`, once it need not wait: the oldest task, or none when closed and drained. */
    method Next() returns (task: Task, ok: bool)
      requires pending != [] || closed
      modifies this`pending
      ensures (AsDesk(), if ok then Some(task) else None) == TakeOldest(old(AsDesk()))
      ensures ok <==> old(pending) != []
      ensures ok ==> [task] + pending == old(pending)
      ensures !ok ==> pending == []
    {
      if pending == [] {
        return 0, false;
      }
      task, ok := pending[0], true;
      pending := pending[1..];
    }
  }

  // The pool: the runner and its workers over time

  /** A worker, and how long its task can still hold it. */
  datatype Worker = Idle | Running(task: Task, left: real) | Exited

  datatype Pool = Pool(
    now: real,
    bucket: Bucket,
    pending: seq<Task>,
    closed: bool,
    workers: seq<Worker>,
    // History: the tasks admitted and queued, begun, finished, and dropped by a shutdown that ran
    // out of time; and the answers given.
    admitted: seq<Task>,
    begun: seq<Task>,
    finished: multiset<Task>,
    dropped: seq<Task>,
    answers: seq<Answer>)

  datatype Event =
    | Elapse(dt: real)
    | Finish(worker: nat)
    | Submit(task: Task)
    | Close
    | Abandon

  predicate Initial(p: Pool) {
    && p.bucket == Bucket(BURST, p.now)
    && p.pending == [] && !p.closed
    && |p.workers| == WORKERS && (forall k | 0 <= k < WORKERS :: p.workers[k] == Idle)
    && p.admitted == [] && p.begun == [] && p.finished == multiset{} && p.dropped == [] && p.answers == []
  }

  /** Worker `k` becomes free: it takes the oldest task at once, waits for one, or exits. */
  function Free(p: Pool, k: nat): Pool
    requires k < |p.workers|
  {
    if p.pending != [] then
      p.(workers := p.workers[k := Running(p.pending[0], WORST_CASE)],
         pending := p.pending[1..],
         begun := p.begun + [p.pending[0]])
    else p.(workers := p.workers[k := if p.closed then Exited else Idle])
  }

  /** Whether the event can happen. A task can hold its worker for any time, or for good. */
  predicate Enabled(p: Pool, e: Event) {
    match e
    case Elapse(dt) => dt >= 0.0
    case Finish(k) => k < |p.workers| && p.workers[k].Running?
    case Submit(_) => true
    case Close => !p.closed
    case Abandon => p.closed
  }

  /** No task holds its worker past its worst case. */
  predicate OnTime(p: Pool, e: Event) {
    e.Elapse? ==> forall k | 0 <= k < |p.workers| && p.workers[k].Running? :: e.dt <= p.workers[k].left
  }

  function Aged(w: Worker, dt: real): Worker {
    if w.Running? then w.(left := w.left - dt) else w
  }

  function AgeAll(workers: seq<Worker>, dt: real): (r: seq<Worker>)
    ensures |r| == |workers| && forall k | 0 <= k < |r| :: r[k] == Aged(workers[k], dt)
  {
    if workers == [] then [] else [Aged(workers[0], dt)] + AgeAll(workers[1..], dt)
  }

  /** A close wakes the idle workers, which find nothing to do and exit. */
  function DismissIdle(workers: seq<Worker>): (r: seq<Worker>)
    ensures |r| == |workers| && forall k | 0 <= k < |r| :: r[k] == if workers[k].Idle? then Exited else workers[k]
  {
    if workers == [] then []
    else [if workers[0].Idle? then Exited else workers[0]] + DismissIdle(workers[1..])
  }

  function FirstIdle(workers: seq<Worker>): (r: nat)
    ensures r <= |workers|
    ensures r < |workers| ==> workers[r].Idle?
    ensures r == |workers| ==> forall k | 0 <= k < |workers| :: !workers[k].Idle?
  {
    if workers == [] then 0
    else if workers[0].Idle? then 0
    else 1 + FirstIdle(workers[1..])
  }

  function Submitted(p: Pool, task: Task): Pool {
    if p.closed then p.(answers := p.answers + [Busy(CLOSED_RETRY_AFTER)])
    else
      var (bucket, ok, wait) := Admit(p.bucket, p.now);
      if !ok then p.(bucket := bucket, answers := p.answers + [Busy(wait)])
      else if |p.pending| >= QUEUE then p.(bucket := bucket, answers := p.answers + [Discarded])
      else
        var queued := p.(bucket := bucket, pending := p.pending + [task], admitted := p.admitted + [task],
                         answers := p.answers + [Queued]);
        if FirstIdle(p.workers) < |p.workers| then Free(queued, FirstIdle(p.workers)) else queued
  }

  function Step(p: Pool, e: Event): Pool
    requires Enabled(p, e)
  {
    match e
    case Elapse(dt) =>
      p.(now := p.now + dt, workers := AgeAll(p.workers, dt))
    case Finish(k) => Free(p.(finished := p.finished + multiset{p.workers[k].task}), k)
    case Submit(task) => Submitted(p, task)
    case Close =>
      p.(closed := true, workers := DismissIdle(p.workers))
    case Abandon => p.(pending := [], dropped := p.dropped + p.pending)
  }

  function DeskOf(p: Pool): Desk {
    Desk(p.bucket, p.pending, p.closed)
  }

  /** In the pool a submission is the runner's, and a queued task wakes an idle worker, which takes the
      oldest as the runner hands it out. */
  lemma PoolSubmits(p: Pool, task: Task)
    ensures var (desk, answer) := Accept(DeskOf(p), task, p.now);
            var (p', k) := (Submitted(p, task), FirstIdle(p.workers));
            && p'.answers == p.answers + [answer]
            && if answer.Queued? && k < |p.workers| then
                 && DeskOf(p') == TakeOldest(desk).0
                 && p'.workers == p.workers[k := Running(TakeOldest(desk).1.value, WORST_CASE)]
               else DeskOf(p') == desk && p'.workers == p.workers
  {
  }

  /** A worker that becomes free takes what the runner hands out, and waits or exits when that is nothing. */
  lemma PoolFrees(p: Pool, k: nat)
    requires k < |p.workers|
    ensures var (desk, task) := TakeOldest(DeskOf(p));
            && DeskOf(Free(p, k)) == desk
            && Free(p, k).workers == p.workers[k := if task.Some? then Running(task.value, WORST_CASE)
                                                    else if p.closed then Exited else Idle]
  {
  }

  /** A task that finishes is counted, and its worker takes the next as `PoolFrees` says. */
  lemma PoolFinishes(p: Pool, k: nat)
    requires k < |p.workers| && p.workers[k].Running?
    ensures var (p', desk, task) := (Step(p, Finish(k)), TakeOldest(DeskOf(p)).0, TakeOldest(DeskOf(p)).1);
            && p'.finished == p.finished + multiset{p.workers[k].task}
            && DeskOf(p') == desk
            && p'.begun == p.begun + (if task.Some? then [task.value] else [])
            && p'.workers == p.workers[k := if task.Some? then Running(task.value, WORST_CASE)
                                            else if p.closed then Exited else Idle]
  {
  }

  /** Time that passes is taken off what the running tasks have left. */
  lemma PoolElapses(p: Pool, dt: real)
    requires dt >= 0.0
    ensures var p' := Step(p, Elapse(dt));
            && p'.now == p.now + dt && DeskOf(p') == DeskOf(p) && |p'.workers| == |p.workers|
            && forall k | 0 <= k < |p.workers| ::
                 p'.workers[k] == if p.workers[k].Running? then p.workers[k].(left := p.workers[k].left - dt)
                                  else p.workers[k]
  {
  }

  /** A close dismisses the idle and lets the others finish; a shutdown out of time drops what waits. */
  lemma PoolCloses(p: Pool)
    ensures !p.closed ==>
              var p' := Step(p, Close);
              && DeskOf(p') == DeskOf(p).(closed := true) && |p'.workers| == |p.workers|
              && forall k | 0 <= k < |p.workers| ::
                   p'.workers[k] == if p.workers[k].Idle? then Exited else p.workers[k]
    ensures p.closed ==>
              var p' := Step(p, Abandon);
              p'.pending == [] && p'.dropped == p.dropped + p.pending && p'.workers == p.workers
  {
  }

  predicate IsRun(ps: seq<Pool>, es: seq<Event>) {
    && |ps| == |es| + 1
    && Initial(ps[0])
    && forall i {:trigger StepsAt(ps, es, i)} | 0 <= i < |es| :: StepsAt(ps, es, i)
  }

  predicate StepsAt(ps: seq<Pool>, es: seq<Event>, i: nat)
    requires i < |es| && |ps| == |es| + 1
  {
    Enabled(ps[i], es[i]) && ps[i + 1] == Step(ps[i], es[i])
  }

  predicate KeepsDeadlines(ps: seq<Pool>, es: seq<Event>) {
    && |ps| == |es| + 1
    && forall i | 0 <= i < |es| :: OnTime(ps[i], es[i])
  }

  // Capacity

  /** The worker time the running tasks can still take. */
  function Load(workers: seq<Worker>): real {
    if workers == [] then 0.0
    else (if workers[0].Running? then workers[0].left else 0.0) + Load(workers[1..])
  }

  predicate WorkersOk(workers: seq<Worker>) {
    && |workers| == WORKERS
    && forall k | 0 <= k < |workers| && workers[k].Running? :: 0.0 <= workers[k].left <= WORST_CASE
  }

  /** Queued work, running work and admissible work together never exceed the burst and the workers. */
  predicate CapacityInv(p: Pool) {
    && WorkersOk(p.workers)
    && p.bucket.last <= p.now && 0.0 <= p.bucket.tokens <= BURST
    && (p.pending != [] ==> forall k | 0 <= k < |p.workers| :: p.workers[k].Running?)
    && (!p.closed ==> forall k | 0 <= k < |p.workers| :: !p.workers[k].Exited?)
    && |p.pending| as real * WORST_CASE + Load(p.workers) + WORST_CASE * Level(p.bucket, p.now)
       <= (WORKERS as real + BURST) * WORST_CASE
  }

  lemma {:induction false} LoadSplit(a: seq<Worker>, b: seq<Worker>)
    ensures Load(a + b) == Load(a) + Load(b)
  {
    if a == [] {
      assert a + b == b;
    } else {
      assert (a + b)[1..] == a[1..] + b;
      LoadSplit(a[1..], b);
    }
  }

  function LeftOf(w: Worker): real {
    if w.Running? then w.left else 0.0
  }

  lemma LoadUpdate(workers: seq<Worker>, k: nat, w: Worker)
    requires k < |workers|
    ensures Load(workers[k := w]) == Load(workers) - LeftOf(workers[k]) + LeftOf(w)
  {
    var (before, after) := (workers[..k], workers[k + 1..]);
    assert workers == before + ([workers[k]] + after);
    assert workers[k := w] == before + ([w] + after);
    LoadSplit(before, [workers[k]] + after);
    LoadSplit(before, [w] + after);
    LoadSplit([workers[k]], after);
    LoadSplit([w], after);
  }

  lemma {:induction false} LoadBound(workers: seq<Worker>)
    requires forall k | 0 <= k < |workers| && workers[k].Running? :: 0.0 <= workers[k].left <= WORST_CASE
    ensures 0.0 <= Load(workers) <= |workers| as real * WORST_CASE
  {
    if workers != [] {
      LoadBound(workers[1..]);
    }
  }

  /** An idle worker's share of the load is missing. */
  lemma IdleSlack(workers: seq<Worker>, k: nat)
    requires k < |workers| && !workers[k].Running?
    requires forall i | 0 <= i < |workers| && workers[i].Running? :: 0.0 <= workers[i].left <= WORST_CASE
    ensures Load(workers) <= (|workers| - 1) as real * WORST_CASE
  {
    var (before, after) := (workers[..k], workers[k + 1..]);
    assert workers == before + ([workers[k]] + after);
    LoadSplit(before, [workers[k]] + after);
    LoadSplit([workers[k]], after);
    LoadBound(before);
    LoadBound(after);
  }

  lemma {:induction false} LoadAges(workers: seq<Worker>, dt: real)
    requires forall k | 0 <= k < |workers| :: workers[k].Running?
    ensures Load(AgeAll(workers, dt)) == Load(workers) - |workers| as real * dt
  {
    if workers != [] {
      LoadAges(workers[1..], dt);
      assert AgeAll(workers, dt)[1..] == AgeAll(workers[1..], dt);
    }
  }

  /** While time passes, the bucket refills no faster than busy workers work off their tasks. */
  lemma ElapseKeeps(p: Pool, dt: real)
    requires CapacityInv(p) && Enabled(p, Elapse(dt)) && OnTime(p, Elapse(dt))
    ensures CapacityInv(Step(p, Elapse(dt)))
  {
    var p' := Step(p, Elapse(dt));
    if forall k | 0 <= k < |p.workers| :: p.workers[k].Running? {
      LoadAges(p.workers, dt);
      assert Level(p'.bucket, p'.now) <= Level(p.bucket, p.now) + dt * RATE;
    } else {
      var k :| 0 <= k < |p.workers| && !p.workers[k].Running?;
      IdleSlack(p'.workers, k);
      assert Level(p'.bucket, p'.now) <= BURST;
    }
  }

  lemma FreeKeeps(p: Pool, k: nat)
    requires WorkersOk(p.workers) && k < WORKERS
    requires p.bucket.last <= p.now && 0.0 <= p.bucket.tokens <= BURST
    requires forall i | 0 <= i < WORKERS && i != k :: p.pending != [] ==> p.workers[i].Running?
    requires forall i | 0 <= i < WORKERS && i != k :: !p.closed ==> !p.workers[i].Exited?
    requires |p.pending| as real * WORST_CASE + Load(p.workers) - LeftOf(p.workers[k])
             + WORST_CASE * Level(p.bucket, p.now) <= (WORKERS as real + BURST) * WORST_CASE
    ensures CapacityInv(Free(p, k))
  {
    LoadUpdate(p.workers, k, Free(p, k).workers[k]);
  }

  lemma SubmitKeeps(p: Pool, task: Task)
    requires CapacityInv(p)
    ensures CapacityInv(Submitted(p, task))
    ensures Submitted(p, task).answers == p.answers || !Submitted(p, task).answers[|p.answers|].Discarded?
  {
    LoadBound(p.workers);
    if !p.closed && Admit(p.bucket, p.now).1 {
      // The token it takes pays for its place.
      assert |p.pending| as real * WORST_CASE <= (WORKERS as real + BURST - 1.0) * WORST_CASE;
      assert |p.pending| < QUEUE;
      var k := FirstIdle(p.workers);
      var queued := p.(bucket := Admit(p.bucket, p.now).0, pending := p.pending + [task],
                       admitted := p.admitted + [task], answers := p.answers + [Queued]);
      if k < |p.workers| {
        AllOthersBusyOrAlone(p, queued, k);
      } else {
        assert p.pending == [] ==> forall i | 0 <= i < |p.workers| :: p.workers[i].Running?;
      }
    }
  }

  /** An idle worker means an empty queue, so the new task goes straight to it. */
  lemma AllOthersBusyOrAlone(p: Pool, queued: Pool, k: nat)
    requires CapacityInv(p) && k < WORKERS && p.workers[k].Idle?
    requires Level(p.bucket, p.now) >= 1.0
    requires queued.now == p.now && queued.workers == p.workers && queued.closed == p.closed
    requires |queued.pending| == |p.pending| + 1
    requires queued.bucket == Bucket(Level(p.bucket, p.now) - 1.0, p.now)
    ensures CapacityInv(Free(queued, k))
  {
    assert p.pending == [];
    var freed := Free(queued, k);
    LoadUpdate(queued.workers, k, freed.workers[k]);
    assert freed.pending == [];
  }

  lemma CloseKeeps(p: Pool)
    requires CapacityInv(p) && !p.closed
    ensures CapacityInv(Step(p, Close))
  {
    LoadDismissed(p.workers);
  }

  lemma {:induction false} LoadDismissed(workers: seq<Worker>)
    ensures Load(DismissIdle(workers)) == Load(workers)
  {
    if workers != [] {
      LoadDismissed(workers[1..]);
      assert DismissIdle(workers)[1..] == DismissIdle(workers[1..]);
    }
  }

  lemma CapacityKeeps(p: Pool, e: Event)
    requires CapacityInv(p) && Enabled(p, e) && OnTime(p, e)
    ensures CapacityInv(Step(p, e))
  {
    match e
    case Elapse(dt) => ElapseKeeps(p, dt);
    case Finish(k) => FreeKeeps(p.(finished := p.finished + multiset{p.workers[k].task}), k);
    case Submit(task) => SubmitKeeps(p, task);
    case Close => CloseKeeps(p);
    case Abandon =>
  }

  lemma {:induction false} IdleLoad(workers: seq<Worker>)
    requires forall k | 0 <= k < |workers| :: workers[k].Idle?
    ensures Load(workers) == 0.0 && InHand(workers) == multiset{}
  {
    if workers != [] {
      IdleLoad(workers[1..]);
    }
  }

  lemma {:induction false} RunCapacity(ps: seq<Pool>, es: seq<Event>, i: nat)
    requires IsRun(ps, es) && KeepsDeadlines(ps, es) && i < |ps|
    ensures CapacityInv(ps[i])
  {
    if i == 0 {
      IdleLoad(ps[0].workers);
    } else {
      RunCapacity(ps, es, i - 1);
      assert StepsAt(ps, es, i - 1);
      CapacityKeeps(ps[i - 1], es[i - 1]);
    }
  }

  /** While tasks keep to their deadlines, at most the burst and the workers' share wait, so the queue
      never discards a task. */
  lemma {:induction false} QueueNeverOverflows(ps: seq<Pool>, es: seq<Event>, i: nat)
    requires IsRun(ps, es) && KeepsDeadlines(ps, es) && i < |ps|
    ensures |ps[i].pending| <= 48 < QUEUE
    ensures forall k | 0 <= k < |ps[i].answers| :: !ps[i].answers[k].Discarded?
  {
    RunCapacity(ps, es, i);
    LoadBound(ps[i].workers);
    assert Level(ps[i].bucket, ps[i].now) >= 0.0;
    assert |ps[i].pending| as real <= 48.0;
    if i > 0 {
      QueueNeverOverflows(ps, es, i - 1);
      assert StepsAt(ps, es, i - 1);
      RunCapacity(ps, es, i - 1);
      if es[i - 1].Submit? {
        SubmitKeeps(ps[i - 1], es[i - 1].task);
      }
    }
  }

  // Conservation

  function InHand(workers: seq<Worker>): multiset<Task> {
    if workers == [] then multiset{}
    else (if workers[0].Running? then multiset{workers[0].task} else multiset{}) + InHand(workers[1..])
  }

  function Hand(w: Worker): multiset<Task> {
    if w.Running? then multiset{w.task} else multiset{}
  }

  lemma {:induction false} InHandSplit(a: seq<Worker>, b: seq<Worker>)
    ensures InHand(a + b) == InHand(a) + InHand(b)
  {
    if a == [] {
      assert a + b == b;
    } else {
      assert (a + b)[1..] == a[1..] + b;
      InHandSplit(a[1..], b);
    }
  }

  lemma InHandUpdate(workers: seq<Worker>, k: nat, w: Worker)
    requires k < |workers|
    ensures InHand(workers[k := w]) + Hand(workers[k]) == InHand(workers) + Hand(w)
  {
    var (before, after) := (workers[..k], workers[k + 1..]);
    assert workers == before + ([workers[k]] + after);
    assert workers[k := w] == before + ([w] + after);
    InHandSplit(before, [workers[k]] + after);
    InHandSplit(before, [w] + after);
    InHandSplit([workers[k]], after);
    InHandSplit([w], after);
  }

  /** Tasks begin in the order they were admitted, each once; a task is finished, in a worker's hands,
      waiting, or dropped by a shutdown that ran out of time, and nothing else. Nothing waits while a
      worker is idle, and never more than the queue holds. */
  predicate ConservationInv(p: Pool) {
    && |p.workers| == WORKERS && |p.pending| <= QUEUE
    && (p.pending != [] ==> forall k | 0 <= k < |p.workers| :: !p.workers[k].Idle?)
    && p.admitted == p.begun + p.pending + p.dropped
    && multiset(p.begun) == p.finished + InHand(p.workers)
    && (p.dropped != [] ==> p.closed && p.pending == [])
    && (SomeExited(p.workers) ==> p.closed && p.pending == [])
  }

  predicate SomeExited(workers: seq<Worker>) {
    exists k | 0 <= k < |workers| :: workers[k].Exited?
  }

  /** A worker puts down `held` and takes up `taken`. */
  lemma HandOver(begun: multiset<Task>, begun': multiset<Task>, finished: multiset<Task>, hand: multiset<Task>,
                 hand': multiset<Task>, held: multiset<Task>, taken: multiset<Task>)
    requires begun + held == finished + hand
    requires begun' == begun + taken
    requires hand' + held == hand + taken
    ensures begun' == finished + hand'
  {
    forall x ensures begun'[x] == (finished + hand')[x] {
      assert (begun + held)[x] == (finished + hand)[x] && (hand' + held)[x] == (hand + taken)[x];
    }
  }

  lemma FreeConserves(p: Pool, k: nat)
    requires |p.workers| == WORKERS && |p.pending| <= QUEUE
    requires k < |p.workers| && p.admitted == p.begun + p.pending + p.dropped
    requires |p.pending| > 1 ==> forall i | 0 <= i < |p.workers| && i != k :: !p.workers[i].Idle?
    requires multiset(p.begun) + Hand(p.workers[k]) == p.finished + InHand(p.workers)
    requires p.dropped != [] ==> p.closed && p.pending == []
    requires SomeExited(p.workers) ==> p.closed && p.pending == []
    ensures ConservationInv(Free(p, k))
  {
    FreeHands(p, k);
    FreeShape(p, k);
    FreeOrder(p, k);
  }

  lemma FreeOrder(p: Pool, k: nat)
    requires k < |p.workers| && p.admitted == p.begun + p.pending + p.dropped
    ensures Free(p, k).admitted == Free(p, k).begun + Free(p, k).pending + Free(p, k).dropped
  {
    if p.pending != [] {
      assert Free(p, k).begun + Free(p, k).pending == p.begun + p.pending;
    }
  }

  lemma FreeHands(p: Pool, k: nat)
    requires k < |p.workers|
    requires multiset(p.begun) + Hand(p.workers[k]) == p.finished + InHand(p.workers)
    ensures multiset(Free(p, k).begun) == Free(p, k).finished + InHand(Free(p, k).workers)
  {
    var p' := Free(p, k);
    InHandUpdate(p.workers, k, p'.workers[k]);
    HandOver(multiset(p.begun), multiset(p'.begun), p.finished, InHand(p.workers), InHand(p'.workers),
             Hand(p.workers[k]), Hand(p'.workers[k]));
  }

  lemma FreeShape(p: Pool, k: nat)
    requires k < |p.workers|
    requires |p.pending| > 1 ==> forall i | 0 <= i < |p.workers| && i != k :: !p.workers[i].Idle?
    requires SomeExited(p.workers) ==> p.closed && p.pending == []
    ensures var p' := Free(p, k);
            && (p'.pending != [] ==> forall i | 0 <= i < |p'.workers| :: !p'.workers[i].Idle?)
            && (SomeExited(p'.workers) ==> p'.closed && p'.pending == [])
  {
  }

  lemma SubmitConserves(p: Pool, task: Task)
    requires ConservationInv(p)
    ensures ConservationInv(Submitted(p, task))
  {
    var queued := p.(bucket := Admit(p.bucket, p.now).0, pending := p.pending + [task],
                     admitted := p.admitted + [task], answers := p.answers + [Queued]);
    if !p.closed && |p.pending| < QUEUE {
      assert p.dropped == [];
      assert queued.admitted == queued.begun + queued.pending + queued.dropped;
      var k := FirstIdle(p.workers);
      if k < |p.workers| {
        FreeConserves(queued, k);
      }
    }
  }

  lemma {:induction false} InHandKept(workers: seq<Worker>, dt: real)
    ensures InHand(AgeAll(workers, dt)) == InHand(workers) && InHand(DismissIdle(workers)) == InHand(workers)
  {
    if workers != [] {
      InHandKept(workers[1..], dt);
      assert AgeAll(workers, dt)[1..] == AgeAll(workers[1..], dt);
      assert DismissIdle(workers)[1..] == DismissIdle(workers[1..]);
    }
  }

  lemma CloseConserves(p: Pool)
    requires ConservationInv(p) && !p.closed
    ensures ConservationInv(Step(p, Close))
  {
    InHandKept(p.workers, 0.0);
    assert SomeExited(DismissIdle(p.workers)) ==> p.pending == [];
  }

  lemma ElapseConserves(p: Pool, dt: real)
    requires ConservationInv(p) && Enabled(p, Elapse(dt))
    ensures ConservationInv(Step(p, Elapse(dt)))
  {
    InHandKept(p.workers, dt);
    assert SomeExited(AgeAll(p.workers, dt)) ==> SomeExited(p.workers);
  }

  lemma ConservationKeeps(p: Pool, e: Event)
    requires ConservationInv(p) && Enabled(p, e)
    ensures ConservationInv(Step(p, e))
  {
    match e
    case Elapse(dt) => ElapseConserves(p, dt);
    case Finish(k) => FreeConserves(p.(finished := p.finished + multiset{p.workers[k].task}), k);
    case Submit(task) => SubmitConserves(p, task);
    case Close => CloseConserves(p);
    case Abandon => assert p.begun + p.pending + p.dropped == p.begun + [] + (p.dropped + p.pending);
  }

  lemma {:induction false} RunConserves(ps: seq<Pool>, es: seq<Event>, i: nat)
    requires IsRun(ps, es) && i < |ps|
    ensures ConservationInv(ps[i])
  {
    if i == 0 {
      IdleLoad(ps[0].workers);
    } else {
      RunConserves(ps, es, i - 1);
      assert StepsAt(ps, es, i - 1);
      ConservationKeeps(ps[i - 1], es[i - 1]);
    }
  }

  /** Whatever the tasks do, never more than the queue's tasks wait and never more than the workers run. */
  lemma AlwaysBounded(ps: seq<Pool>, es: seq<Event>, i: nat)
    requires IsRun(ps, es) && i < |ps|
    ensures |ps[i].pending| <= 64 && |ps[i].workers| == 16 && |InHand(ps[i].workers)| <= 16
  {
    RunConserves(ps, es, i);
    InHandCount(ps[i].workers);
  }

  lemma {:induction false} InHandCount(workers: seq<Worker>)
    ensures |InHand(workers)| <= |workers|
  {
    if workers != [] {
      InHandCount(workers[1..]);
    }
  }

  /** Whether the shutdown's wait for the workers is over. */
  predicate Drained(p: Pool) {
    forall k | 0 <= k < |p.workers| :: p.workers[k].Exited?
  }

  lemma {:induction false} NoneInHand(workers: seq<Worker>)
    requires forall k | 0 <= k < |workers| :: workers[k].Exited?
    ensures InHand(workers) == multiset{}
  {
    if workers != [] {
      NoneInHand(workers[1..]);
    }
  }

  /** A shutdown that did not have to cancel ends with every admitted task finished. */
  lemma CleanCloseFinishesEverything(ps: seq<Pool>, es: seq<Event>, i: nat)
    requires IsRun(ps, es) && i < |ps|
    requires Drained(ps[i]) && ps[i].dropped == []
    ensures ps[i].closed && ps[i].begun == ps[i].admitted && ps[i].finished == multiset(ps[i].admitted)
  {
    RunConserves(ps, es, i);
    NoneInHand(ps[i].workers);
    assert ps[i].workers[0].Exited?;
    assert ps[i].begun + [] + [] == ps[i].begun;
  }

  // What a client can learn from the answers

  /** What decides an answer: the bucket, and whether the runner is closed. */
  datatype Gate = Gate(bucket: Bucket, closed: bool, told: seq<Answer>)

  datatype Arrival = Arrived(at: real) | Closing

  function Pass(g: Gate, a: Arrival): Gate {
    match a
    case Closing => g.(closed := true)
    case Arrived(at) =>
      if g.closed then g.(told := g.told + [Busy(CLOSED_RETRY_AFTER)])
      else
        var (bucket, ok, wait) := Admit(g.bucket, at);
        g.(bucket := bucket, told := g.told + [if ok then Queued else Busy(wait)])
  }

  function PassAll(g: Gate, arrivals: seq<Arrival>): Gate {
    if arrivals == [] then g else Pass(PassAll(g, arrivals[..|arrivals| - 1]), arrivals[|arrivals| - 1])
  }

  function ToldAll(answers: seq<Answer>): (r: seq<Answer>)
    ensures |r| == |answers| && forall k | 0 <= k < |r| :: r[k] == Told(answers[k])
  {
    if answers == [] then [] else [Told(answers[0])] + ToldAll(answers[1..])
  }

  /** The arrivals of the first `n` events. */
  function Arrivals(ps: seq<Pool>, es: seq<Event>, n: nat): seq<Arrival>
    requires n <= |es| && |ps| == |es| + 1
  {
    if n == 0 then []
    else Arrivals(ps, es, n - 1) + ArrivalsOf(ps[n - 1], es[n - 1])
  }

  lemma SubmitPasses(p: Pool, task: Task)
    ensures var p' := Submitted(p, task);
            GateOf(p') == Pass(GateOf(p), Arrived(p.now))
  {
    var p' := Submitted(p, task);
    PoolSubmits(p, task);
    ToldMore(p.answers, p'.answers[|p.answers|]);
  }

  lemma ToldMore(answers: seq<Answer>, answer: Answer)
    ensures ToldAll(answers + [answer]) == ToldAll(answers) + [Told(answer)]
  {
  }

  function GateOf(p: Pool): Gate {
    Gate(p.bucket, p.closed, ToldAll(p.answers))
  }

  function ArrivalsOf(p: Pool, e: Event): seq<Arrival> {
    match e
    case Submit(_) => [Arrived(p.now)]
    case Close => [Closing]
    case _ => []
  }

  lemma StepPasses(p: Pool, e: Event)
    requires Enabled(p, e)
    ensures GateOf(Step(p, e)) == PassAll(GateOf(p), ArrivalsOf(p, e))
  {
    if e.Submit? {
      SubmitPasses(p, e.task);
    }
    assert e.Submit? || e.Close? ==> ArrivalsOf(p, e)[..0] == [];
  }

  lemma {:induction false} PassInTurn(g: Gate, a: seq<Arrival>, b: seq<Arrival>)
    ensures PassAll(g, a + b) == PassAll(PassAll(g, a), b)
  {
    if b == [] {
      assert a + b == a;
    } else {
      var last := |b| - 1;
      assert (a + b)[..|a| + last] == a + b[..last];
      PassInTurn(g, a, b[..last]);
    }
  }

  lemma {:induction false} AnswersFollowArrivals(ps: seq<Pool>, es: seq<Event>, n: nat)
    requires IsRun(ps, es) && n <= |es|
    ensures GateOf(ps[n]) == PassAll(Gate(Bucket(BURST, ps[0].now), false, []), Arrivals(ps, es, n))
  {
    if n > 0 {
      AnswersFollowArrivals(ps, es, n - 1);
      assert StepsAt(ps, es, n - 1);
      StepPasses(ps[n - 1], es[n - 1]);
      PassInTurn(Gate(Bucket(BURST, ps[0].now), false, []), Arrivals(ps, es, n - 1), ArrivalsOf(ps[n - 1], es[n - 1]));
    }
  }

  /** Two runs whose requests arrive at the same times get the same answers, whatever the tasks are,
      however long they run and whether the queue was full: admission reveals nothing about the work. */
  lemma AnswersRevealNothing(ps: seq<Pool>, es: seq<Event>, qs: seq<Pool>, fs: seq<Event>)
    requires IsRun(ps, es) && IsRun(qs, fs)
    requires ps[0].now == qs[0].now && Arrivals(ps, es, |es|) == Arrivals(qs, fs, |fs|)
    ensures ToldAll(ps[|es|].answers) == ToldAll(qs[|fs|].answers)
  {
    AnswersFollowArrivals(ps, es, |es|);
    AnswersFollowArrivals(qs, fs, |fs|);
    assert GateOf(ps[|es|]).told == GateOf(qs[|fs|]).told;
  }
}
