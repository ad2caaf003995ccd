/** The whole pool from ThreadPool_init on, while its workers are still starting. */
module ThreadPoolStartup {
  import opened ThreadJob
  import opened Wrappers
  import opened Handshake
  import HandshakeLiveness
  import S = HandshakeStartup
  import opened ThreadPool
  import opened ThreadPoolProofs
  import opened ThreadPoolLiveness
  import Ring = JobRing

  datatype BootPool = BootPool(p: Pool, stages: seq<S.Stage>)

  datatype BootStep = Start(w: nat) | Act(x: PoolAction)

  function BootOf(b: BootPool): S.Boot { S.Boot(b.p.h, b.stages) }

  predicate StepEnabled(b: BootPool, step: BootStep) {
    && |b.stages| == |b.p.h.ws|
    && match step
       case Start(i) => S.BootEnabled(BootOf(b), S.Start(i))
       case Act(x) => PoolEnabled(b.p, x) && (x.Step? && x.a.WorkerStep? ==> b.stages[x.a.w].Up?)
  }

  function StepApply(b: BootPool, step: BootStep): BootPool
    requires StepEnabled(b, step)
  {
    match step
    case Start(i) =>
      var c := S.BootApply(BootOf(b), S.Start(i));
      BootPool(b.p.(h := c.h), c.stages)
    case Act(x) => b.(p := PoolApply(b.p, x))
  }

  /** The main thread takes the startlock of a worker that is not up. */
  predicate TooEarly(b: BootPool, step: BootStep) {
    step == Act(Step(MainStep)) && S.Early(BootOf(b), S.Act(MainStep))
  }

  /** A run in which the main thread is never early. */
  predicate TimelyRun(b: BootPool, steps: seq<BootStep>)
    decreases |steps|
  {
    steps == [] || (StepEnabled(b, steps[0]) && !TooEarly(b, steps[0]) && TimelyRun(StepApply(b, steps[0]), steps[1..]))
  }

  function BootAfter(b: BootPool, steps: seq<BootStep>): BootPool
    requires TimelyRun(b, steps)
    decreases |steps|
  {
    if steps == [] then b else BootAfter(StepApply(b, steps[0]), steps[1..])
  }

  /** What ThreadPool_init leaves. */
  function Init(n: nat, queuesize: nat): BootPool {
    BootPool(Pool(S.BootInitial(n).h, Ring.Empty(queuesize), map[]), S.BootInitial(n).stages)
  }

  /** The same with all workers up. */
  function GrownPool(b: BootPool): Pool
    requires |b.stages| == |b.p.h.ws|
  {
    b.p.(h := S.Grown(BootOf(b)))
  }

  ghost predicate StartInv(b: BootPool) {
    && |b.stages| == |b.p.h.ws| && PoolInv(GrownPool(b))
    && forall i | 0 <= i < |b.stages| && !b.stages[i].Up? :: b.p.h.ws[i] == S.NEWBORN
  }

  lemma InitInv(n: nat, queuesize: nat)
    requires n > 0 && queuesize > 0
    ensures StartInv(Init(n, queuesize))
  {
    S.BootInitialInv(n);
    Ring.EmptyIsEmpty(queuesize);
  }

  // ---------- the loops over the threads see jobs only ----------

  predicate SameJobs(ws: seq<Worker>, vs: seq<Worker>) {
    |ws| == |vs| && forall k | 0 <= k < |ws| :: ws[k].job == vs[k].job
  }

  lemma {:induction false} SameLoops(ws: seq<Worker>, vs: seq<Worker>, j: JobId, jobs: map<JobId, Record>)
    requires SameJobs(ws, vs)
    ensures AvailableThread(ws) == AvailableThread(vs) && ThreadOf(ws, j) == ThreadOf(vs, j)
    ensures TickThreads(ws, jobs) == TickThreads(vs, jobs) && OnThreads(ws, j) == OnThreads(vs, j)
    decreases |ws|
  {
    if ws != [] {
      assert ws[0].job == vs[0].job;
      SameLoops(ws[1..], vs[1..], j, if ws[0].job.Some? && ws[0].job.value in jobs
                                     then jobs[ws[0].job.value := Tick(jobs[ws[0].job.value])] else jobs);
    }
  }

  lemma GrownJobs(b: BootPool)
    requires |b.stages| == |b.p.h.ws|
    ensures SameJobs(b.p.h.ws, GrownPool(b).h.ws) && GrownPool(b).h.main == b.p.h.main
  {}

  // ---------- refinement ----------

  lemma HandshakeInv(b: BootPool)
    requires StartInv(b)
    ensures S.BootInv(BootOf(b))
  {
    hide Inv;
  }

  /** A step of the handshake within the pool. */
  lemma HandshakeRefines(b: BootPool, a: Action)
    requires StartInv(b) && Enabled(b.p.h, a) && (a.WorkerStep? ==> b.stages[a.w].Up?)
    requires !S.Early(BootOf(b), S.Act(a))
    ensures var c := S.BootApply(BootOf(b), S.Act(a));
            && S.BootInv(c) && Enabled(GrownPool(b).h, a) && Apply(GrownPool(b).h, a) == S.Grown(c)
  {
    HandshakeInv(b);
    S.ActRefines(BootOf(b), a);
  }

  lemma SameMeaning(b: BootPool, a: Action)
    requires |b.stages| == |b.p.h.ws| && Enabled(b.p.h, a) && Enabled(GrownPool(b).h, a)
    ensures StepJobs(GrownPool(b), a) == StepJobs(b.p, a)
  {}

  predicate Newborns(b: BootPool) {
    |b.stages| == |b.p.h.ws| && forall i | 0 <= i < |b.stages| && !b.stages[i].Up? :: b.p.h.ws[i] == S.NEWBORN
  }

  /** The pool with all workers up makes the same step. */
  ghost predicate Refined(b: BootPool, x: PoolAction)
    requires StartInv(b) && StepEnabled(b, Act(x))
  {
    var c := StepApply(b, Act(x));
    PoolEnabled(GrownPool(b), x) && Newborns(c) && PoolApply(GrownPool(b), x) == GrownPool(c)
  }

  lemma StepRefines(b: BootPool, a: Action)
    requires StartInv(b) && StepEnabled(b, Act(Step(a))) && !TooEarly(b, Act(Step(a)))
    ensures Refined(b, Step(a))
  {
    HandshakeRefines(b, a);
    SameMeaning(b, a);
    hide Inv, PoolInv, StepJobs, Apply, S.Early;
  }

  lemma EnqueueRefines(b: BootPool, j: JobId, timeout: nat)
    requires StartInv(b) && StepEnabled(b, Act(Enqueue(j, timeout)))
    ensures Refined(b, Enqueue(j, timeout))
  {
    var ws := GrownPool(b).h.ws;
    GrownJobs(b);
    SameLoops(b.p.h.ws, ws, j, b.p.jobs);
    if AvailableThread(ws) < |ws| { HandshakeRefines(b, Begin(AvailableThread(ws), j)); }
    hide Inv, PoolInv;
  }

  lemma TakeNextRefines(b: BootPool)
    requires StartInv(b) && StepEnabled(b, Act(TakeNext))
    ensures Refined(b, TakeNext)
  {
    HandshakeRefines(b, Next(Ring.Dequeue(b.p.ring).1));
    hide Inv, PoolInv, Ring.Dequeue;
  }

  lemma WorkerEnqueueRefines(b: BootPool, i: nat, j: JobId, timeout: nat)
    requires StartInv(b) && StepEnabled(b, Act(WorkerEnqueue(i, j, timeout)))
    ensures Refined(b, WorkerEnqueue(i, j, timeout))
  {
    GrownJobs(b);
    hide Inv, PoolInv, Ring.Enqueue;
  }

  lemma CancelRefines(b: BootPool, j: JobId)
    requires StartInv(b) && StepEnabled(b, Act(Cancel(j)))
    ensures Refined(b, Cancel(j))
  {
    GrownJobs(b);
    SameLoops(b.p.h.ws, GrownPool(b).h.ws, j, b.p.jobs);
    hide Inv, PoolInv, Ring.Cancel, SameJobs;
  }

  lemma TickRefines(b: BootPool)
    requires StartInv(b) && StepEnabled(b, Act(TickAll))
    ensures Refined(b, TickAll)
  {
    GrownJobs(b);
    SameLoops(b.p.h.ws, GrownPool(b).h.ws, 0, b.p.jobs);
    hide Inv, PoolInv, SameJobs;
  }

  lemma ActRefines(b: BootPool, x: PoolAction)
    requires StartInv(b) && StepEnabled(b, Act(x)) && !TooEarly(b, Act(x))
    ensures var c := StepApply(b, Act(x));
            && StartInv(c) && PoolEnabled(GrownPool(b), x) && PoolApply(GrownPool(b), x) == GrownPool(c)
  {
    hide PoolInv, PoolApply, PoolEnabled, TooEarly;
    match x {
      case Step(a) => StepRefines(b, a);
      case Enqueue(j, timeout) => EnqueueRefines(b, j, timeout);
      case TakeNext => TakeNextRefines(b);
      case WorkerEnqueue(i, j, timeout) => WorkerEnqueueRefines(b, i, j, timeout);
      case Cancel(j) => CancelRefines(b, j);
      case TickAll => TickRefines(b);
    }
    PoolStepKeeps(GrownPool(b), x);
  }

  lemma StartStutters(b: BootPool, i: nat)
    requires StartInv(b) && StepEnabled(b, Start(i))
    ensures var c := StepApply(b, Start(i)); StartInv(c) && GrownPool(c) == GrownPool(b)
  {
    HandshakeInv(b);
    S.StartStutters(BootOf(b), i);
    hide PoolInv, Inv;
  }

  function Actions(steps: seq<BootStep>): seq<PoolAction> {
    if steps == [] then [] else (if steps[0].Act? then [steps[0].x] else []) + Actions(steps[1..])
  }

  /** A run from ThreadPool_init on in which the main thread is never early is, the start-up left out, one of the pool with
      all workers up. */
  lemma {:induction false} PoolStartupRefines(b: BootPool, steps: seq<BootStep>)
    requires StartInv(b) && TimelyRun(b, steps)
    ensures StartInv(BootAfter(b, steps))
    ensures PoolRun(GrownPool(b), Actions(steps))
    ensures PoolAfter(GrownPool(b), Actions(steps)) == GrownPool(BootAfter(b, steps))
    decreases |steps|
  {
    if steps != [] {
      var step, more := steps[0], Actions(steps[1..]);
      var c := StepApply(b, step);
      assert BootAfter(b, steps) == BootAfter(c, steps[1..]) && TimelyRun(c, steps[1..]);
      if step.Act? {
        ActRefines(b, step.x);
        assert Actions(steps) == [step.x] + more;
        assert ([step.x] + more)[1..] == more;
        hide StartInv, GrownPool, PoolEnabled, PoolApply, StepApply, StepEnabled, TooEarly, BootAfter;
        PoolStartupRefines(c, steps[1..]);
      } else {
        StartStutters(b, step.w);
        assert Actions(steps) == [] + more == more;
        hide *;
        PoolStartupRefines(c, steps[1..]);
      }
    }
  }

  /** So jobs are conserved from ThreadPool_init on. */
  lemma ConservedFromInit(n: nat, queuesize: nat, steps: seq<BootStep>, j: JobId)
    requires n > 0 && queuesize > 0 && TimelyRun(Init(n, queuesize), steps)
    ensures var p := BootAfter(Init(n, queuesize), steps).p; Ring.Valid(p.ring) && Accounted(p, j)
  {
    InitInv(n, queuesize);
    PoolStartupRefines(Init(n, queuesize), steps);
    var b := BootAfter(Init(n, queuesize), steps);
    InvAccounts(GrownPool(b), j);
    GrownJobs(b);
    SameLoops(b.p.h.ws, GrownPool(b).h.ws, j, map[]);
    hide PoolInv;
  }

  // ---------- coming to rest ----------

  function StartsLeft(stages: seq<S.Stage>): nat {
    if stages == [] then 0
    else (match stages[0] case Created => 2 case Cleared => 1 case Up => 0) + StartsLeft(stages[1..])
  }

  lemma {:induction false} OneStart(stages: seq<S.Stage>, i: nat, s: S.Stage)
    requires i < |stages| && s == (if stages[i].Created? then S.Cleared else S.Up) && !stages[i].Up?
    ensures StartsLeft(stages[i := s]) < StartsLeft(stages)
  {
    if i == 0 {
      assert stages[0 := s][1..] == stages[1..];
    } else {
      assert stages[i := s][1..] == stages[1..][i - 1 := s];
      OneStart(stages[1..], i - 1, s);
    }
  }

  /** No new request, cancellation or tick. */
  predicate OwnStep(step: BootStep) { step.Act? ==> Own(step.x) }

  ghost predicate Resting(b: BootPool) { forall step :: StepEnabled(b, step) ==> !OwnStep(step) }

  lemma RestingIsDone(b: BootPool)
    requires StartInv(b) && Resting(b)
    ensures forall j | j in b.p.jobs :: b.p.jobs[j].place.Finished? && b.p.jobs[j].raises == 1
  {
    forall i | 0 <= i < |b.stages| ensures b.stages[i].Up? {
      assert !StepEnabled(b, Start(i));
    }
    assert GrownPool(b).h.ws == b.p.h.ws;
    assert GrownPool(b) == b.p;
    forall x: PoolAction | PoolEnabled(b.p, x) ensures !Own(x) {
      assert StepEnabled(b, Act(x));
    }
    RestIsDone(b.p);
  }

  /** From ThreadPool_init on, in every schedule in which the main thread is never early: without new requests there are only
      finitely many steps, and when there are no more, every accepted job has finished. */
  lemma {:induction false} SettlesFromInit(b: BootPool, steps: seq<BootStep>)
    requires StartInv(b) && TimelyRun(b, steps) && forall k | 0 <= k < |steps| :: OwnStep(steps[k])
    ensures |steps| <= PoolMeasure(GrownPool(b)) + StartsLeft(b.stages)
    ensures var c := BootAfter(b, steps);
            && StartInv(c)
            && (Resting(c) ==> forall j | j in c.p.jobs :: c.p.jobs[j].place.Finished? && c.p.jobs[j].raises == 1)
    decreases |steps|
  {
    if steps == [] {
      MeasureAtLeastZero(b);
      if Resting(b) { RestingIsDone(b); }
    } else {
      assert OwnStep(steps[0]);
      OwnStepCounts(b, steps[0]);
      hide StartInv, PoolMeasure, GrownPool, StepApply, StepEnabled, TooEarly, Resting;
      SettlesFromInit(StepApply(b, steps[0]), steps[1..]);
    }
  }

  lemma MeasureAtLeastZero(b: BootPool)
    requires StartInv(b)
    ensures PoolMeasure(GrownPool(b)) >= 0
  {
    HandshakeLiveness.MeasureNonNegative(GrownPool(b).h);
  }

  lemma OwnStepCounts(b: BootPool, step: BootStep)
    requires StartInv(b) && StepEnabled(b, step) && !TooEarly(b, step) && OwnStep(step)
    ensures var c := StepApply(b, step);
            && StartInv(c)
            && PoolMeasure(GrownPool(c)) + StartsLeft(c.stages) < PoolMeasure(GrownPool(b)) + StartsLeft(b.stages)
  {
    match step {
      case Start(i) =>
        StartStutters(b, i);
        OneStart(b.stages, i, if b.stages[i].Created? then S.Cleared else S.Up);
      case Act(x) =>
        ActRefines(b, x);
        OwnStepSettles(GrownPool(b), x);
    }
  }
}
