/** Workers that are still starting (threadpool.c:75-106): what they may be asked to do, and what is lost on them. */
module HandshakeStartup {
  import opened ThreadJob
  import opened Wrappers
  import opened Handshake
  import opened HandshakeLiveness

  /** Created: has yet to clear stoprq (79). Cleared: has yet to lock startlock (80). Up: holds it, and goes on to 106. */
  datatype Stage = Created | Cleared | Up

  /** A worker that is not up has done nothing but that; its pc is the one it will go on with. */
  datatype Boot = Boot(h: State, stages: seq<Stage>)

  datatype Step = Start(w: nat) | Act(a: Action)

  const NEWBORN := Worker(LoopTest, Free, Free, 0, None, false)

  predicate BootEnabled(b: Boot, step: Step) {
    && |b.stages| == |b.h.ws|
    && match step
       case Start(i) => i < |b.stages| && (b.stages[i].Created? || (b.stages[i].Cleared? && b.h.ws[i].startlock == Free))
       case Act(a) => Enabled(b.h, a) && (a.WorkerStep? ==> b.stages[a.w].Up?)
  }

  function BootApply(b: Boot, step: Step): Boot
    requires BootEnabled(b, step)
  {
    match step
    case Start(i) =>
      if b.stages[i].Created? then Boot(State(b.h.ws[i := b.h.ws[i].(stoprq := false)], b.h.main), b.stages[i := Cleared])
      else Boot(State(b.h.ws[i := b.h.ws[i].(startlock := ByWorker)], b.h.main), b.stages[i := Up])
    case Act(a) => b.(h := Apply(b.h, a))
  }

  /** What ThreadPool_init leaves: threads that have been created, and the main thread in its event loop. */
  function BootInitial(n: nat): Boot { Boot(State(seq(n, _ => NEWBORN), EventLoop), seq(n, _ => Created)) }

  predicate BootRun(b: Boot, steps: seq<Step>)
    decreases |steps|
  {
    steps == [] || (BootEnabled(b, steps[0]) && BootRun(BootApply(b, steps[0]), steps[1..]))
  }

  function BootAfter(b: Boot, steps: seq<Step>): Boot
    requires BootRun(b, steps)
    decreases |steps|
  {
    if steps == [] then b else BootAfter(BootApply(b, steps[0]), steps[1..])
  }

  lemma Prepend(b: Boot, step: Step, steps: seq<Step>)
    requires BootEnabled(b, step) && BootRun(BootApply(b, step), steps)
    ensures BootRun(b, [step] + steps) && BootAfter(b, [step] + steps) == BootAfter(BootApply(b, step), steps)
  {
    assert ([step] + steps)[0] == step && ([step] + steps)[1..] == steps;
  }

  /** Four steps in a row, and the states between them. */
  predicate Chain(b: Boot, b1: Boot, b2: Boot, b3: Boot, w: Step, x: Step, y: Step, z: Step) {
    && BootEnabled(b, w) && b1 == BootApply(b, w) && BootEnabled(b1, x) && b2 == BootApply(b1, x)
    && BootEnabled(b2, y) && b3 == BootApply(b2, y) && BootEnabled(b3, z)
  }

  lemma FourSteps(b: Boot, b1: Boot, b2: Boot, b3: Boot, w: Step, x: Step, y: Step, z: Step)
    requires Chain(b, b1, b2, b3, w, x, y, z)
    ensures BootRun(b, [w, x, y, z]) && BootAfter(b, [w, x, y, z]) == BootApply(b3, z)
  {
    var c := BootApply(b3, z);
    assert BootRun(c, []) && BootAfter(c, []) == c;
    hide BootEnabled, BootApply;
    Prepend(b3, z, []);
    Prepend(b2, y, [z] + []);
    Prepend(b1, x, [y] + ([z] + []));
    Prepend(b, w, [x] + ([y] + ([z] + [])));
    assert [w] + ([x] + ([y] + ([z] + []))) == [w, x, y, z];
  }

  // ---------- runs in which every worker is found up ----------

  /** The main thread takes the startlock of a worker that is not up. */
  predicate Early(b: Boot, step: Step) {
    && step == Act(MainStep) && (b.h.main.StartLock? || b.h.main.StopLockStart?)
    && b.h.main.i < |b.stages| && !b.stages[b.h.main.i].Up?
  }

  predicate OnTime(b: Boot, steps: seq<Step>)
    requires BootRun(b, steps)
    decreases |steps|
  {
    steps == [] || (!Early(b, steps[0]) && OnTime(BootApply(b, steps[0]), steps[1..]))
  }

  /** The same with all workers up. */
  function Grown(b: Boot): State
    requires |b.stages| == |b.h.ws|
  {
    State(seq(|b.h.ws|, i requires 0 <= i < |b.h.ws| =>
      if b.stages[i].Up? then b.h.ws[i] else b.h.ws[i].(startlock := ByWorker)), b.h.main)
  }

  ghost predicate BootInv(b: Boot) {
    && |b.stages| == |b.h.ws| && Inv(Grown(b))
    && forall i | 0 <= i < |b.stages| && !b.stages[i].Up? :: b.h.ws[i] == NEWBORN
  }

  /** The actions of a run, without the starting of workers. */
  function Acts(steps: seq<Step>): seq<Action> {
    if steps == [] then [] else (if steps[0].Act? then [steps[0].a] else []) + Acts(steps[1..])
  }

  lemma BootInitialInv(n: nat)
    ensures BootInv(BootInitial(n))
  {}

  lemma StartStutters(b: Boot, i: nat)
    requires BootInv(b) && BootEnabled(b, Start(i))
    ensures BootInv(BootApply(b, Start(i))) && Grown(BootApply(b, Start(i))) == Grown(b)
  {
    var c := BootApply(b, Start(i));
    assert Grown(c).ws == Grown(b).ws;
    hide Inv;
  }

  lemma GrownEnabled(b: Boot, a: Action)
    requires BootInv(b) && BootEnabled(b, Act(a)) && !Early(b, Act(a))
    ensures Enabled(Grown(b), a)
  {
    hide Inv;
  }

  /** Nobody but the main thread, when it is early, touches a worker that is not up. */
  lemma NewbornsUntouched(b: Boot, a: Action, i: nat)
    requires BootInv(b) && BootEnabled(b, Act(a)) && Enabled(Grown(b), a) && i < |b.stages| && !b.stages[i].Up?
    ensures Apply(b.h, a).ws[i] == b.h.ws[i] && Apply(Grown(b), a).ws[i] == Grown(b).ws[i]
  {
    assert WorkerOk(Grown(b).ws[i], b.h.main, i);
  }

  lemma GrownApply(b: Boot, a: Action)
    requires BootInv(b) && BootEnabled(b, Act(a)) && Enabled(Grown(b), a)
    requires forall i | 0 <= i < |b.stages| && !b.stages[i].Up? ::
      Apply(b.h, a).ws[i] == b.h.ws[i] && Apply(Grown(b), a).ws[i] == Grown(b).ws[i]
    ensures |Apply(b.h, a).ws| == |b.h.ws| && Apply(Grown(b), a) == Grown(BootApply(b, Act(a)))
  {
    hide Inv;
    assert Apply(Grown(b), a).ws == Grown(BootApply(b, Act(a))).ws;
  }

  lemma ActRefines(b: Boot, a: Action)
    requires BootInv(b) && BootEnabled(b, Act(a)) && !Early(b, Act(a))
    ensures BootInv(BootApply(b, Act(a)))
    ensures Enabled(Grown(b), a) && Apply(Grown(b), a) == Grown(BootApply(b, Act(a)))
  {
    GrownEnabled(b, a);
    forall i | 0 <= i < |b.stages| && !b.stages[i].Up? 
      ensures Apply(b.h, a).ws[i] == b.h.ws[i] && Apply(Grown(b), a).ws[i] == Grown(b).ws[i]
    {
      NewbornsUntouched(b, a, i);
    }
    GrownApply(b, a);
    StepInv(Grown(b), a);
    hide Inv, Enabled, Apply;
  }

  /** Starting refines the handshake: a run in which the main thread is never early is, its start-up steps left out, one
      of the machine in which all workers are up. */
  lemma {:induction false} StartupRefines(b: Boot, steps: seq<Step>)
    requires BootInv(b) && BootRun(b, steps) && OnTime(b, steps)
    ensures BootInv(BootAfter(b, steps))
    ensures Run(Grown(b), Acts(steps)) && After(Grown(b), Acts(steps)) == Grown(BootAfter(b, steps))
    decreases |steps|
  {
    if steps != [] {
      var c, more := BootApply(b, steps[0]), Acts(steps[1..]);
      assert BootAfter(b, steps) == BootAfter(c, steps[1..]) && OnTime(c, steps[1..]);
      if steps[0].Act? {
        ActRefines(b, steps[0].a);
        assert Acts(steps) == [steps[0].a] + more;
        hide *;
        StartupRefines(c, steps[1..]);
        RunThen(Grown(b), steps[0].a, more);
      } else {
        StartStutters(b, steps[0].w);
        assert Acts(steps) == more;
        hide *;
        StartupRefines(c, steps[1..]);
      }
    }
  }

  /** So no signal is lost and no job pointer is raced from ThreadPool_init on, as long as the main thread is never early. */
  lemma SafeFromInit(n: nat, steps: seq<Step>)
    requires BootRun(BootInitial(n), steps) && OnTime(BootInitial(n), steps)
    ensures Safe(BootAfter(BootInitial(n), steps).h)
  {
    BootInitialInv(n);
    StartupRefines(BootInitial(n), steps);
    var b := BootAfter(BootInitial(n), steps);
    InvSafe(Grown(b));
    hide Inv;
    forall i | 0 <= i < |b.h.ws| ensures WorkerSafe(b.h, i) { assert WorkerSafe(Grown(b), i); }
  }

  // ---------- a job given too early ----------

  /** Worker `i` missed the signal of the job it was given, and waits for another one, or will, or leaves. */
  predicate Missed(b: Boot, i: nat) {
    && |b.stages| == |b.h.ws| && i < |b.stages|
    && var w, m := b.h.ws[i], b.h.main;
       && (w.pc.LoopTest? || w.pc.Rearm? || w.pc.Waiting? || Leaves(w.pc))
       && w.pipe == 0 && (w.job.Some? || (m.StartStore? && m.i == i))
       && (Subject(m) == Some(i) && InStart(m) ==>
             !m.StartLock? && w.startlock == ByMain && w.pc.LoopTest? && !b.stages[i].Up?)
       && (Subject(m) == Some(i) ==> InStart(m) || m.StopMark? || m.StopWait? || m.StopInWait?)
       && (CallerOf(m) != FromRaise(i))
  }

  lemma MissedMainStep(b: Boot, i: nat)
    requires Missed(b, i) && BootEnabled(b, Act(MainStep))
    ensures Missed(BootApply(b, Act(MainStep)), i)
  {}

  lemma MissedOtherStep(b: Boot, i: nat, step: Step)
    requires Missed(b, i) && BootEnabled(b, step) && step != Act(MainStep)
    ensures Missed(BootApply(b, step), i)
  {}

  lemma MissedStep(b: Boot, i: nat, step: Step)
    requires Missed(b, i) && BootEnabled(b, step)
    ensures Missed(BootApply(b, step), i)
  {
    hide Missed, BootEnabled, BootApply;
    if step == Act(MainStep) { MissedMainStep(b, i); } else { MissedOtherStep(b, i, step); }
  }

  lemma {:induction false} MissedRun(b: Boot, i: nat, steps: seq<Step>)
    requires Missed(b, i) && BootRun(b, steps)
    ensures Missed(BootAfter(b, steps), i)
    decreases |steps|
  {
    if steps != [] {
      MissedStep(b, i, steps[0]);
      MissedRun(BootApply(b, steps[0]), i, steps[1..]);
    }
  }

  /** Some schedule gets worker `i` to run its job. */
  ghost predicate CanRunJob(b: Boot, i: nat) {
    exists steps :: BootRun(b, steps) && i < |BootAfter(b, steps).h.ws| && BootAfter(b, steps).h.ws[i].pc.RunJob?
  }

  /** From here on, only this thread: startThreadJob up to its end, and then the worker up to the job. */
  lemma RunsJob(b: Boot, i: nat) returns (steps: seq<Step>)
    requires |b.stages| == |b.h.ws| && i < |b.stages| && b.stages[i].Up? && InRange(b.h)
    requires InStart(b.h.main) && Subject(b.h.main) == Some(i)
    requires ViewOk(b.h.ws[i], ViewOf(b.h.main, i)) && (b.h.main.StartLock? ==> b.h.ws[i].pc.Waiting?)
    ensures BootRun(b, steps) && i < |BootAfter(b, steps).h.ws| && BootAfter(b, steps).h.ws[i].pc.RunJob?
    decreases MainRank(b.h.main, 0) - CallerRank(CallerOf(b.h.main))
  {
    var main := Act(MainStep);
    var c := BootApply(b, main);
    var more;
    if b.h.main.StartUnlock? {
      var d := BootApply(c, Act(WorkerStep(i)));
      more := [Act(WorkerStep(i))] + ([Act(WorkerStep(i))] + []);
      Prepend(d, Act(WorkerStep(i)), []);
      Prepend(c, Act(WorkerStep(i)), [Act(WorkerStep(i))] + []);
    } else {
      more := RunsJob(c, i);
    }
    Prepend(b, main, more);
    steps := [main] + more;
  }

  /** When startThreadJob takes the worker's startlock, the job can run at all if and only if the worker is up by then. */
  lemma JobRunsExactly(b: Boot)
    requires BootInv(b) && b.h.main.StartLock? && BootEnabled(b, Act(MainStep))
    ensures CanRunJob(BootApply(b, Act(MainStep)), b.h.main.i) <==> b.stages[b.h.main.i].Up?
  {
    var i, c := b.h.main.i, BootApply(b, Act(MainStep));
    assert WorkerOk(Grown(b).ws[i], b.h.main, i);
    if b.stages[i].Up? {
      var steps := RunsJob(c, i);
    } else {
      forall steps | BootRun(c, steps) ensures Missed(BootAfter(c, steps), i) { MissedRun(c, i, steps); }
    }
  }

  // ---------- a stop that comes too early ----------

  /** stopThreads has got the startlock of worker `i` before it was up. */
  predicate StopClaims(b: Boot, i: nat) {
    && |b.stages| == |b.h.ws| && i < |b.stages| && !b.stages[i].Up?
    && b.h.main == StopMarkIdle(i) && b.h.ws[i] == NEWBORN.(startlock := ByMain)
  }

  lemma EarlyStopClaims(b: Boot)
    requires BootInv(b) && b.h.main.StopLockStart? && Early(b, Act(MainStep)) && BootEnabled(b, Act(MainStep))
    ensures StopClaims(BootApply(b, Act(MainStep)), b.h.main.i)
  {}

  lemma ClaimKept(b: Boot, i: nat, step: Step)
    requires StopClaims(b, i) && BootEnabled(b, step) && step != Act(MainStep)
    ensures StopClaims(BootApply(b, step), i)
  {}

  /** Others may go on, and so may the worker itself. */
  lemma {:induction false} ClaimKeptRun(b: Boot, i: nat, steps: seq<Step>)
    requires StopClaims(b, i) && BootRun(b, steps) && Act(MainStep) !in steps
    ensures StopClaims(BootAfter(b, steps), i)
    decreases |steps|
  {
    if steps != [] {
      ClaimKept(b, i, steps[0]);
      ClaimKeptRun(BootApply(b, steps[0]), i, steps[1..]);
    }
  }

  /** The worker clears stoprq after stopThreads has set it, and waits for a signal that was sent before. */
  predicate Forgotten(b: Boot, i: nat) {
    && |b.stages| == |b.h.ws| && i < |b.stages|
    && (b.h.main == StopSignal(i) || b.h.main == StopUnlockStart(i) || b.h.main == StopJoin(i))
    && (b.h.ws[i].pc.LoopTest? || b.h.ws[i].pc.Rearm? || b.h.ws[i].pc.Waiting?)
    && (b.stages[i].Created? || !b.h.ws[i].stoprq)
    && (!b.stages[i].Up? ==> b.h.ws[i].pc.LoopTest?)
    && (b.h.main != StopJoin(i) ==> !b.stages[i].Up? && b.h.ws[i].startlock == ByMain)
  }

  lemma ForgottenStep(b: Boot, i: nat, step: Step)
    requires Forgotten(b, i) && BootEnabled(b, step)
    ensures Forgotten(BootApply(b, step), i)
  {}

  lemma {:induction false} ForgottenRun(b: Boot, i: nat, steps: seq<Step>)
    requires Forgotten(b, i) && BootRun(b, steps)
    ensures Forgotten(BootAfter(b, steps), i)
    decreases |steps|
  {
    if steps != [] {
      ForgottenStep(b, i, steps[0]);
      ForgottenRun(BootApply(b, steps[0]), i, steps[1..]);
    }
  }

  /** Some schedule gets stopThreads past thread `i`. */
  ghost predicate CanJoin(b: Boot, i: nat) {
    exists steps :: BootRun(b, steps) && BootAfter(b, steps).h.main == StopTest(i + 1)
  }

  /** Worker `i` starts, sees stoprq, leaves, and is joined. */
  lemma LeavesAtOnce(b: Boot, i: nat) returns (steps: seq<Step>)
    requires |b.stages| == |b.h.ws| && i < |b.stages| && b.stages[i].Cleared?
    requires b.h.main == StopJoin(i) && b.h.ws[i] == NEWBORN.(stoprq := true)
    ensures BootRun(b, steps) && BootAfter(b, steps).h.main == StopTest(i + 1)
  {
    var main, worker := Act(MainStep), Act(WorkerStep(i));
    var c := BootApply(b, Start(i));
    var d := BootApply(c, worker);
    var e := BootApply(d, worker);
    assert BootEnabled(e, main) && BootApply(e, main).h.main == StopTest(i + 1);
    FourSteps(b, c, d, e, Start(i), worker, worker, main);
    steps := [Start(i), worker, worker, main];
  }

  lemma ClearedJoins(b: Boot, i: nat)
    requires StopClaims(b, i) && b.stages[i].Cleared? && BootEnabled(b, Act(MainStep))
    ensures CanJoin(BootApply(b, Act(MainStep)), i)
  {
    var main := Act(MainStep);
    var c := BootApply(b, main);
    var d := BootApply(c, main);
    var e := BootApply(d, main);
    var steps := LeavesAtOnce(e, i);
    assert BootEnabled(c, main) && BootEnabled(d, main);
    hide BootEnabled, BootApply, StopClaims;
    Prepend(d, main, steps);
    Prepend(c, main, [main] + steps);
  }

  lemma MarkJoinsExactly(b: Boot, i: nat)
    requires StopClaims(b, i)
    ensures BootEnabled(b, Act(MainStep))
    ensures CanJoin(BootApply(b, Act(MainStep)), i) <==> b.stages[i].Cleared?
  {
    var c := BootApply(b, Act(MainStep));
    if b.stages[i].Cleared? {
      ClearedJoins(b, i);
    } else {
      forall steps | BootRun(c, steps) ensures Forgotten(BootAfter(c, steps), i) { ForgottenRun(c, i, steps); }
    }
  }

  /** stopThreads takes the startlock of a worker that is not up. Whatever `others` do then, when it comes to set stoprq it
      can still get past that worker if and only if the worker has done its own write to stoprq by then. */
  lemma StopJoinsExactly(b: Boot, others: seq<Step>)
    requires BootInv(b) && b.h.main.StopLockStart? && Early(b, Act(MainStep)) && BootEnabled(b, Act(MainStep))
    requires BootRun(BootApply(b, Act(MainStep)), others) && Act(MainStep) !in others
    ensures var i, c := b.h.main.i, BootAfter(BootApply(b, Act(MainStep)), others);
            && i < |c.stages| && c.h.main == StopMarkIdle(i) && BootEnabled(c, Act(MainStep))
            && (CanJoin(BootApply(c, Act(MainStep)), i) <==> c.stages[i].Cleared?)
  {
    EarlyStopClaims(b);
    var i, c := b.h.main.i, BootApply(b, Act(MainStep));
    hide BootInv, CanJoin, BootApply, BootEnabled, BootRun;
    ClaimKeptRun(c, i, others);
    MarkJoinsExactly(BootAfter(c, others), i);
  }

  // ---------- both do happen ----------

  /** A job enqueued before its thread has locked startlock never runs. */
  lemma FirstJobCanBeLost(n: nat, j: JobId)
    requires n > 0
    ensures var steps := [Act(Begin(0, j)), Act(MainStep)];
            BootRun(BootInitial(n), steps) && !CanRunJob(BootAfter(BootInitial(n), steps), 0)
  {
    var b := BootInitial(n);
    BootInitialInv(n);
    ActRefines(b, Begin(0, j));
    var c := BootApply(b, Act(Begin(0, j)));
    JobRunsExactly(c);
    Prepend(c, Act(MainStep), []);
    Prepend(b, Act(Begin(0, j)), [Act(MainStep)] + []);
    assert [Act(Begin(0, j))] + ([Act(MainStep)] + []) == [Act(Begin(0, j)), Act(MainStep)];
  }

  /** A stop before a thread has cleared its stoprq never returns. */
  lemma EarlyStopCanHang(n: nat)
    requires n > 0
    ensures var steps := [Act(StopAll), Act(MainStep), Act(MainStep), Act(MainStep)];
            BootRun(BootInitial(n), steps) && !CanJoin(BootAfter(BootInitial(n), steps), 0)
  {
    var main := Act(MainStep);
    var b := BootInitial(n);
    var c := BootApply(b, Act(StopAll));
    var d := BootApply(c, main);
    var e := BootApply(d, main);
    assert StopClaims(e, 0);
    MarkJoinsExactly(e, 0);
    hide CanJoin;
    FourSteps(b, c, d, e, Act(StopAll), main, main, main);
  }
}
