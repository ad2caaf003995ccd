/** The start/done handshake between the main thread and the workers of threadpool.c,
    at the granularity of single lock, wait, signal and pipe operations.
    A state holds any number of workers; every interleaving is a sequence of `Action`s. */
module Handshake {
  import opened ThreadJob
  import opened Wrappers

  /** Where a worker stands in `worker` (threadpool.c:106-120). */
  datatype WorkerPc =
    | Waiting     // 109, inside pthread_cond_wait: startlock released
    | Woken       // 109, signalled, startlock not yet reacquired
    | Check       // 110
    | RunJob      // 111
    | WritePipe   // 113
    | LockDone    // 114
    | SignalDone  // 115
    | UnlockDone  // 116
    | LoopTest    // 106
    | Rearm       // 109, about to wait
    | Leaving     // 119
    | Gone        // 120

  datatype Owner = Free | ByMain | ByWorker

  /** The fields of `Thread` that the handshake uses, plus the bytes in its pipe. */
  datatype Worker = Worker(
    pc: WorkerPc, startlock: Owner, donelock: Owner, pipe: nat, job: Option<JobId>, stoprq: bool)

  /** `startThreadJob` is called from the event loop, or by a handler of the `finished`
      event that `threadJobDone` raises for worker `k`. */
  datatype Caller = FromLoop | FromRaise(k: nat)

  /** Where the main thread stands. */
  datatype MainPc =
    | EventLoop
    // startThreadJob, 230-234
    | StartLock(i: nat, j: JobId, caller: Caller)
    | StartStore(i: nat, j: JobId, caller: Caller)
    | StartSignal(i: nat, caller: Caller)
    | StartLockDone(i: nat, caller: Caller)
    | StartUnlock(i: nat, caller: Caller)
    // threadJobDone, 244-270
    | ReadPipe(i: nat)
    | WaitDone(i: nat)     // 256, about to wait
    | InWaitDone(i: nat)   // 256, donelock released
    | WokenDone(i: nat)    // 256, donelock not yet reacquired
    | Raise(i: nat)        // 265, about to raise `finished`
    | Raising(i: nat)      // 265, inside the handlers of `finished`
    | UnlockAfter(i: nat)  // 268
    | Dequeue(i: nat)      // 269
    // stopThreads, 160-179
    | StopTest(i: nat)         // 160-164
    | StopMark(i: nat)         // 166
    | StopWait(i: nat)         // 168, about to wait
    | StopInWait(i: nat)       // 168, donelock released
    | StopWoken(i: nat)        // 168, donelock not yet reacquired
    | StopUnlockDone(i: nat)   // 169
    | StopLockStart(i: nat)    // 173
    | StopMarkIdle(i: nat)     // 174
    | StopSignal(i: nat)       // 175
    | StopUnlockStart(i: nat)  // 176
    | StopJoin(i: nat)         // 179
    | Stopped

  datatype State = State(ws: seq<Worker>, main: MainPc)

  /** One atomic step. `Begin`, `Ready`, `StopAll` and `EndRaise` are the choices the event loop and
      its handlers make; `Next` carries what `dequeueJob` returned. */
  datatype Action =
    | WorkerStep(w: nat)
    | MainStep
    | Begin(t: nat, job: JobId)
    | Ready(t: nat)
    | EndRaise
    | Next(next: Option<JobId>)
    | StopAll

  /** The worker the main thread is dealing with. */
  function Subject(m: MainPc): Option<nat> {
    match m
    case EventLoop => None
    case Stopped => None
    case StartLock(i, _, _) => Some(i)
    case StartStore(i, _, _) => Some(i)
    case StartSignal(i, _) => Some(i)
    case StartLockDone(i, _) => Some(i)
    case StartUnlock(i, _) => Some(i)
    case StopTest(i) => None
    case _ => Some(m.i)
  }

  function CallerOf(m: MainPc): Caller {
    match m
    case StartLock(_, _, c) => c
    case StartStore(_, _, c) => c
    case StartSignal(_, c) => c
    case StartLockDone(_, c) => c
    case StartUnlock(_, c) => c
    case _ => FromLoop
  }

  predicate InRange(s: State) {
    && (Subject(s.main).Some? ==> Subject(s.main).value < |s.ws|)
    && (CallerOf(s.main).FromRaise? ==> CallerOf(s.main).k < |s.ws|)
    && (s.main.StopTest? ==> s.main.i <= |s.ws|)
  }

  function Return(c: Caller): MainPc {
    match c
    case FromLoop => EventLoop
    case FromRaise(k) => Raising(k)
  }

  predicate CanStep(w: Worker) {
    match w.pc
    case Waiting => false
    case Woken => w.startlock == Free
    case LockDone => w.donelock == Free
    case Gone => false
    case _ => true
  }

  /** What a worker's next operation does to its own `Thread` record. */
  function StepOf(w: Worker): Worker
    requires CanStep(w)
  {
    match w.pc
    case Woken => w.(pc := Check, startlock := ByWorker)
    case Check => w.(pc := if w.stoprq then Leaving else RunJob)
    case RunJob => w.(pc := WritePipe)
    case WritePipe => w.(pc := LockDone, pipe := w.pipe + 1)
    case LockDone => w.(pc := SignalDone, donelock := ByWorker)
    case SignalDone => w.(pc := UnlockDone)
    case UnlockDone => w.(pc := LoopTest, donelock := Free)
    case LoopTest => w.(pc := if w.stoprq then Leaving else Rearm)
    case Rearm => w.(pc := Waiting, startlock := Free)
    case Leaving => w.(pc := Gone, startlock := Free)
  }

  /** pthread_cond_signal(&t->done): wakes the main thread if it waits for worker `i`, and is lost otherwise. */
  function SignalDoneTo(m: MainPc, i: nat): MainPc {
    if m == InWaitDone(i) then WokenDone(i) else if m == StopInWait(i) then StopWoken(i) else m
  }

  predicate WorkerEnabled(s: State, i: nat)
    requires i < |s.ws|
  {
    CanStep(s.ws[i])
  }

  function WorkerNext(s: State, i: nat): State
    requires i < |s.ws| && WorkerEnabled(s, i)
  {
    State(s.ws[i := StepOf(s.ws[i])],
      if s.ws[i].pc.SignalDone? then SignalDoneTo(s.main, i) else s.main)
  }

  predicate MainEnabled(s: State)
    requires InRange(s)
  {
    match s.main
    case EventLoop => false
    case StartLock(i, _, _) => s.ws[i].startlock == Free
    case StartLockDone(i, _) => s.ws[i].donelock == Free
    case InWaitDone(_) => false
    case WokenDone(i) => s.ws[i].donelock == Free
    case Raising(_) => false
    case Dequeue(_) => false
    case StopInWait(_) => false
    case StopWoken(i) => s.ws[i].donelock == Free
    case StopLockStart(i) => s.ws[i].startlock == Free
    case StopJoin(i) => s.ws[i].pc == Gone
    case Stopped => false
    case _ => true
  }

  /** pthread_cond_signal(&t->start): wakes the worker if it waits, and is lost otherwise. */
  function SignalStart(w: Worker): Worker {
    if w.pc == Waiting then w.(pc := Woken) else w
  }

  function MainNext(s: State): State
    requires InRange(s) && MainEnabled(s)
  {
    match s.main
    case StartLock(i, j, c) => State(s.ws[i := s.ws[i].(startlock := ByMain)], StartStore(i, j, c))
    case StartStore(i, j, c) => State(s.ws[i := s.ws[i].(job := Some(j))], StartSignal(i, c))
    case StartSignal(i, c) => State(s.ws[i := SignalStart(s.ws[i])], StartLockDone(i, c))
    case StartLockDone(i, c) => State(s.ws[i := s.ws[i].(donelock := ByMain)], StartUnlock(i, c))
    case StartUnlock(i, c) => State(s.ws[i := s.ws[i].(startlock := Free)], Return(c))
    case ReadPipe(i) => State(s.ws[i := s.ws[i].(pipe := 0)], WaitDone(i))
    case WaitDone(i) => State(s.ws[i := s.ws[i].(donelock := Free)], InWaitDone(i))
    case WokenDone(i) => State(s.ws[i := s.ws[i].(donelock := ByMain)], Raise(i))
    case Raise(i) => s.(main := Raising(i))
    case UnlockAfter(i) => State(s.ws[i := s.ws[i].(donelock := Free)], Dequeue(i))
    case StopTest(i) =>
      s.(main := if i == |s.ws| then Stopped
                 else if s.ws[i].job.Some? then StopMark(i) else StopLockStart(i))
    case StopMark(i) => State(s.ws[i := s.ws[i].(stoprq := true)], StopWait(i))
    case StopWait(i) => State(s.ws[i := s.ws[i].(donelock := Free)], StopInWait(i))
    case StopWoken(i) => State(s.ws[i := s.ws[i].(donelock := ByMain)], StopUnlockDone(i))
    case StopUnlockDone(i) => State(s.ws[i := s.ws[i].(donelock := Free)], StopJoin(i))
    case StopLockStart(i) => State(s.ws[i := s.ws[i].(startlock := ByMain)], StopMarkIdle(i))
    case StopMarkIdle(i) => State(s.ws[i := s.ws[i].(stoprq := true)], StopSignal(i))
    case StopSignal(i) => State(s.ws[i := SignalStart(s.ws[i])], StopUnlockStart(i))
    case StopUnlockStart(i) => State(s.ws[i := s.ws[i].(startlock := Free)], StopJoin(i))
    case StopJoin(i) => s.(main := StopTest(i + 1))
  }

  predicate Enabled(s: State, a: Action) {
    && InRange(s)
    && match a
       case WorkerStep(i) => i < |s.ws| && WorkerEnabled(s, i)
       case MainStep => MainEnabled(s)
       case Begin(i, _) =>
         // availableThread found a thread without a job
         (s.main.EventLoop? || s.main.Raising?) && i < |s.ws| && s.ws[i].job.None?
       case Ready(i) => s.main.EventLoop? && i < |s.ws| && s.ws[i].pipe > 0
       case EndRaise => s.main.Raising?
       case Next(_) => s.main.Dequeue?
       case StopAll => s.main.EventLoop?
  }

  function Apply(s: State, a: Action): State
    requires Enabled(s, a)
  {
    match a
    case WorkerStep(i) => WorkerNext(s, i)
    case MainStep => MainNext(s)
    case Begin(i, j) =>
      s.(main := StartLock(i, j, if s.main.Raising? then FromRaise(s.main.i) else FromLoop))
    case Ready(i) => s.(main := ReadPipe(i))
    case EndRaise =>
      State(s.ws[s.main.i := s.ws[s.main.i].(job := None)], UnlockAfter(s.main.i))
    case Next(next) =>
      s.(main := if next.Some? then StartLock(s.main.i, next.value, FromLoop) else EventLoop)
    case StopAll => s.(main := StopTest(0))
  }

  /** Every worker in its first wait, no job, the main thread in its event loop. */
  function Initial(n: nat): State {
    State(seq(n, _ => Worker(Waiting, Free, Free, 0, None, false)), EventLoop)
  }

  predicate Run(s: State, acts: seq<Action>)
    decreases |acts|
  {
    acts == [] || (Enabled(s, acts[0]) && Run(Apply(s, acts[0]), acts[1..]))
  }

  function After(s: State, acts: seq<Action>): State
    requires Run(s, acts)
    decreases |acts|
  {
    if acts == [] then s else After(Apply(s, acts[0]), acts[1..])
  }

  // ---------- the inductive invariant ----------

  /** How far the main thread has got with one worker. */
  datatype View =
    | Away                                                // not dealing with it
    | Idle                                                // about to start or stop it, no job
    | Busy                                                // it has a job
    | Held(woken: bool, done: Owner, job: bool, stop: bool)  // main holds startlock
    | Reported                                            // its completion byte is in the pipe
    | Collected                                           // the byte was read
    | Awaited(stop: bool)                                 // main waits for `done`
    | Heard                                               // `done` was signalled
    | Settled(done: Owner, job: bool)                     // past its unlock of donelock
    | Marked                                              // stoprq set while it had a job
    | Ending(done: Owner)                                 // stopping, after `done`
    | Joining
    | Absent

  function CallerView(c: Caller, i: nat): View {
    if c == FromRaise(i) then Settled(ByMain, true) else Away
  }

  function StopRest(k: nat, i: nat): View { if i < k then Absent else Away }

  function ViewOf(m: MainPc, i: nat): View {
    match m
    case EventLoop => Away
    case StartLock(k, _, c) => if i == k then Idle else CallerView(c, i)
    case StartStore(k, _, c) => if i == k then Held(false, Free, false, false) else CallerView(c, i)
    case StartSignal(k, c) => if i == k then Held(false, Free, true, false) else CallerView(c, i)
    case StartLockDone(k, c) => if i == k then Held(true, Free, true, false) else CallerView(c, i)
    case StartUnlock(k, c) => if i == k then Held(true, ByMain, true, false) else CallerView(c, i)
    case ReadPipe(k) => if i == k then Reported else Away
    case WaitDone(k) => if i == k then Collected else Away
    case InWaitDone(k) => if i == k then Awaited(false) else Away
    case WokenDone(k) => if i == k then Heard else Away
    case Raise(k) => if i == k then Settled(ByMain, true) else Away
    case Raising(k) => if i == k then Settled(ByMain, true) else Away
    case UnlockAfter(k) => if i == k then Settled(ByMain, false) else Away
    case Dequeue(k) => if i == k then Idle else Away
    case StopTest(k) => StopRest(k, i)
    case StopMark(k) => if i == k then Busy else StopRest(k, i)
    case StopWait(k) => if i == k then Marked else StopRest(k, i)
    case StopInWait(k) => if i == k then Awaited(true) else StopRest(k, i)
    case StopWoken(k) => if i == k then Ending(Free) else StopRest(k, i)
    case StopUnlockDone(k) => if i == k then Ending(ByMain) else StopRest(k, i)
    case StopLockStart(k) => if i == k then Idle else StopRest(k, i)
    case StopMarkIdle(k) => if i == k then Held(false, Free, false, false) else StopRest(k, i)
    case StopSignal(k) => if i == k then Held(false, Free, false, true) else StopRest(k, i)
    case StopUnlockStart(k) => if i == k then Held(true, Free, false, true) else StopRest(k, i)
    case StopJoin(k) => if i == k then Joining else StopRest(k, i)
    case Stopped => Absent
  }

  /** The worker holds startlock except while it waits (109) or has yet to wake up. */
  function OwnStartlock(pc: WorkerPc): Owner {
    if pc.Waiting? || pc.Woken? || pc.Gone? then Free else ByWorker
  }

  predicate Rearming(pc: WorkerPc) { pc.LoopTest? || pc.Rearm? || pc.Waiting? }

  predicate Working(pc: WorkerPc) { pc.Woken? || pc.Check? || pc.RunJob? || pc.WritePipe? || pc.LockDone? }

  predicate Leaves(pc: WorkerPc) { pc.Leaving? || pc.Gone? }

  function PipeOf(pc: WorkerPc): nat { if pc.LockDone? then 1 else 0 }

  predicate IdleOk(w: Worker) {
    && Rearming(w.pc) && w.startlock == OwnStartlock(w.pc)
    && w.donelock == Free && w.pipe == 0 && w.job.None? && !w.stoprq
  }

  predicate BusyOk(w: Worker) {
    && Working(w.pc) && w.startlock == OwnStartlock(w.pc)
    && w.donelock == ByMain && w.pipe == PipeOf(w.pc) && w.job.Some? && !w.stoprq
  }

  /** What holds of a worker in each view. */
  predicate ViewOk(w: Worker, v: View) {
    && (v.Held? || w.startlock == OwnStartlock(w.pc))
    && match v
       case Away => if w.job.None? then IdleOk(w) else BusyOk(w)
       case Idle => IdleOk(w)
       case Busy => BusyOk(w)
       case Held(woken, done, job, stop) =>
         && w.pc == (if woken then Woken else Waiting) && w.startlock == ByMain && w.donelock == done
         && w.pipe == 0 && w.job.Some? == job && w.stoprq == stop
       case Reported => BusyOk(w) && w.pc.LockDone?
       case Collected => w.pc.LockDone? && w.donelock == ByMain && w.pipe == 0 && w.job.Some? && !w.stoprq
       case Awaited(stop) =>
         && w.job.Some? && w.stoprq == stop
         && (w.pc.SignalDone? || w.pc.LockDone? || (stop && (Working(w.pc) || Leaves(w.pc))))
         && w.donelock == (if w.pc.SignalDone? then ByWorker else Free)
         && (stop || w.pipe == 0)
         && (w.pc.LockDone? || w.pc.SignalDone? || w.pipe == 0) && w.pipe <= 1
       case Heard =>
         && w.pipe == 0 && w.job.Some? && !w.stoprq
         && (if w.pc.UnlockDone? then w.donelock == ByWorker else Rearming(w.pc) && w.donelock == Free)
       case Settled(done, job) =>
         Rearming(w.pc) && w.donelock == done && w.pipe == 0 && w.job.Some? == job && !w.stoprq
       case Marked =>
         && w.job.Some? && w.stoprq && w.donelock == ByMain
         && (Working(w.pc) || Leaves(w.pc)) && w.pipe == PipeOf(w.pc)
       case Ending(done) =>
         && w.stoprq && w.pipe <= 1
         && (if w.pc.UnlockDone? then w.donelock == ByWorker && done == Free
             else (w.pc.LoopTest? || Leaves(w.pc)) && w.donelock == done)
       case Joining =>
         w.stoprq && (w.pc.Woken? || w.pc.Check? || w.pc.LoopTest? || Leaves(w.pc)) && w.donelock == Free && w.pipe <= 1
       case Absent => w.pc.Gone? && w.pipe <= 1
  }

  predicate WorkerOk(w: Worker, m: MainPc, i: nat) { ViewOk(w, ViewOf(m, i)) }

  ghost predicate Inv(s: State) {
    && InRange(s)
    && (Subject(s.main).Some? ==> CallerOf(s.main) != FromRaise(Subject(s.main).value))
    && forall i | 0 <= i < |s.ws| :: WorkerOk(s.ws[i], s.main, i)
  }

  lemma InitialInv(n: nat)
    ensures Inv(Initial(n))
  {}

  /** A worker's own step keeps its view, except that a heard signal turns `Awaited` into `Heard` or `Ending`. */
  lemma OwnStepOk(w: Worker, v: View)
    requires ViewOk(w, v) && CanStep(w)
    ensures w.pc.SignalDone? ==> v.Awaited?
    ensures w.pc.SignalDone? && v == Awaited(false) ==> ViewOk(StepOf(w), Heard)
    ensures w.pc.SignalDone? && v == Awaited(true) ==> ViewOk(StepOf(w), Ending(Free))
    ensures !w.pc.SignalDone? ==> ViewOk(StepOf(w), v)
  {}

  lemma WorkerStepInv(s: State, i: nat)
    requires Inv(s) && i < |s.ws| && WorkerEnabled(s, i)
    ensures Inv(WorkerNext(s, i))
  {
    assert WorkerOk(s.ws[i], s.main, i);
    OwnStepOk(s.ws[i], ViewOf(s.main, i));
    var t := WorkerNext(s, i);
    forall k | 0 <= k < |t.ws| ensures WorkerOk(t.ws[k], t.main, k) {
      assert WorkerOk(s.ws[k], s.main, k);
    }
  }

  predicate InStart(m: MainPc) {
    m.StartLock? || m.StartStore? || m.StartSignal? || m.StartLockDone? || m.StartUnlock?
  }

  predicate InStopBusy(m: MainPc) {
    m.StopTest? || m.StopMark? || m.StopWait? || m.StopInWait? || m.StopWoken? || m.StopUnlockDone?
  }

  predicate InStop(m: MainPc) {
    || InStopBusy(m)
    || m.StopLockStart? || m.StopMarkIdle? || m.StopSignal? || m.StopUnlockStart? || m.StopJoin? || m.Stopped?
  }

  lemma StartStepOk(s: State, k: nat)
    requires Inv(s) && MainEnabled(s) && InStart(s.main) && k < |s.ws|
    ensures WorkerOk(MainNext(s).ws[k], MainNext(s).main, k)
  {
    assert WorkerOk(s.ws[k], s.main, k);
  }

  lemma DoneStepOk(s: State, k: nat)
    requires Inv(s) && MainEnabled(s) && !InStart(s.main) && !InStop(s.main) && k < |s.ws|
    ensures WorkerOk(MainNext(s).ws[k], MainNext(s).main, k)
  {
    assert WorkerOk(s.ws[k], s.main, k);
  }

  lemma StopBusyStepOk(s: State, k: nat)
    requires Inv(s) && MainEnabled(s) && k < |s.ws|
    requires InStopBusy(s.main)
    ensures WorkerOk(MainNext(s).ws[k], MainNext(s).main, k)
  {
    assert WorkerOk(s.ws[k], s.main, k);
  }

  lemma StopIdleStepOk(s: State, k: nat)
    requires Inv(s) && MainEnabled(s) && k < |s.ws|
    requires InStop(s.main) && !InStopBusy(s.main)
    ensures WorkerOk(MainNext(s).ws[k], MainNext(s).main, k)
  {
    assert WorkerOk(s.ws[k], s.main, k);
  }

  lemma MainStepInv(s: State)
    requires Inv(s) && MainEnabled(s)
    ensures Inv(MainNext(s))
  {
    var t := MainNext(s);
    forall k | 0 <= k < |t.ws| ensures WorkerOk(t.ws[k], t.main, k) {
      if InStart(s.main) { StartStepOk(s, k); }
      else if !InStop(s.main) { DoneStepOk(s, k); }
      else if InStopBusy(s.main) {
        StopBusyStepOk(s, k);
      } else {
        StopIdleStepOk(s, k);
      }
    }
  }

  lemma BeginInv(s: State, i: nat, j: JobId)
    requires Inv(s) && Enabled(s, Begin(i, j))
    ensures Inv(Apply(s, Begin(i, j)))
  {
    var t := Apply(s, Begin(i, j));
    if s.main.Raising? { assert WorkerOk(s.ws[s.main.i], s.main, s.main.i); }
    forall k | 0 <= k < |t.ws| ensures WorkerOk(t.ws[k], t.main, k) {
      assert WorkerOk(s.ws[k], s.main, k);
    }
  }

  lemma ChoiceInv(s: State, a: Action)
    requires Inv(s) && Enabled(s, a) && (a.Ready? || a.EndRaise? || a.Next? || a.StopAll?)
    ensures Inv(Apply(s, a))
  {
    var t := Apply(s, a);
    forall k | 0 <= k < |t.ws| ensures WorkerOk(t.ws[k], t.main, k) {
      assert WorkerOk(s.ws[k], s.main, k);
    }
  }

  /** Every step of every thread keeps the invariant. */
  lemma StepInv(s: State, a: Action)
    requires Inv(s) && Enabled(s, a)
    ensures Inv(Apply(s, a))
  {
    match a
    case WorkerStep(i) => WorkerStepInv(s, i);
    case MainStep => MainStepInv(s);
    case Begin(i, j) => BeginInv(s, i, j);
    case _ => ChoiceInv(s, a);
  }

  lemma {:induction false} RunInv(s: State, acts: seq<Action>)
    requires Inv(s) && Run(s, acts)
    ensures Inv(After(s, acts))
    decreases |acts|
  {
    if acts != [] {
      StepInv(s, acts[0]);
      RunInv(Apply(s, acts[0]), acts[1..]);
    }
  }
}
