/** What the invariant of `Handshake` gives: no signal is lost, no job pointer is raced,
    every operation of the main thread returns, and exactly when stopThreads does. */
module HandshakeLiveness {
  import opened ThreadJob
  import opened Wrappers
  import opened Handshake

  // ---------- safety over whole runs ----------

  /** Operations find their partner: signals are heard, locks are released by their owner,
      main writes `t->job` only while the worker cannot read it, a pipe holds at most one byte. */
  ghost predicate Safe(s: State) {
    && InRange(s)
    && (s.main.StartSignal? || s.main.StopSignal? ==> s.ws[s.main.i].pc == Waiting)
    && (s.main.StartStore? || s.main.Raising? ==> Rearming(s.ws[s.main.i].pc))
    && (s.main.StartSignal? || s.main.StartUnlock? || s.main.StopSignal? || s.main.StopUnlockStart? ==>
          s.ws[s.main.i].startlock == ByMain)
    && (s.main.WaitDone? || s.main.UnlockAfter? || s.main.StopWait? || s.main.StopUnlockDone? ==>
          s.ws[s.main.i].donelock == ByMain)
    && forall i | 0 <= i < |s.ws| :: WorkerSafe(s, i)
  }

  predicate WorkerSafe(s: State, i: nat)
    requires i < |s.ws|
  {
    var w := s.ws[i];
    && w.pipe <= 1
    && (w.pc.SignalDone? ==> s.main == InWaitDone(i) || s.main == StopInWait(i))
    && (w.pc.SignalDone? || w.pc.UnlockDone? ==> w.donelock == ByWorker)
    && (w.pc.Rearm? || w.pc.Leaving? ==> w.startlock == ByWorker)
    && (w.pc.RunJob? ==> w.job.Some?)
  }

  lemma InvSafe(s: State)
    requires Inv(s)
    ensures Safe(s)
  {
    if Subject(s.main).Some? { assert WorkerOk(s.ws[Subject(s.main).value], s.main, Subject(s.main).value); }
    forall i | 0 <= i < |s.ws| ensures WorkerSafe(s, i) {
      assert WorkerOk(s.ws[i], s.main, i);
    }
  }

  /** No lost wakeup and no race on `t->job`, in every interleaving of main and any number of workers. */
  lemma NoLostWakeup(n: nat, acts: seq<Action>)
    requires Run(Initial(n), acts)
    ensures Safe(After(Initial(n), acts))
  {
    InitialInv(n);
    RunInv(Initial(n), acts);
    InvSafe(After(Initial(n), acts));
  }

  // ---------- a measure every unforced step decreases ----------

  /** The event loop's decisions; everything else is a step of an operation under way. */
  predicate Choice(a: Action) { a.Begin? || a.Ready? || a.StopAll? }

  function WorkerRank(pc: WorkerPc): nat {
    match pc
    case Woken => 9
    case Check => 8
    case RunJob => 7
    case WritePipe => 6
    case LockDone => 5
    case SignalDone => 4
    case UnlockDone => 3
    case LoopTest => 2
    case Rearm => 1
    case Leaving => 1
    case Waiting => 0
    case Gone => 0
  }

  function CallerRank(c: Caller): nat { if c.FromRaise? then 17 else 0 }

  function MainRank(m: MainPc, n: nat): int {
    match m
    case EventLoop => 0
    case StartUnlock(_, c) => CallerRank(c) + 1
    case StartLockDone(_, c) => CallerRank(c) + 2
    case StartSignal(_, c) => CallerRank(c) + 12
    case StartStore(_, _, c) => CallerRank(c) + 13
    case StartLock(_, _, c) => CallerRank(c) + 14
    case Dequeue(_) => 15
    case UnlockAfter(_) => 16
    case Raising(_) => 17
    case Raise(_) => 18
    case WokenDone(_) => 19
    case InWaitDone(_) => 20
    case WaitDone(_) => 21
    case ReadPipe(_) => 22
    case Stopped => 0
    case StopTest(i) => 30 * (n - i) + 1
    case StopMark(i) => 30 * (n - i) - 20
    case StopWait(i) => 30 * (n - i) - 21
    case StopInWait(i) => 30 * (n - i) - 22
    case StopWoken(i) => 30 * (n - i) - 23
    case StopUnlockDone(i) => 30 * (n - i) - 24
    case StopLockStart(i) => 30 * (n - i) - 10
    case StopMarkIdle(i) => 30 * (n - i) - 11
    case StopSignal(i) => 30 * (n - i) - 12
    case StopUnlockStart(i) => 30 * (n - i) - 25
    case StopJoin(i) => 30 * (n - i) - 26
  }

  function WorkerRanks(ws: seq<Worker>): nat {
    if ws == [] then 0 else WorkerRank(ws[0].pc) + WorkerRanks(ws[1..])
  }

  function Measure(s: State): int { MainRank(s.main, |s.ws|) + WorkerRanks(s.ws) }

  lemma {:induction false} RanksUpdate(ws: seq<Worker>, i: nat, w: Worker)
    requires i < |ws|
    ensures WorkerRanks(ws[i := w]) == WorkerRanks(ws) - WorkerRank(ws[i].pc) + WorkerRank(w.pc)
  {
    if i == 0 {
      assert ws[0 := w][1..] == ws[1..];
    } else {
      assert ws[i := w][1..] == ws[1..][i - 1 := w];
      RanksUpdate(ws[1..], i - 1, w);
    }
  }

  lemma MeasureNonNegative(s: State)
    requires InRange(s)
    ensures Measure(s) >= 0
  {}

  lemma WorkerStepDecreases(s: State, i: nat)
    requires Inv(s) && i < |s.ws| && WorkerEnabled(s, i)
    ensures Measure(WorkerNext(s, i)) < Measure(s)
  {
    RanksUpdate(s.ws, i, StepOf(s.ws[i]));
  }

  /** A signal can lift one worker from rank 0 to rank 9. */
  function SignalRank(m: MainPc): nat { if m.StartSignal? || m.StopSignal? then 9 else 0 }

  lemma MainRankDrops(s: State)
    requires InRange(s) && MainEnabled(s)
    ensures MainRank(MainNext(s).main, |s.ws|) + SignalRank(s.main) < MainRank(s.main, |s.ws|)
  {}

  lemma MainTouchesOne(s: State, i: nat)
    requires InRange(s) && MainEnabled(s) && Subject(s.main) == Some(i)
    ensures MainNext(s).ws == s.ws[i := MainNext(s).ws[i]]
    ensures WorkerRank(MainNext(s).ws[i].pc) <= WorkerRank(s.ws[i].pc) + SignalRank(s.main)
  {}

  lemma MainStepDecreases(s: State)
    requires Inv(s) && MainEnabled(s)
    ensures Measure(MainNext(s)) < Measure(s)
  {
    MainRankDrops(s);
    if Subject(s.main).Some? {
      var i := Subject(s.main).value;
      MainTouchesOne(s, i);
      RanksUpdate(s.ws, i, MainNext(s).ws[i]);
    } else {
      assert MainNext(s).ws == s.ws;
    }
  }

  /** Between two decisions of the event loop only finitely many steps happen, in any schedule. */
  lemma StepDecreases(s: State, a: Action)
    requires Inv(s) && Enabled(s, a) && !Choice(a)
    ensures Measure(Apply(s, a)) < Measure(s)
  {
    match a
    case WorkerStep(i) => WorkerStepDecreases(s, i);
    case MainStep => MainStepDecreases(s);
    case EndRaise => RanksUpdate(s.ws, s.main.i, s.ws[s.main.i].(job := None));
    case Next(_) =>
  }

  // ---------- progress ----------

  /** stopThreads has set `stoprq` for a worker that had been started but had not passed line 110:
      that worker leaves without ever signalling `done`. */
  predicate Trapped(s: State) {
    && InRange(s) && (s.main.StopWait? || s.main.StopInWait?)
    && var w := s.ws[s.main.i];
       w.stoprq && (w.pc.Woken? || w.pc.Check? || Leaves(w.pc))
  }

  /** Whenever the main thread is in the middle of an operation, some step is possible; and if the main thread
      itself is blocked, the worker that owns what it waits for can step. */
  lemma Progress(s: State) returns (a: Action)
    requires Inv(s) && !Trapped(s) && s.main != EventLoop && s.main != Stopped
    ensures Enabled(s, a) && !Choice(a)
    ensures a.WorkerStep? ==> Subject(s.main) == Some(a.w)
  {
    if s.main.Raising? { a := EndRaise; }
    else if s.main.Dequeue? { a := Next(None); }
    else if MainEnabled(s) { a := MainStep; }
    else {
      var i := Subject(s.main).value;
      assert WorkerOk(s.ws[i], s.main, i);
      a := WorkerStep(i);
    }
  }

  predicate Unforced(acts: seq<Action>) { forall k | 0 <= k < |acts| :: !Choice(acts[k]) }

  /** No operation is under way that could still step. */
  ghost predicate Quiescent(s: State) { forall a: Action :: Enabled(s, a) ==> Choice(a) }

  /** From any reachable state, every schedule without a new decision of the event loop is finite, and where
      it can go no further the main thread is back in its loop, has stopped all threads, or is trapped. */
  lemma {:induction false} OperationsReturn(s: State, acts: seq<Action>)
    requires Inv(s) && Run(s, acts) && Unforced(acts)
    ensures |acts| <= Measure(s)
    ensures Inv(After(s, acts))
    ensures Quiescent(After(s, acts)) && !Trapped(After(s, acts)) ==>
      After(s, acts).main == EventLoop || After(s, acts).main == Stopped
    decreases |acts|
  {
    if acts == [] {
      MeasureNonNegative(s);
      if !Trapped(s) && s.main != EventLoop && s.main != Stopped {
        var a := Progress(s);
      }
    } else {
      assert !Choice(acts[0]);
      StepInv(s, acts[0]);
      StepDecreases(s, acts[0]);
      OperationsReturn(Apply(s, acts[0]), acts[1..]);
    }
  }

  // ---------- stopThreads ----------

  /** Once trapped, always trapped: stopThreads never returns. */
  lemma TrapIsForever(s: State, a: Action)
    requires Trapped(s) && Inv(s) && Enabled(s, a)
    ensures Trapped(Apply(s, a))
  {
    assert WorkerOk(s.ws[s.main.i], s.main, s.main.i);
  }

  lemma WorkerSetsNoTrap(s: State, i: nat)
    requires Inv(s) && i < |s.ws| && WorkerEnabled(s, i) && !Trapped(s)
    ensures !Trapped(WorkerNext(s, i))
  {
    if Subject(s.main).Some? { assert WorkerOk(s.ws[Subject(s.main).value], s.main, Subject(s.main).value); }
  }

  /** The only step into the trap is the write of `stoprq` to a worker still before line 110. */
  lemma TrapEntry(s: State, a: Action)
    requires Inv(s) && Enabled(s, a)
    ensures !Trapped(s) && Trapped(Apply(s, a)) <==>
      s.main.StopMark? && a == MainStep && (s.ws[s.main.i].pc.Woken? || s.ws[s.main.i].pc.Check?)
  {
    if a.WorkerStep? {
      if !Trapped(s) { WorkerSetsNoTrap(s, a.w); }
    } else if Subject(s.main).Some? { assert WorkerOk(s.ws[Subject(s.main).value], s.main, Subject(s.main).value); }
  }

  predicate Early(pc: WorkerPc) { pc.Woken? || pc.Check? }

  /** The condition a caller of stopThreads needs: every started worker has passed line 110. */
  predicate AllPastCheck(s: State) { forall i | 0 <= i < |s.ws| :: !Early(s.ws[i].pc) }

  /** What `AllPastCheck` leaves behind while stopThreads works through the threads. */
  predicate PastView(w: Worker, v: View) {
    && (v.Away? || v.Idle? || v.Busy? || v.Marked? || v.Awaited? ==> !Early(w.pc))
    && (v.Marked? || v.Awaited? ==> !Leaves(w.pc))
  }

  predicate StopsCleanly(s: State) {
    && InStop(s.main)
    && forall i | 0 <= i < |s.ws| :: PastView(s.ws[i], ViewOf(s.main, i))
  }

  lemma PastOwnStep(w: Worker, v: View)
    requires ViewOk(w, v) && PastView(w, v) && CanStep(w)
    ensures w.pc.SignalDone? || PastView(StepOf(w), v)
  {}

  lemma PastBusyStep(s: State, i: nat)
    requires Inv(s) && MainEnabled(s) && InStopBusy(s.main) && i < |s.ws| && PastView(s.ws[i], ViewOf(s.main, i))
    ensures PastView(MainNext(s).ws[i], ViewOf(MainNext(s).main, i))
  {
    assert WorkerOk(s.ws[i], s.main, i);
  }

  lemma PastIdleStep(s: State, i: nat)
    requires Inv(s) && MainEnabled(s) && InStop(s.main) && !InStopBusy(s.main)
    requires i < |s.ws| && PastView(s.ws[i], ViewOf(s.main, i))
    ensures PastView(MainNext(s).ws[i], ViewOf(MainNext(s).main, i))
  {
    assert WorkerOk(s.ws[i], s.main, i);
  }

  lemma StopsCleanlyMainStep(s: State)
    requires Inv(s) && StopsCleanly(s) && MainEnabled(s)
    ensures StopsCleanly(MainNext(s))
  {
    var t := MainNext(s);
    assert InStop(t.main);
    forall i | 0 <= i < |t.ws| ensures PastView(t.ws[i], ViewOf(t.main, i)) {
      if InStopBusy(s.main) { PastBusyStep(s, i); } else { PastIdleStep(s, i); }
    }
  }

  lemma StopsCleanlyWorkerStep(s: State, i: nat)
    requires Inv(s) && StopsCleanly(s) && i < |s.ws| && WorkerEnabled(s, i)
    ensures StopsCleanly(WorkerNext(s, i))
  {
    var t := WorkerNext(s, i);
    assert WorkerOk(s.ws[i], s.main, i);
    OwnStepOk(s.ws[i], ViewOf(s.main, i));
    PastOwnStep(s.ws[i], ViewOf(s.main, i));
    forall k | 0 <= k < |t.ws| ensures PastView(t.ws[k], ViewOf(t.main, k)) {
      assert PastView(s.ws[k], ViewOf(s.main, k));
    }
  }

  lemma StopsCleanlyStep(s: State, a: Action)
    requires Inv(s) && StopsCleanly(s) && Enabled(s, a)
    ensures StopsCleanly(Apply(s, a))
  {
    match a
    case WorkerStep(i) => StopsCleanlyWorkerStep(s, i);
    case MainStep => StopsCleanlyMainStep(s);
    case _ =>
  }

  lemma CleanNotTrapped(s: State)
    requires Inv(s) && StopsCleanly(s)
    ensures !Trapped(s)
  {
    if s.main.StopWait? || s.main.StopInWait? { assert PastView(s.ws[s.main.i], ViewOf(s.main, s.main.i)); }
  }

  lemma {:induction false} StopsCleanlyRun(s: State, acts: seq<Action>)
    requires Inv(s) && StopsCleanly(s) && Run(s, acts)
    ensures Inv(After(s, acts)) && StopsCleanly(After(s, acts))
    decreases |acts|
  {
    if acts != [] {
      StepInv(s, acts[0]);
      StopsCleanlyStep(s, acts[0]);
      StopsCleanlyRun(Apply(s, acts[0]), acts[1..]);
    }
  }

  /** The thread stopThreads is at. */
  function StopIndex(m: MainPc): nat
    requires InStop(m) && !m.Stopped?
  {
    m.i
  }

  lemma {:induction false} RunThen(s: State, a: Action, acts: seq<Action>)
    requires Enabled(s, a) && Run(Apply(s, a), acts)
    ensures Run(s, [a] + acts) && After(s, [a] + acts) == After(Apply(s, a), acts)
  {
    assert ([a] + acts)[1..] == acts;
  }

  lemma {:induction false} RunAppend(s: State, xs: seq<Action>, ys: seq<Action>)
    requires Run(s, xs) && Run(After(s, xs), ys)
    ensures Run(s, xs + ys) && After(s, xs + ys) == After(After(s, xs), ys)
    decreases |xs|
  {
    if xs == [] {
      assert xs + ys == ys;
    } else {
      var t := Apply(s, xs[0]);
      assert After(s, xs) == After(t, xs[1..]);
      hide *;
      RunAppend(t, xs[1..], ys);
      RunThen(s, xs[0], xs[1..] + ys);
      assert xs + ys == [xs[0]] + (xs[1..] + ys);
    }
  }

  /** A step of anybody but worker `i` before stopThreads gets to it leaves worker `i` alone. */
  lemma OthersLeaveAlone(s: State, a: Action, i: nat)
    requires Inv(s) && Enabled(s, a) && !Choice(a) && InStop(s.main) && !s.main.Stopped? && i < |s.ws|
    requires StopIndex(s.main) < i || (StopIndex(s.main) == i && s.main.StopTest?)
    requires a != WorkerStep(i)
    ensures |Apply(s, a).ws| == |s.ws| && Apply(s, a).ws[i] == s.ws[i]
    ensures var m := Apply(s, a).main;
            InStop(m) && !m.Stopped? &&
            (StopIndex(m) < i || (StopIndex(m) == i && (m.StopTest? || (m.StopMark? && s.ws[i].job.Some?) || s.ws[i].job.None?)))
  {}

  /** If worker `i` has been started but is still before line 110, the scheduler can leave it there until
      stopThreads marks it. */
  lemma DriveIntoTrap(s: State, i: nat) returns (acts: seq<Action>)
    requires Inv(s) && InStop(s.main) && !s.main.Stopped? && i < |s.ws|
    requires StopIndex(s.main) < i || (StopIndex(s.main) == i && (s.main.StopTest? || s.main.StopMark?))
    requires s.ws[i].job.Some? && Early(s.ws[i].pc)
    ensures Run(s, acts) && Unforced(acts) && Trapped(After(s, acts))
    decreases Measure(s)
  {
    MeasureNonNegative(s);
    if Trapped(s) {
      acts := [];
    } else if s.main == StopMark(i) {
      acts := [MainStep];
      RunThen(s, MainStep, []);
    } else {
      var a := Progress(s);
      OthersLeaveAlone(s, a, i);
      StepInv(s, a);
      StepDecreases(s, a);
      var rest := DriveIntoTrap(Apply(s, a), i);
      RunThen(s, a, rest);
      acts := [a] + rest;
    }
  }

  /** Any run can be continued, without new decisions, to a state where nothing can step. */
  lemma Exhaust(s: State) returns (acts: seq<Action>)
    requires Inv(s)
    ensures Run(s, acts) && Unforced(acts) && Quiescent(After(s, acts))
    ensures Trapped(s) ==> Trapped(After(s, acts))
    decreases Measure(s)
  {
    MeasureNonNegative(s);
    if Quiescent(s) {
      acts := [];
    } else {
      var a :| Enabled(s, a) && !Choice(a);
      StepInv(s, a);
      StepDecreases(s, a);
      if Trapped(s) { TrapIsForever(s, a); }
      MeasureNonNegative(Apply(s, a));
      var rest := Exhaust(Apply(s, a));
      RunThen(s, a, rest);
      acts := [a] + rest;
    }
  }

  /** Every schedule of stopThreads, from its call on, ends with all threads joined. */
  ghost predicate StopAlwaysReturns(s: State)
    requires Enabled(s, StopAll)
  {
    forall acts | Run(Apply(s, StopAll), acts) && Unforced(acts) && Quiescent(After(Apply(s, StopAll), acts)) ::
      After(Apply(s, StopAll), acts).main == Stopped
  }

  lemma StopReturnsIfAllPast(s: State)
    requires Inv(s) && s.main == EventLoop && AllPastCheck(s)
    ensures StopAlwaysReturns(s)
  {
    var t := Apply(s, StopAll);
    StepInv(s, StopAll);
    forall acts | Run(t, acts) && Unforced(acts) && Quiescent(After(t, acts)) ensures After(t, acts).main == Stopped {
      StopsCleanlyRun(t, acts);
      CleanNotTrapped(After(t, acts));
      OperationsReturn(t, acts);
    }
  }

  lemma StopTrapsIfEarly(s: State, i: nat)
    requires Inv(s) && s.main == EventLoop && i < |s.ws| && Early(s.ws[i].pc)
    ensures !StopAlwaysReturns(s)
  {
    var t := Apply(s, StopAll);
    StepInv(s, StopAll);
    assert WorkerOk(s.ws[i], s.main, i);
    var xs := DriveIntoTrap(t, i);
    RunInv(t, xs);
    var ys := Exhaust(After(t, xs));
    RunAppend(t, xs, ys);
  }

  /** stopThreads returns in every schedule if and only if it is called when no started worker is still
      before line 110. */
  lemma StopReturnsExactly(s: State)
    requires Inv(s) && s.main == EventLoop
    ensures StopAlwaysReturns(s) <==> AllPastCheck(s)
  {
    if AllPastCheck(s) {
      StopReturnsIfAllPast(s);
    } else {
      var i :| 0 <= i < |s.ws| && Early(s.ws[i].pc);
      StopTrapsIfEarly(s, i);
    }
  }

  /** When stopThreads has returned, every worker has exited and its locks are free. */
  lemma StoppedMeansGone(s: State, i: nat)
    requires Inv(s) && s.main == Stopped && i < |s.ws|
    ensures s.ws[i].pc == Gone && s.ws[i].startlock == Free
  {
    assert WorkerOk(s.ws[i], s.main, i);
  }

  lemma FinishStart(s: State, i: nat) returns (acts: seq<Action>)
    requires Inv(s) && InStart(s.main) && Subject(s.main) == Some(i) && CallerOf(s.main) == FromLoop
    requires s.main.StartLock? ==> s.ws[i].pc == Waiting
    ensures Run(s, acts) && After(s, acts).main == EventLoop
    ensures |After(s, acts).ws| == |s.ws| && After(s, acts).ws[i].pc == Woken
    decreases Measure(s)
  {
    assert WorkerOk(s.ws[i], s.main, i);
    var t := MainNext(s);
    StepInv(s, MainStep);
    StepDecreases(s, MainStep);
    MeasureNonNegative(t);
    var rest := [];
    if t.main != EventLoop { rest := FinishStart(t, i); }
    RunThen(s, MainStep, rest);
    acts := [MainStep] + rest;
  }

  /** The condition does fail: giving a waiting thread a job and stopping at once can hang. */
  lemma StopCanHang(n: nat, j: JobId) returns (acts: seq<Action>)
    requires n > 0
    ensures Run(Initial(n), acts) && After(Initial(n), acts).main == EventLoop
    ensures !StopAlwaysReturns(After(Initial(n), acts))
  {
    var s := Initial(n);
    InitialInv(n);
    StepInv(s, Begin(0, j));
    var rest := FinishStart(Apply(s, Begin(0, j)), 0);
    RunThen(s, Begin(0, j), rest);
    acts := [Begin(0, j)] + rest;
    RunInv(s, acts);
    StopReturnsExactly(After(s, acts));
  }
}
