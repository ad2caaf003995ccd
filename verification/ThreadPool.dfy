/** The thread pool as a whole: the handshake of `Handshake`, the queue of `JobRing`, and what happens to
    every job that ThreadPool_enqueue accepted. */
module ThreadPool {
  import opened ThreadJob
  import opened Wrappers
  import opened Handshake
  import Ring = JobRing

  datatype Pool = Pool(h: State, ring: Ring.Ring, jobs: map<JobId, Record>)

  /** `Step` is a step of the handshake; the others are ThreadPool_enqueue called by the main thread or by a
      running job, dequeueJob in threadJobDone, ThreadPool_cancel, and the service's tick. */
  datatype PoolAction =
    | Step(a: Action)
    | Enqueue(j: JobId, timeout: nat)
    | WorkerEnqueue(i: nat, j: JobId, timeout: nat)
    | TakeNext
    | Cancel(j: JobId)
    | TickAll

  // ---------- the loops over the threads ----------

  /** availableThread (219-226). */
  function AvailableThread(ws: seq<Worker>): (i: nat)
    ensures i <= |ws|
    ensures i < |ws| ==> ws[i].job.None?
    ensures forall k | 0 <= k < i :: ws[k].job.Some?
  {
    if ws == [] || ws[0].job.None? then 0 else 1 + AvailableThread(ws[1..])
  }

  /** The search of ThreadPool_cancel over the threads (465-473). */
  function ThreadOf(ws: seq<Worker>, j: JobId): (i: nat)
    ensures i <= |ws|
    ensures i < |ws| ==> ws[i].job == Some(j)
    ensures forall k | 0 <= k < i :: ws[k].job != Some(j)
  {
    if ws == [] || ws[0].job == Some(j) then 0 else 1 + ThreadOf(ws[1..], j)
  }

  /** checkThreadJobs (279-287): thread after thread. */
  function TickThreads(ws: seq<Worker>, jobs: map<JobId, Record>): map<JobId, Record> {
    if ws == [] then jobs
    else TickThreads(ws[1..], if ws[0].job.Some? && ws[0].job.value in jobs
                              then jobs[ws[0].job.value := Tick(jobs[ws[0].job.value])] else jobs)
  }

  // ---------- steps ----------

  predicate RingInRange(r: Ring.Ring) {
    r.next < |r.slots| && r.last < |r.slots| && r.avail <= |r.slots|
  }

  predicate PoolEnabled(p: Pool, x: PoolAction) {
    && InRange(p.h) && RingInRange(p.ring)
    && match x
       case Step(a) => (a.WorkerStep? || a.MainStep? || a.Ready? || a.EndRaise?) && Enabled(p.h, a)
       case Enqueue(j, _) => (p.h.main.EventLoop? || p.h.main.Raising?) && j !in p.jobs
       case WorkerEnqueue(i, j, _) => i < |p.h.ws| && p.h.ws[i].pc.RunJob? && j !in p.jobs
       case TakeNext => p.h.main.Dequeue?
       case Cancel(_) => p.h.main.EventLoop? || p.h.main.Raising?
       case TickAll => p.h.main.EventLoop?
  }

  function Update(p: Pool, j: Option<JobId>, f: Record -> Record): map<JobId, Record> {
    if j.Some? && j.value in p.jobs then p.jobs[j.value := f(p.jobs[j.value])] else p.jobs
  }

  function MarkRun(r: Record): Record { r.(runs := r.runs + 1) }

  function MarkRaised(r: Record): Record { r.(raises := r.raises + 1, verdict := r.hasCompleted) }

  function MarkFinished(r: Record): Record { r.(place := Finished) }

  /** Cancelling a job that a thread has: only `hasCompleted` changes (470). */
  function MarkCancelled(r: Record): Record {
    r.(hasCompleted := false, cancelled := r.cancelled || r.raises == 0)
  }

  /** Cancelling a queued job raises its event and destroys it at once (482-484). */
  function MarkDropped(r: Record): Record {
    r.(hasCompleted := false, cancelled := true, raises := r.raises + 1, verdict := false, place := Finished)
  }

  /** What a handshake step means for the jobs. */
  function StepJobs(p: Pool, a: Action): map<JobId, Record>
    requires Enabled(p.h, a)
  {
    match a
    case WorkerStep(i) => if p.h.ws[i].pc.RunJob? then Update(p, p.h.ws[i].job, MarkRun) else p.jobs
    case MainStep =>
      (match p.h.main
       case StartStore(i, j, _) => Update(p, Some(j), (r: Record) => r.(place := OnThread(i), started := true))
       case Raise(i) => Update(p, p.h.ws[i].job, MarkRaised)
       case _ => p.jobs)
    case EndRaise => Update(p, p.h.ws[p.h.main.i].job, MarkFinished)
    case _ => p.jobs
  }

  function EnqueueIn(p: Pool, j: JobId, timeout: nat): Pool
    requires RingInRange(p.ring)
  {
    var (ring, ok) := Ring.Enqueue(p.ring, j);
    if ok then p.(ring := ring, jobs := p.jobs[j := Create(timeout, Queued)]) else p
  }

  function PoolApply(p: Pool, x: PoolAction): Pool
    requires PoolEnabled(p, x)
  {
    match x
    case Step(a) => p.(h := Apply(p.h, a), jobs := StepJobs(p, a))
    case Enqueue(j, timeout) =>
      var i := AvailableThread(p.h.ws);
      if i < |p.h.ws| then p.(h := Apply(p.h, Begin(i, j)), jobs := p.jobs[j := Create(timeout, InHand)])
      else EnqueueIn(p, j, timeout)
    case WorkerEnqueue(_, j, timeout) => EnqueueIn(p, j, timeout)
    case TakeNext =>
      var (ring, next) := Ring.Dequeue(p.ring);
      Pool(Apply(p.h, Next(next)), ring, Update(p, next, (r: Record) => r.(place := InHand)))
    case Cancel(j) =>
      var i := ThreadOf(p.h.ws, j);
      if i < |p.h.ws| then p.(jobs := Update(p, Some(j), MarkCancelled))
      else
        var (ring, found) := Ring.Cancel(p.ring, j);
        if found then p.(ring := ring, jobs := Update(p, Some(j), MarkDropped)) else p
    case TickAll => p.(jobs := TickThreads(p.h.ws, p.jobs))
  }

  /** ThreadPool_init with `n` threads, all in their first wait. */
  function Start(n: nat, queuesize: nat): Pool {
    Pool(Initial(n), Ring.Empty(queuesize), map[])
  }

  predicate PoolRun(p: Pool, xs: seq<PoolAction>)
    decreases |xs|
  {
    xs == [] || (PoolEnabled(p, xs[0]) && PoolRun(PoolApply(p, xs[0]), xs[1..]))
  }

  function PoolAfter(p: Pool, xs: seq<PoolAction>): Pool
    requires PoolRun(p, xs)
    decreases |xs|
  {
    if xs == [] then p else PoolAfter(PoolApply(p, xs[0]), xs[1..])
  }

  // ---------- the invariant ----------

  /** The job that startThreadJob has been given but not yet stored. */
  function Hand(m: MainPc): Option<JobId> {
    match m
    case StartLock(_, j, _) => Some(j)
    case StartStore(_, j, _) => Some(j)
    case _ => None
  }

  predicate Untouched(r: Record) {
    && r.runs == 0 && r.raises == 0 && r.ticks == 0 && !r.cancelled && !r.started
    && r.hasCompleted && r.timeoutTicks == r.limit
  }

  /** The proc of the worker's current job has run. */
  predicate Ran(w: Worker, v: View) { !w.pc.Woken? && !w.pc.Check? && !w.pc.RunJob? && !v.Held? }

  predicate RaisedOn(m: MainPc, i: nat) { m == Raising(i) || CallerOf(m) == FromRaise(i) }

  predicate ThreadRecordOk(r: Record, w: Worker, m: MainPc, i: nat) {
    && r.started && r.limit >= r.timeoutTicks
    && r.timeoutTicks == (if r.ticks < r.limit then r.limit - r.ticks else 0)
    && r.runs == (if Ran(w, ViewOf(m, i)) then 1 else 0)
    && r.raises == (if RaisedOn(m, i) then 1 else 0)
    && (if RaisedOn(m, i) then r.verdict == !Cut(r) else r.hasCompleted == !Cut(r))
  }

  predicate RecordOk(p: Pool, r: Record) {
    match r.place
    case Queued => Untouched(r)
    case InHand => Untouched(r)
    case OnThread(i) => i < |p.h.ws| && ThreadRecordOk(r, p.h.ws[i], p.h.main, i)
    case Finished =>
      && r.raises == 1 && r.verdict == !Cut(r)
      && r.runs == (if r.started then 1 else 0) && (r.started || r.cancelled)
  }

  ghost predicate NoDuplicates(s: seq<JobId>) { forall a, b | 0 <= a < b < |s| :: s[a] != s[b] }

  /** The recorded place of every job is where the data structures have it. */
  ghost predicate Placed(p: Pool, j: JobId)
    requires Ring.Valid(p.ring)
  {
    && (j in Ring.Live(p.ring) <==> j in p.jobs && p.jobs[j].place == Queued)
    && (Hand(p.h.main) == Some(j) <==> j in p.jobs && p.jobs[j].place == InHand)
    && (forall i | 0 <= i < |p.h.ws| :: p.h.ws[i].job == Some(j) <==> j in p.jobs && p.jobs[j].place == OnThread(i))
  }

  /** A queued job waits for a busy thread, or for the main thread that is about to take it. */
  predicate QueueAwaited(p: Pool) {
    || p.h.main.UnlockAfter? || p.h.main.Dequeue? || Hand(p.h.main).Some?
    || exists i | 0 <= i < |p.h.ws| :: p.h.ws[i].job.Some?
  }

  ghost predicate PoolInv(p: Pool) {
    && Inv(p.h) && !InStop(p.h.main) && |p.h.ws| > 0
    && Ring.Valid(p.ring) && NoDuplicates(Ring.Live(p.ring))
    && (forall j :: Placed(p, j))
    && (forall j | j in p.jobs :: RecordOk(p, p.jobs[j]))
    && (Ring.Live(p.ring) != [] ==> QueueAwaited(p))
  }

  lemma StartInv(n: nat, queuesize: nat)
    requires n > 0 && queuesize > 0
    ensures PoolInv(Start(n, queuesize))
  {
    InitialInv(n);
    Ring.EmptyIsEmpty(queuesize);
  }
}
