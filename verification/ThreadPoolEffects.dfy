/** What cancelling and ticking mean for a job over whole runs. */
module ThreadPoolEffects {
  import opened ThreadJob
  import opened Wrappers
  import opened Handshake
  import opened ThreadPool
  import opened ThreadPoolProofs
  import Ring = JobRing

  predicate OnThread(p: Pool, j: JobId) { exists i | 0 <= i < |p.h.ws| :: p.h.ws[i].job == Some(j) }

  /** In its event loop the main thread can enqueue and cancel any job, and be ticked; and in the handlers of `finished`
      enqueue and cancel; and a running job can enqueue. */
  lemma RequestsArePossible(p: Pool, j: JobId, timeout: nat, i: nat)
    requires PoolInv(p)
    ensures p.h.main.EventLoop? ==> PoolEnabled(p, TickAll)
    ensures p.h.main.EventLoop? || p.h.main.Raising? ==>
      PoolEnabled(p, Cancel(j)) && (j !in p.jobs ==> PoolEnabled(p, Enqueue(j, timeout)))
    ensures i < |p.h.ws| && p.h.ws[i].pc.RunJob? && j !in p.jobs ==> PoolEnabled(p, WorkerEnqueue(i, j, timeout))
  {}

  /** The calls of ThreadPool_cancel for a job before its event is raised. */
  function CancelsOf(p: Pool, xs: seq<PoolAction>, j: JobId): nat
    requires PoolRun(p, xs)
    decreases |xs|
  {
    if xs == [] then 0
    else
      var n := if xs[0] == Cancel(j) && j in p.jobs && p.jobs[j].raises == 0 then 1 else 0;
      n + CancelsOf(PoolApply(p, xs[0]), xs[1..], j)
  }

  /** The ticks of the service while a thread has the job. */
  function TicksOf(p: Pool, xs: seq<PoolAction>, j: JobId): nat
    requires PoolRun(p, xs)
    decreases |xs|
  {
    if xs == [] then 0
    else
      var n := if xs[0] == TickAll && OnThread(p, j) then 1 else 0;
      n + TicksOf(PoolApply(p, xs[0]), xs[1..], j)
  }

  /** What one step adds to a job's history. */
  predicate Adds(r: Record, s: Record, cancelled: bool, ticks: nat) {
    s.limit == r.limit && s.ticks == r.ticks + ticks && s.cancelled == (r.cancelled || cancelled)
  }

  lemma StepAdds(p: Pool, a: Action, j: JobId)
    requires PoolEnabled(p, Step(a)) && j in p.jobs
    ensures var q := PoolApply(p, Step(a)); j in q.jobs && Adds(p.jobs[j], q.jobs[j], false, 0)
  {}

  lemma EnqueueAdds(p: Pool, x: PoolAction, j: JobId)
    requires PoolEnabled(p, x) && (x.Enqueue? || x.WorkerEnqueue? || x.TakeNext?) && j in p.jobs
    ensures var q := PoolApply(p, x); j in q.jobs && Adds(p.jobs[j], q.jobs[j], false, 0)
  {
    hide Enabled, Ring.Enqueue, Ring.Dequeue;
  }

  lemma CancelAdds(p: Pool, k: JobId, j: JobId)
    requires PoolInv(p) && PoolEnabled(p, Cancel(k)) && j in p.jobs
    ensures var q := PoolApply(p, Cancel(k));
            j in q.jobs && Adds(p.jobs[j], q.jobs[j], k == j && p.jobs[j].raises == 0, 0)
  {
    InvParts(p);
    assert Placed(p, j) && RecordOk(p, p.jobs[j]);
    hide Inv;
    if ThreadOf(p.h.ws, k) < |p.h.ws| { CancelOnThreadKeeps(p, k); } else { CancelQueuedKeeps(p, k); }
  }

  lemma TickAdds(p: Pool, j: JobId)
    requires PoolInv(p) && PoolEnabled(p, TickAll) && j in p.jobs
    ensures var q := PoolApply(p, TickAll);
            j in q.jobs && Adds(p.jobs[j], q.jobs[j], false, if OnThread(p, j) then 1 else 0)
  {
    assert PoolApply(p, TickAll).jobs == TickThreads(p.h.ws, p.jobs);
    hide *;
    TickEffect(p);
    PlaceIsThread(p, j);
    OneTick(p.jobs[j]);
  }

  lemma OneTick(r: Record)
    ensures Adds(r, Tick(r), false, 1) && Adds(r, r, false, 0)
  {}

  lemma PlaceIsThread(p: Pool, j: JobId)
    requires PoolInv(p) && j in p.jobs
    ensures OnThread(p, j) <==> p.jobs[j].place.OnThread?
  {
    assert Placed(p, j) && RecordOk(p, p.jobs[j]);
    hide Inv, ThreadRecordOk, Ring.Live, Ring.Valid;
  }

  lemma {:induction false} RunAdds(p: Pool, xs: seq<PoolAction>, j: JobId)
    requires PoolInv(p) && PoolRun(p, xs) && j in p.jobs
    ensures PoolInv(PoolAfter(p, xs)) && j in PoolAfter(p, xs).jobs
    ensures Adds(p.jobs[j], PoolAfter(p, xs).jobs[j], CancelsOf(p, xs, j) > 0, TicksOf(p, xs, j))
    decreases |xs|
  {
    if xs != [] {
      match xs[0] {
        case Step(a) => StepAdds(p, a, j);
        case Cancel(k) => CancelAdds(p, k, j);
        case TickAll => TickAdds(p, j);
        case _ => EnqueueAdds(p, xs[0], j);
      }
      PoolStepKeeps(p, xs[0]);
      hide PoolInv, PoolApply, PoolEnabled;
      RunAdds(PoolApply(p, xs[0]), xs[1..], j);
    }
  }

  /** From the call of ThreadPool_enqueue that accepts a job to its `finished` event, in any run: the handlers of that event
      see `hasCompleted` 0 if and only if the job was cancelled before the event was raised, or it has a timeout and that
      many ticks passed while a thread had it. */
  lemma VerdictExactly(p: Pool, j: JobId, timeout: nat, xs: seq<PoolAction>)
    requires PoolInv(p) && PoolEnabled(p, Enqueue(j, timeout))
    requires var q := PoolApply(p, Enqueue(j, timeout)); j in q.jobs && PoolRun(q, xs)
    ensures var q := PoolApply(p, Enqueue(j, timeout)); var r := PoolAfter(q, xs);
            && j in r.jobs
            && (r.jobs[j].raises == 1 ==>
                  (!r.jobs[j].verdict <==>
                     CancelsOf(q, xs, j) > 0 || (timeout > 0 && TicksOf(q, xs, j) >= timeout)))
  {
    EnqueueKeeps(p, j, timeout);
    var q := PoolApply(p, Enqueue(j, timeout));
    assert IsNew(q.jobs[j], timeout, q.jobs[j].place);
    hide PoolInv, PoolApply, PoolEnabled;
    RunAdds(q, xs, j);
    InvAccounts(PoolAfter(q, xs), j);
  }
}
