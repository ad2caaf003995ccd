/** The thread pool comes to rest: without new decisions of its users, every accepted job finishes. */
module ThreadPoolLiveness {
  import opened ThreadJob
  import opened Wrappers
  import opened Handshake
  import opened HandshakeLiveness
  import opened ThreadPool
  import opened ThreadPoolProofs
  import Ring = JobRing

  /** The main thread has been told that thread `i` is done with its job. */
  predicate Picked(m: MainPc, i: nat) {
    match m
    case ReadPipe(k) => k == i
    case WaitDone(k) => k == i
    case InWaitDone(k) => k == i
    case WokenDone(k) => k == i
    case Raise(k) => k == i
    case Raising(k) => k == i
    case _ => CallerOf(m) == FromRaise(i)
  }

  /** The threads from `i` on with a job that the main thread has not been told of. */
  function Unpicked(ws: seq<Worker>, m: MainPc, i: nat): nat
    decreases |ws| - i
  {
    if i >= |ws| then 0 else (if ws[i].job.Some? && !Picked(m, i) then 1 else 0) + Unpicked(ws, m, i + 1)
  }

  /** The jobs whose completion is still to be noticed: queued, in hand, or on a thread. */
  function Outstanding(p: Pool): nat
    requires Ring.Valid(p.ring)
  {
    |Ring.Live(p.ring)| + (if Hand(p.h.main).Some? then 1 else 0) + Unpicked(p.h.ws, p.h.main, 0)
  }

  /** Noticing a completion lifts the main thread from rank 0 to 22, once for each job. */
  function PoolMeasure(p: Pool): int
    requires Ring.Valid(p.ring)
  {
    Measure(p.h) + 23 * Outstanding(p)
  }

  /** Steps that follow from what has been asked for; the others are new requests, cancellations and ticks. */
  predicate Own(x: PoolAction) { x.Step? || x.TakeNext? }

  lemma {:induction false} UnpickedSame(ws: seq<Worker>, m: MainPc, vs: seq<Worker>, n: MainPc, i: nat)
    requires |ws| == |vs|
    requires forall k | i <= k < |ws| :: (ws[k].job.Some? && !Picked(m, k)) == (vs[k].job.Some? && !Picked(n, k))
    ensures Unpicked(ws, m, i) == Unpicked(vs, n, i)
    decreases |ws| - i
  {
    if i < |ws| { UnpickedSame(ws, m, vs, n, i + 1); }
  }

  lemma {:induction false} UnpickedOneMore(ws: seq<Worker>, m: MainPc, vs: seq<Worker>, n: MainPc, i: nat, t: nat)
    requires |ws| == |vs| && i <= t < |ws|
    requires forall k | i <= k < |ws| && k != t :: (ws[k].job.Some? && !Picked(m, k)) == (vs[k].job.Some? && !Picked(n, k))
    requires !(ws[t].job.Some? && !Picked(m, t)) && vs[t].job.Some? && !Picked(n, t)
    ensures Unpicked(vs, n, i) == Unpicked(ws, m, i) + 1
    decreases |ws| - i
  {
    if i == t { UnpickedSame(ws, m, vs, n, i + 1); } else { UnpickedOneMore(ws, m, vs, n, i + 1, t); }
  }

  lemma WorkerStepSettles(p: Pool, i: nat)
    requires PoolInv(p) && PoolEnabled(p, Step(WorkerStep(i)))
    ensures PoolMeasure(PoolApply(p, Step(WorkerStep(i)))) < PoolMeasure(p)
  {
    var h, g := p.h, WorkerNext(p.h, i);
    StepDecreases(h, WorkerStep(i));
    WorkerStepQuiet(h, i);
    hide Measure, Ring.Live, Inv;
    UnpickedSame(h.ws, h.main, g.ws, g.main, 0);
  }

  lemma MainStepSettles(p: Pool)
    requires PoolInv(p) && PoolEnabled(p, Step(MainStep))
    ensures PoolMeasure(PoolApply(p, Step(MainStep))) < PoolMeasure(p)
  {
    var h, g := p.h, MainNext(p.h);
    StepDecreases(h, MainStep);
    if h.main.StartStore? {
      var t := h.main.i;
      assert WorkerOk(h.ws[t], h.main, t);
      hide Measure, Ring.Live, Inv, ViewOk;
      UnpickedOneMore(h.ws, h.main, g.ws, g.main, 0, t);
    } else if h.main.Raise? {
      hide Measure, Ring.Live, Inv;
      UnpickedSame(h.ws, h.main, g.ws, g.main, 0);
    } else {
      MainStepQuiet(h);
      hide Measure, Ring.Live, Inv;
      UnpickedSame(h.ws, h.main, g.ws, g.main, 0);
    }
  }

  lemma ReadySettles(p: Pool, i: nat)
    requires PoolInv(p) && PoolEnabled(p, Step(Ready(i)))
    ensures PoolMeasure(PoolApply(p, Step(Ready(i)))) < PoolMeasure(p)
  {
    var h, g := p.h, Apply(p.h, Ready(i));
    assert WorkerOk(h.ws[i], h.main, i);
    assert h.ws[i].job.Some?;
    hide Inv, Ring.Live;
    UnpickedOneMore(g.ws, g.main, h.ws, h.main, 0, i);
  }

  lemma EndRaiseSettles(p: Pool)
    requires PoolInv(p) && PoolEnabled(p, Step(EndRaise))
    ensures PoolMeasure(PoolApply(p, Step(EndRaise))) < PoolMeasure(p)
  {
    var h, g := p.h, Apply(p.h, EndRaise);
    StepDecreases(h, EndRaise);
    hide Measure, Ring.Live, Inv;
    UnpickedSame(h.ws, h.main, g.ws, g.main, 0);
  }

  lemma TakeNextSettles(p: Pool)
    requires PoolInv(p) && PoolEnabled(p, TakeNext)
    ensures Ring.Valid(PoolApply(p, TakeNext).ring) && PoolMeasure(PoolApply(p, TakeNext)) < PoolMeasure(p)
  {
    TakeNextKeeps(p);
    var q := PoolApply(p, TakeNext);
    var next := Ring.Dequeue(p.ring).1;
    StepDecreases(p.h, Next(next));
    hide Measure, Ring.Live, Inv, Placed, RecordOk, Ring.Dequeue;
    UnpickedSame(p.h.ws, p.h.main, q.h.ws, q.h.main, 0);
  }

  lemma OwnStepSettles(p: Pool, x: PoolAction)
    requires PoolInv(p) && PoolEnabled(p, x) && Own(x)
    ensures PoolInv(PoolApply(p, x)) && PoolMeasure(PoolApply(p, x)) < PoolMeasure(p)
  {
    PoolStepKeeps(p, x);
    match x
    case Step(WorkerStep(i)) => WorkerStepSettles(p, i);
    case Step(MainStep) => MainStepSettles(p);
    case Step(Ready(i)) => ReadySettles(p, i);
    case Step(EndRaise) => EndRaiseSettles(p);
    case TakeNext => TakeNextSettles(p);
  }

  /** Nothing that was asked for is left to do. */
  ghost predicate AtRest(p: Pool) { forall x: PoolAction :: PoolEnabled(p, x) ==> !Own(x) }

  /** At rest the main thread is in its loop, no thread has a job, and every accepted job has finished. */
  lemma RestIsDone(p: Pool)
    requires PoolInv(p) && AtRest(p)
    ensures p.h.main.EventLoop? && forall i | 0 <= i < |p.h.ws| :: p.h.ws[i].job.None?
    ensures forall j | j in p.jobs :: p.jobs[j].place.Finished? && p.jobs[j].raises == 1
  {
    if !p.h.main.EventLoop? {
      var a := Progress(p.h);
      assert PoolEnabled(p, if a.Next? then TakeNext else Step(a));
      assert false;
    }
    forall i | 0 <= i < |p.h.ws| ensures p.h.ws[i].job.None? {
      assert WorkerOk(p.h.ws[i], p.h.main, i);
      assert !PoolEnabled(p, Step(WorkerStep(i))) && !PoolEnabled(p, Step(Ready(i)));
    }
    forall j | j in p.jobs ensures p.jobs[j].place.Finished? && p.jobs[j].raises == 1 {
      assert Placed(p, j) && RecordOk(p, p.jobs[j]);
    }
  }

  /** From any reachable state of the pool, in any schedule: without new requests there are only finitely many steps, and
      when there are no more, every accepted job has finished. */
  lemma {:induction false} PoolSettles(p: Pool, xs: seq<PoolAction>)
    requires PoolInv(p) && PoolRun(p, xs) && forall k | 0 <= k < |xs| :: Own(xs[k])
    ensures |xs| <= PoolMeasure(p)
    ensures var q := PoolAfter(p, xs);
            && PoolInv(q)
            && (AtRest(q) ==> forall j | j in q.jobs :: q.jobs[j].place.Finished? && q.jobs[j].raises == 1)
    decreases |xs|
  {
    if xs == [] {
      MeasureNonNegative(p.h);
      if AtRest(p) { RestIsDone(p); }
    } else {
      assert Own(xs[0]);
      OwnStepSettles(p, xs[0]);
      PoolSettles(PoolApply(p, xs[0]), xs[1..]);
    }
  }
}
