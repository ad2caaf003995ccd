/** Every step of the pool keeps its invariant, and what that says about whole runs. */
module ThreadPoolProofs {
  import opened ThreadJob
  import opened Wrappers
  import opened Handshake
  import opened ThreadPool
  import Ring = JobRing

  // ---------- handshake steps ----------

  lemma OwnStepRan(h: State, i: nat)
    requires Inv(h) && !InStop(h.main) && i < |h.ws| && WorkerEnabled(h, i) && h.ws[i].job.Some?
    ensures var g := WorkerNext(h, i);
            && RaisedOn(g.main, i) == RaisedOn(h.main, i)
            && (h.ws[i].pc.RunJob? ==> !Ran(h.ws[i], ViewOf(h.main, i)))
            && (Ran(g.ws[i], ViewOf(g.main, i)) <==> Ran(h.ws[i], ViewOf(h.main, i)) || h.ws[i].pc.RunJob?)
  {
    assert WorkerOk(h.ws[i], h.main, i);
  }

  lemma RecordAcrossOwnStep(h: State, i: nat, r: Record)
    requires Inv(h) && !InStop(h.main) && i < |h.ws| && WorkerEnabled(h, i) && h.ws[i].job.Some?
    requires ThreadRecordOk(r, h.ws[i], h.main, i)
    ensures var g := WorkerNext(h, i);
            ThreadRecordOk(if h.ws[i].pc.RunJob? then MarkRun(r) else r, g.ws[i], g.main, i)
  {
    OwnStepRan(h, i);
    hide Inv, Ran, RaisedOn, ViewOf, InStop;
  }

  lemma RecordAcrossOtherStep(h: State, i: nat, k: nat, r: Record)
    requires Inv(h) && !InStop(h.main) && i < |h.ws| && k < |h.ws| && i != k && WorkerEnabled(h, i) && h.ws[k].job.Some?
    requires ThreadRecordOk(r, h.ws[k], h.main, k)
    ensures ThreadRecordOk(r, WorkerNext(h, i).ws[k], WorkerNext(h, i).main, k)
  {
    var g := WorkerNext(h, i);
    assert WorkerOk(h.ws[i], h.main, i) && WorkerOk(h.ws[k], h.main, k);
    assert RaisedOn(g.main, k) == RaisedOn(h.main, k);
    assert Ran(g.ws[k], ViewOf(g.main, k)) == Ran(h.ws[k], ViewOf(h.main, k));
  }

  lemma RecordAcrossWorkerStep(h: State, i: nat, k: nat, r: Record)
    requires Inv(h) && !InStop(h.main) && i < |h.ws| && k < |h.ws| && WorkerEnabled(h, i) && h.ws[k].job.Some?
    requires ThreadRecordOk(r, h.ws[k], h.main, k)
    ensures var g := WorkerNext(h, i);
            ThreadRecordOk(if i == k && h.ws[i].pc.RunJob? then MarkRun(r) else r, g.ws[k], g.main, k)
  {
    if i == k { RecordAcrossOwnStep(h, i, r); } else { RecordAcrossOtherStep(h, i, k, r); }
  }

  lemma WorkerStepQuiet(h: State, i: nat)
    requires Inv(h) && i < |h.ws| && WorkerEnabled(h, i)
    ensures var g := WorkerNext(h, i);
            && Hand(g.main) == Hand(h.main) && (InStop(g.main) ==> InStop(h.main))
            && (g.main.UnlockAfter? || g.main.Dequeue? <==> h.main.UnlockAfter? || h.main.Dequeue?)
            && forall k | 0 <= k < |h.ws| :: g.ws[k].job == h.ws[k].job
  {}

  /** A worker's step changes at most the count of its own job's runs. */
  lemma WorkerStepKeeps(p: Pool, i: nat)
    requires PoolInv(p) && PoolEnabled(p, Step(WorkerStep(i)))
    ensures PoolInv(PoolApply(p, Step(WorkerStep(i))))
  {
    var q := PoolApply(p, Step(WorkerStep(i)));
    StepInv(p.h, WorkerStep(i));
    WorkerStepQuiet(p.h, i);
    assert WorkerOk(p.h.ws[i], p.h.main, i);
    forall j ensures Placed(q, j) { assert Placed(p, j); }
    forall j | j in q.jobs ensures RecordOk(q, q.jobs[j]) {
      assert Placed(p, j) && RecordOk(p, p.jobs[j]);
      var r := p.jobs[j];
      if r.place.OnThread? { RecordAcrossWorkerStep(p.h, i, r.place.i, r); }
    }
  }

  lemma ReadyKeeps(p: Pool, i: nat)
    requires PoolInv(p) && PoolEnabled(p, Step(Ready(i)))
    ensures PoolInv(PoolApply(p, Step(Ready(i))))
  {
    var q := PoolApply(p, Step(Ready(i)));
    StepInv(p.h, Ready(i));
    assert WorkerOk(p.h.ws[i], p.h.main, i);
    forall j ensures Placed(q, j) { assert Placed(p, j); }
    forall j | j in q.jobs ensures RecordOk(q, q.jobs[j]) {
      assert Placed(p, j) && RecordOk(p, p.jobs[j]);
    }
  }

  lemma StorePlaced(p: Pool, j: JobId)
    requires PoolInv(p) && PoolEnabled(p, Step(MainStep)) && p.h.main.StartStore?
    ensures Placed(PoolApply(p, Step(MainStep)), j)
  {
    assert WorkerOk(p.h.ws[p.h.main.i], p.h.main, p.h.main.i);
    assert Placed(p, p.h.main.j) && Placed(p, j);
  }

  lemma StoreRecord(p: Pool, j: JobId)
    requires PoolInv(p) && PoolEnabled(p, Step(MainStep)) && p.h.main.StartStore?
    requires j in p.jobs
    ensures var q := PoolApply(p, Step(MainStep)); j in q.jobs && RecordOk(q, q.jobs[j])
  {
    assert WorkerOk(p.h.ws[p.h.main.i], p.h.main, p.h.main.i);
    assert Placed(p, p.h.main.j) && Placed(p, j) && RecordOk(p, p.jobs[j]);
  }

  /** Storing the job in the thread moves it from the main thread's hand to that thread, and nothing else. */
  lemma StoreKeeps(p: Pool)
    requires PoolInv(p) && PoolEnabled(p, Step(MainStep)) && p.h.main.StartStore?
    ensures var q := PoolApply(p, Step(MainStep)); var job := p.h.main.j;
            && PoolInv(q) && q.ring == p.ring && Hand(q.h.main) == None && q.h.ws[p.h.main.i].job == Some(job)
            && job in p.jobs && q.jobs == p.jobs[job := p.jobs[job].(place := OnThread(p.h.main.i), started := true)]
  {
    var q := PoolApply(p, Step(MainStep));
    StepInv(p.h, MainStep);
    assert Placed(p, p.h.main.j);
    forall j ensures Placed(q, j) { StorePlaced(p, j); }
    forall j | j in q.jobs ensures RecordOk(q, q.jobs[j]) { StoreRecord(p, j); }
    hide ViewOk, RecordOk, Inv;
    assert q.h.ws[p.h.main.i].job.Some?;
  }

  lemma RaisePlaced(p: Pool, j: JobId)
    requires PoolInv(p) && PoolEnabled(p, Step(MainStep)) && p.h.main.Raise?
    ensures Placed(PoolApply(p, Step(MainStep)), j)
  {
    assert WorkerOk(p.h.ws[p.h.main.i], p.h.main, p.h.main.i);
    assert Placed(p, p.h.ws[p.h.main.i].job.value) && Placed(p, j);
  }

  lemma OthersAcrossRaise(h: State, k: nat, r: Record)
    requires Inv(h) && (h.main.Raise? || h.main.Raising?) && k < |h.ws| && k != h.main.i && h.ws[k].job.Some?
    requires ThreadRecordOk(r, h.ws[k], h.main, k)
    ensures h.main.Raise? ==> ThreadRecordOk(r, h.ws[k], MainNext(h).main, k)
    ensures h.main.Raising? ==> ThreadRecordOk(r, h.ws[k], UnlockAfter(h.main.i), k)
  {
    assert WorkerOk(h.ws[k], h.main, k);
  }

  lemma OwnAcrossRaise(h: State, r: Record)
    requires Inv(h) && h.main.Raise? && h.ws[h.main.i].job.Some?
    requires ThreadRecordOk(r, h.ws[h.main.i], h.main, h.main.i)
    ensures ThreadRecordOk(MarkRaised(r), h.ws[h.main.i], MainNext(h).main, h.main.i)
    ensures r.runs == 1 && r.raises == 0 && r.hasCompleted == !Cut(r)
  {
    assert WorkerOk(h.ws[h.main.i], h.main, h.main.i);
  }

  lemma RaiseRecord(p: Pool, j: JobId)
    requires PoolInv(p) && PoolEnabled(p, Step(MainStep)) && p.h.main.Raise? && j in p.jobs
    ensures var q := PoolApply(p, Step(MainStep)); j in q.jobs && RecordOk(q, q.jobs[j])
  {
    var i, r := p.h.main.i, p.jobs[j];
    assert WorkerOk(p.h.ws[i], p.h.main, i);
    assert p.h.ws[i].job.Some?;
    assert Placed(p, p.h.ws[i].job.value) && Placed(p, j) && RecordOk(p, r);
    hide ThreadRecordOk, Inv, ViewOk;
    if r.place.OnThread? {
      if r.place.i == i { OwnAcrossRaise(p.h, r); } else { OthersAcrossRaise(p.h, r.place.i, r); }
    }
  }

  /** The job whose event is about to be raised has run once and not been raised; now it has been, and its handlers see
      whether it was cut. */
  lemma RaiseKeeps(p: Pool)
    requires PoolInv(p) && PoolEnabled(p, Step(MainStep)) && p.h.main.Raise?
    ensures var q := PoolApply(p, Step(MainStep)); var job := p.h.ws[p.h.main.i].job;
            && PoolInv(q) && q.ring == p.ring
            && job.Some? && job.value in p.jobs
            && var r := p.jobs[job.value];
               && r.runs == 1 && r.raises == 0 && r.hasCompleted == !Cut(r)
               && q.jobs == p.jobs[job.value := r.(raises := 1, verdict := r.hasCompleted)]
  {
    var q := PoolApply(p, Step(MainStep));
    StepInv(p.h, MainStep);
    var i := p.h.main.i;
    assert WorkerOk(p.h.ws[i], p.h.main, i);
    var job := p.h.ws[i].job.value;
    assert Placed(p, job) && RecordOk(p, p.jobs[job]);
    forall j ensures Placed(q, j) { RaisePlaced(p, j); }
    forall j | j in q.jobs ensures RecordOk(q, q.jobs[j]) { RaiseRecord(p, j); }
    hide Inv;
  }

  predicate Quiet(m: MainPc) { !m.StartStore? && !m.Raise? && !InStop(m) }

  lemma RecordAcrossMainStep(h: State, k: nat, r: Record)
    requires Inv(h) && MainEnabled(h) && Quiet(h.main) && k < |h.ws| && h.ws[k].job.Some?
    requires ThreadRecordOk(r, h.ws[k], h.main, k)
    ensures ThreadRecordOk(r, MainNext(h).ws[k], MainNext(h).main, k)
  {
    var g := MainNext(h);
    assert WorkerOk(h.ws[k], h.main, k);
    assert RaisedOn(g.main, k) == RaisedOn(h.main, k);
    assert Ran(g.ws[k], ViewOf(g.main, k)) == Ran(h.ws[k], ViewOf(h.main, k));
  }

  lemma MainStepQuiet(h: State)
    requires InRange(h) && MainEnabled(h) && Quiet(h.main)
    ensures var g := MainNext(h);
            && Hand(g.main) == Hand(h.main) && !InStop(g.main)
            && (h.main.UnlockAfter? ==> g.main.Dequeue?) && !h.main.Dequeue?
            && |g.ws| == |h.ws| && forall k | 0 <= k < |h.ws| :: g.ws[k].job == h.ws[k].job
  {}

  /** The other steps of the main thread do not touch jobs. */
  lemma QuietMainStepKeeps(p: Pool)
    requires PoolInv(p) && PoolEnabled(p, Step(MainStep)) && Quiet(p.h.main)
    ensures PoolInv(PoolApply(p, Step(MainStep)))
  {
    var q := PoolApply(p, Step(MainStep));
    StepInv(p.h, MainStep);
    MainStepQuiet(p.h);
    forall j ensures Placed(q, j) { assert Placed(p, j); }
    forall j | j in q.jobs ensures RecordOk(q, q.jobs[j]) {
      assert Placed(p, j) && RecordOk(p, p.jobs[j]);
      var r := p.jobs[j];
      if r.place.OnThread? { RecordAcrossMainStep(p.h, r.place.i, r); }
    }
  }

  lemma EndRaisePlaced(p: Pool, j: JobId)
    requires PoolInv(p) && PoolEnabled(p, Step(EndRaise))
    ensures Placed(PoolApply(p, Step(EndRaise)), j)
  {
    assert WorkerOk(p.h.ws[p.h.main.i], p.h.main, p.h.main.i);
    assert Placed(p, p.h.ws[p.h.main.i].job.value) && Placed(p, j) && RecordOk(p, p.jobs[p.h.ws[p.h.main.i].job.value]);
  }

  lemma RaisedRecord(h: State, r: Record)
    requires Inv(h) && h.main.Raising? && ThreadRecordOk(r, h.ws[h.main.i], h.main, h.main.i)
    ensures r.started && r.runs == 1 && r.raises == 1 && r.verdict == !Cut(r)
  {
    assert WorkerOk(h.ws[h.main.i], h.main, h.main.i);
  }

  lemma EndRaiseRecord(p: Pool, j: JobId)
    requires PoolInv(p) && PoolEnabled(p, Step(EndRaise)) && j in p.jobs
    ensures var q := PoolApply(p, Step(EndRaise)); j in q.jobs && RecordOk(q, q.jobs[j])
  {
    var i, r := p.h.main.i, p.jobs[j];
    assert WorkerOk(p.h.ws[i], p.h.main, i);
    assert p.h.ws[i].job.Some?;
    assert Placed(p, p.h.ws[i].job.value) && Placed(p, j) && RecordOk(p, r);
    if r.place.OnThread? {
      hide ThreadRecordOk, Inv, ViewOk;
      if r.place.i == i { RaisedRecord(p.h, r); } else { OthersAcrossRaise(p.h, r.place.i, r); }
    }
  }

  /** After the handlers the job is destroyed, once raised, and its thread is free. */
  lemma EndRaiseKeeps(p: Pool)
    requires PoolInv(p) && PoolEnabled(p, Step(EndRaise))
    ensures var q := PoolApply(p, Step(EndRaise)); var job := p.h.ws[p.h.main.i].job;
            && PoolInv(q) && q.ring == p.ring && q.h.ws[p.h.main.i].job == None
            && job.Some? && job.value in p.jobs && p.jobs[job.value].raises == 1
            && q.jobs == p.jobs[job.value := p.jobs[job.value].(place := Finished)]
  {
    var q := PoolApply(p, Step(EndRaise));
    StepInv(p.h, EndRaise);
    var i := p.h.main.i;
    assert WorkerOk(p.h.ws[i], p.h.main, i);
    var job := p.h.ws[i].job.value;
    assert Placed(p, job) && RecordOk(p, p.jobs[job]);
    forall j ensures Placed(q, j) { EndRaisePlaced(p, j); }
    forall j | j in q.jobs ensures RecordOk(q, q.jobs[j]) { EndRaiseRecord(p, j); }
    hide Inv;
  }

  // ---------- the queue ----------

  /** What is known of a job that has just been accepted. */
  predicate IsNew(r: Record, timeout: nat, place: Place) {
    && r.timeoutTicks == r.limit == timeout && r.hasCompleted && r.place == place
    && r.runs == r.raises == r.ticks == 0 && !r.started && !r.cancelled
  }

  lemma NoDuplicatesAppend(s: seq<JobId>, j: JobId)
    requires NoDuplicates(s) && j !in s
    ensures NoDuplicates(s + [j])
  {}

  lemma EnqueueInDoes(p: Pool, j: JobId, timeout: nat)
    requires Ring.Valid(p.ring) && RingInRange(p.ring) && j !in p.jobs
    ensures var q := EnqueueIn(p, j, timeout);
            && q.h == p.h
            && (if Ring.Used(p.ring) < |p.ring.slots| then
                  && Ring.Valid(q.ring) && Ring.Live(q.ring) == Ring.Live(p.ring) + [j]
                  && q.jobs.Keys == p.jobs.Keys + {j}
                  && IsNew(q.jobs[j], timeout, Queued) && forall k | k in p.jobs :: q.jobs[k] == p.jobs[k]
                else q == p)
  {
    Ring.EnqueueAppends(p.ring, j);
    hide Ring.Live, Ring.Valid, Ring.Enqueue;
  }

  lemma EnqueueInKeeps(p: Pool, j: JobId, timeout: nat)
    requires PoolInv(p) && j !in p.jobs && QueueAwaited(p)
    ensures PoolInv(EnqueueIn(p, j, timeout))
  {
    var q := EnqueueIn(p, j, timeout);
    Ring.EnqueueAppends(p.ring, j);
    assert Placed(p, j);
    if Ring.Enqueue(p.ring, j).1 { NoDuplicatesAppend(Ring.Live(p.ring), j); }
    forall k ensures Placed(q, k) { assert Placed(p, k); }
    forall k | k in q.jobs ensures RecordOk(q, q.jobs[k]) {
      assert k != j ==> RecordOk(p, p.jobs[k]);
    }
  }

  /** A thread's record does not depend on whether the main thread is about to start a job on a free one. */
  lemma RecordAcrossStart(p: Pool, j: JobId, timeout: nat, k: JobId)
    requires PoolInv(p) && PoolEnabled(p, Enqueue(j, timeout)) && AvailableThread(p.h.ws) < |p.h.ws| && k in p.jobs
    ensures RecordOk(PoolApply(p, Enqueue(j, timeout)), p.jobs[k])
  {
    assert RecordOk(p, p.jobs[k]) && Placed(p, k);
    var r := p.jobs[k];
    if r.place.OnThread? { assert WorkerOk(p.h.ws[r.place.i], p.h.main, r.place.i); }
  }

  lemma StartKeeps(p: Pool, j: JobId, timeout: nat)
    requires PoolInv(p) && PoolEnabled(p, Enqueue(j, timeout)) && AvailableThread(p.h.ws) < |p.h.ws|
    ensures PoolInv(PoolApply(p, Enqueue(j, timeout)))
  {
    var q := PoolApply(p, Enqueue(j, timeout));
    StepInv(p.h, Begin(AvailableThread(p.h.ws), j));
    assert Placed(p, j);
    forall k ensures Placed(q, k) { assert Placed(p, k); }
    forall k | k in q.jobs ensures RecordOk(q, q.jobs[k]) {
      if k != j { RecordAcrossStart(p, j, timeout, k); }
    }
  }

  /** A job is handed to the first thread without one, or appended to the queue if all have one, or refused if no slot is
      left either. */
  lemma EnqueueKeeps(p: Pool, j: JobId, timeout: nat)
    requires PoolInv(p) && PoolEnabled(p, Enqueue(j, timeout))
    ensures var q := PoolApply(p, Enqueue(j, timeout)); var i := AvailableThread(p.h.ws);
            && PoolInv(q)
            && (i < |p.h.ws| ==>
                  && q.h.ws == p.h.ws && q.h.main.StartLock? && q.h.main.i == i && q.h.main.j == j && q.ring == p.ring
                  && q.h.main.caller == (if p.h.main.EventLoop? then FromLoop else FromRaise(p.h.main.i)))
            && (i == |p.h.ws| && Ring.Used(p.ring) < |p.ring.slots| ==>
                  q.h == p.h && Ring.Live(q.ring) == Ring.Live(p.ring) + [j])
            && (i == |p.h.ws| && Ring.Used(p.ring) == |p.ring.slots| ==> q == p)
            && (j in q.jobs <==> i < |p.h.ws| || Ring.Used(p.ring) < |p.ring.slots|)
            && (j in q.jobs ==> IsNew(q.jobs[j], timeout, if i < |p.h.ws| then InHand else Queued))
            && forall k | k != j :: (k in q.jobs <==> k in p.jobs) && (k in p.jobs ==> q.jobs[k] == p.jobs[k])
  {
    if AvailableThread(p.h.ws) < |p.h.ws| {
      StartKeeps(p, j, timeout);
      hide PoolInv;
    } else {
      assert p.h.ws[0].job.Some?;
      EnqueueInKeeps(p, j, timeout);
      assert PoolApply(p, Enqueue(j, timeout)) == EnqueueIn(p, j, timeout);
      assert Ring.Valid(p.ring);
      hide *;
      EnqueueInDoes(p, j, timeout);
    }
  }

  /** A job enqueued by a job is appended to the queue, or refused if no slot is left. */
  lemma WorkerEnqueueKeeps(p: Pool, i: nat, j: JobId, timeout: nat)
    requires PoolInv(p) && PoolEnabled(p, WorkerEnqueue(i, j, timeout))
    ensures var q := PoolApply(p, WorkerEnqueue(i, j, timeout));
            && PoolInv(q) && q.h == p.h
            && (if Ring.Used(p.ring) < |p.ring.slots| then
                  && Ring.Live(q.ring) == Ring.Live(p.ring) + [j] && q.jobs.Keys == p.jobs.Keys + {j}
                  && IsNew(q.jobs[j], timeout, Queued) && forall k | k in p.jobs :: q.jobs[k] == p.jobs[k]
                else q == p)
  {
    assert WorkerOk(p.h.ws[i], p.h.main, i);
    assert PoolApply(p, WorkerEnqueue(i, j, timeout)) == EnqueueIn(p, j, timeout);
    hide ViewOk;
    EnqueueInKeeps(p, j, timeout);
    EnqueueInDoes(p, j, timeout);
    hide *;
  }

  /** A thread's record does not depend on whether the main thread is about to take a job for another one, or has. */
  lemma RecordAcrossTake(h: State, next: Option<JobId>, k: nat, r: Record)
    requires Inv(h) && h.main.Dequeue? && k < |h.ws| && h.ws[k].job.Some? && ThreadRecordOk(r, h.ws[k], h.main, k)
    ensures ThreadRecordOk(r, h.ws[k], Apply(h, Next(next)).main, k)
  {
    assert WorkerOk(h.ws[k], h.main, k);
  }

  lemma TakeNextRecord(p: Pool, j: JobId)
    requires PoolInv(p) && PoolEnabled(p, TakeNext) && j in p.jobs
    ensures var q := PoolApply(p, TakeNext); j in q.jobs && RecordOk(q, q.jobs[j])
  {
    hide Ring.Live, Ring.Dequeue, Inv, ThreadRecordOk, Ring.Valid;
    Ring.DequeueTakesOldest(p.ring);
    var next := Ring.Dequeue(p.ring).1;
    if next.Some? { assert Placed(p, next.value) && next.value == Ring.Live(p.ring)[0]; }
    assert RecordOk(p, p.jobs[j]) && Placed(p, j);
    var r := p.jobs[j];
    if r.place.OnThread? { RecordAcrossTake(p.h, next, r.place.i, r); }
  }

  lemma TakeNextPlaced(p: Pool, j: JobId)
    requires PoolInv(p) && PoolEnabled(p, TakeNext)
    ensures Ring.Valid(PoolApply(p, TakeNext).ring) && Placed(PoolApply(p, TakeNext), j)
  {
    var live := Ring.Live(p.ring);
    Ring.DequeueTakesOldest(p.ring);
    var next := Ring.Dequeue(p.ring).1;
    hide Inv, RecordOk, Ring.Live, Ring.Dequeue, NoDuplicates, Ring.Valid, Placed;
    if next.Some? { HeadAndRest(live, j); }
    PlacedAcrossTake(p, PoolApply(p, TakeNext), next, j);
  }

  lemma PlacedAcrossTake(p: Pool, q: Pool, next: Option<JobId>, j: JobId)
    requires Ring.Valid(p.ring) && Ring.Valid(q.ring) && q.h.ws == p.h.ws
    requires Hand(p.h.main) == None && Hand(q.h.main) == next
    requires j in Ring.Live(q.ring) <==> j in Ring.Live(p.ring) && next != Some(j)
    requires q.jobs == Update(p, next, (r: Record) => r.(place := InHand))
    requires next.Some? ==> next.value in Ring.Live(p.ring) && Placed(p, next.value)
    requires Placed(p, j)
    ensures Placed(q, j)
  {
    hide Ring.Live, Ring.Valid;
  }

  lemma HeadAndRest(s: seq<JobId>, j: JobId)
    requires NoDuplicates(s) && s != []
    ensures j in s[1..] <==> j in s && j != s[0]
  {
    assert s == [s[0]] + s[1..];
  }

  /** The thread that just finished gets the oldest live job, if there is one: it leaves the queue for the main thread's
      hand. */
  lemma TakeNextKeeps(p: Pool)
    requires PoolInv(p) && PoolEnabled(p, TakeNext)
    ensures var q := PoolApply(p, TakeNext); var live := Ring.Live(p.ring);
            && PoolInv(q)
            && (if live == [] then Hand(q.h.main) == None && Ring.Live(q.ring) == [] && q.jobs == p.jobs
                else && Hand(q.h.main) == Some(live[0]) && Ring.Live(q.ring) == live[1..] && live[0] in p.jobs
                     && q.jobs == p.jobs[live[0] := p.jobs[live[0]].(place := InHand)])
  {
    var q := PoolApply(p, TakeNext);
    var live := Ring.Live(p.ring);
    Ring.DequeueTakesOldest(p.ring);
    var next := Ring.Dequeue(p.ring).1;
    StepInv(p.h, Next(next));
    if next.Some? { assert Placed(p, next.value) && live[0] == next.value; }
    hide ViewOk, Inv;
    forall j ensures Placed(q, j) { TakeNextPlaced(p, j); }
    forall j | j in q.jobs ensures RecordOk(q, q.jobs[j]) { TakeNextRecord(p, j); }
  }

  lemma RemoveFirstMembers(s: seq<JobId>, j: JobId)
    requires NoDuplicates(s)
    ensures var t := Ring.RemoveFirst(s, j);
            && NoDuplicates(t) && (t != [] ==> s != [])
            && forall k :: k in t <==> k in s && k != j
  {
    var i := Ring.IndexOf(s, j);
    var t := Ring.RemoveFirst(s, j);
    if i < |s| {
      forall k ensures k in t <==> k in s && k != j {
        assert s == s[..i] + [j] + s[i + 1..];
      }
    }
  }

  lemma SameHandshake(p: Pool, q: Pool, r: Record)
    requires p.h == q.h
    ensures RecordOk(p, r) == RecordOk(q, r)
  {
    hide ThreadRecordOk;
  }

  /** The invariant when only records and queue have changed. */
  lemma InvWithSameHandshake(p: Pool, q: Pool)
    requires PoolInv(p) && q.h == p.h && Ring.Valid(q.ring) && NoDuplicates(Ring.Live(q.ring))
    requires Ring.Live(q.ring) != [] ==> Ring.Live(p.ring) != []
    requires forall k :: Placed(q, k)
    requires forall k | k in q.jobs :: RecordOk(q, q.jobs[k])
    ensures PoolInv(q)
  {
    hide Placed, RecordOk, Inv, Ring.Live, Ring.Valid, NoDuplicates;
  }

  lemma CancelledIs(r: Record)
    ensures MarkCancelled(r) == r.(hasCompleted := false, cancelled := r.cancelled || r.raises == 0)
  {}

  lemma CancelledRecord(h: State, i: nat, r: Record)
    requires i < |h.ws| && ThreadRecordOk(r, h.ws[i], h.main, i)
    ensures ThreadRecordOk(MarkCancelled(r), h.ws[i], h.main, i)
  {}

  /** Cancelling a job that a thread has changes nothing but what its handlers will see. */
  lemma CancelOnThreadKeeps(p: Pool, j: JobId)
    requires PoolInv(p) && PoolEnabled(p, Cancel(j)) && ThreadOf(p.h.ws, j) < |p.h.ws|
    ensures var q := PoolApply(p, Cancel(j));
            && PoolInv(q) && q.h == p.h && q.ring == p.ring && j in p.jobs
            && q.jobs == p.jobs[j := p.jobs[j].(hasCompleted := false,
                                               cancelled := p.jobs[j].cancelled || p.jobs[j].raises == 0)]
  {
    var q := PoolApply(p, Cancel(j));
    CancelOnThreadDoes(p, j);
    InvParts(p);
    CancelledIs(p.jobs[j]);
    hide *;
    forall k ensures Placed(q, k) { CancelledPlaced(p, q, j, k); }
    forall k | k in q.jobs ensures RecordOk(q, q.jobs[k]) {
      if k != j { SameHandshake(p, q, p.jobs[k]); }
    }
    InvWithSameHandshake(p, q);
  }

  lemma CancelOnThreadDoes(p: Pool, j: JobId)
    requires PoolInv(p) && PoolEnabled(p, Cancel(j)) && ThreadOf(p.h.ws, j) < |p.h.ws|
    ensures var q := PoolApply(p, Cancel(j));
            && j in p.jobs && q == p.(jobs := p.jobs[j := MarkCancelled(p.jobs[j])])
            && RecordOk(q, MarkCancelled(p.jobs[j]))
  {
    var i := ThreadOf(p.h.ws, j);
    assert Placed(p, j) && j in p.jobs && RecordOk(p, p.jobs[j]);
    CancelledRecord(p.h, i, p.jobs[j]);
    hide ThreadRecordOk, Inv, Ring.Live;
  }

  lemma CancelledPlaced(p: Pool, q: Pool, j: JobId, k: JobId)
    requires Ring.Valid(p.ring) && Placed(p, k) && j in p.jobs && q == p.(jobs := p.jobs[j := MarkCancelled(p.jobs[j])])
    ensures Placed(q, k)
  {
    hide Ring.Live, Ring.Valid;
  }

  lemma CancelQueuedDoes(p: Pool, j: JobId)
    requires PoolInv(p) && PoolEnabled(p, Cancel(j)) && ThreadOf(p.h.ws, j) == |p.h.ws|
    ensures var q := PoolApply(p, Cancel(j)); var live := Ring.Live(p.ring);
            && q.h == p.h && Ring.Valid(q.ring) && Ring.Live(q.ring) == Ring.RemoveFirst(live, j)
            && (if j in live then
                  && j in p.jobs && p.jobs[j].place == Queued && Untouched(p.jobs[j])
                  && q.jobs == p.jobs[j := MarkDropped(p.jobs[j])]
                else q == p)
  {
    Ring.CancelRemoves(p.ring, j);
    assert Placed(p, j);
    assert j in p.jobs ==> RecordOk(p, p.jobs[j]);
    hide Inv, Ring.Live, Ring.RemoveFirst;
  }

  lemma DroppedPlaced(p: Pool, q: Pool, j: JobId, k: JobId)
    requires Ring.Valid(p.ring) && Ring.Valid(q.ring) && Placed(p, j) && Placed(p, k)
    requires q.h == p.h && j in p.jobs && p.jobs[j].place == Queued && q.jobs == p.jobs[j := MarkDropped(p.jobs[j])]
    requires k in Ring.Live(q.ring) <==> k in Ring.Live(p.ring) && k != j
    ensures Placed(q, k)
  {
    hide Ring.Live, Ring.Valid;
  }

  lemma DroppedIs(r: Record)
    requires r.raises == 0
    ensures MarkDropped(r) == r.(hasCompleted := false, cancelled := true, raises := 1, verdict := false, place := Finished)
  {}

  lemma DroppedRecord(p: Pool, r: Record)
    requires Untouched(r)
    ensures RecordOk(p, MarkDropped(r)) && r.runs == 0 && r.raises == 0
  {}

  lemma InvParts(p: Pool)
    requires PoolInv(p)
    ensures Ring.Valid(p.ring) && NoDuplicates(Ring.Live(p.ring))
    ensures forall k :: Placed(p, k)
    ensures forall k | k in p.jobs :: RecordOk(p, p.jobs[k])
  {
    hide Placed, RecordOk, Inv;
  }

  /** Cancelling a queued job takes it out of the queue and finishes it at once, without running it; a job that is in
      neither place is left alone. */
  lemma CancelQueuedKeeps(p: Pool, j: JobId)
    requires PoolInv(p) && PoolEnabled(p, Cancel(j)) && ThreadOf(p.h.ws, j) == |p.h.ws|
    ensures var q := PoolApply(p, Cancel(j)); var live := Ring.Live(p.ring);
            && PoolInv(q) && q.h == p.h && Ring.Live(q.ring) == Ring.RemoveFirst(live, j)
            && (if j in live then
                  && j in p.jobs && p.jobs[j].place == Queued && p.jobs[j].runs == 0 && p.jobs[j].raises == 0
                  && q.jobs == p.jobs[j := p.jobs[j].(hasCompleted := false, cancelled := true, raises := 1,
                                                     verdict := false, place := Finished)]
                else q == p)
  {
    var q, live := PoolApply(p, Cancel(j)), Ring.Live(p.ring);
    hide *;
    CancelQueuedDoes(p, j);
    InvParts(p);
    RemoveFirstMembers(live, j);
    if j in live {
      DroppedRecord(q, p.jobs[j]);
      DroppedIs(p.jobs[j]);
      forall k ensures Placed(q, k) { DroppedPlaced(p, q, j, k); }
      forall k | k in q.jobs ensures RecordOk(q, q.jobs[k]) {
        if k != j { SameHandshake(p, q, p.jobs[k]); }
      }
      InvWithSameHandshake(p, q);
    }
  }

  // ---------- ticks ----------

  /** One tick less of a timeout, and the last one clears `hasCompleted`. */
  predicate Ticked(r: Record, s: Record) {
    && s.timeoutTicks == (if r.timeoutTicks > 0 then r.timeoutTicks - 1 else 0)
    && s.hasCompleted == (r.hasCompleted && r.timeoutTicks != 1)
    && s.ticks == r.ticks + 1
    && s.(timeoutTicks := r.timeoutTicks, hasCompleted := r.hasCompleted, ticks := r.ticks) == r
  }

  /** Ticking thread after thread ticks each job that a thread has once. */
  lemma {:induction false} TickThreadsEach(ws: seq<Worker>, jobs: map<JobId, Record>, j: JobId)
    requires forall a, b | 0 <= a < b < |ws| :: ws[a].job.Some? ==> ws[a].job != ws[b].job
    requires j in jobs
    ensures TickThreads(ws, jobs).Keys == jobs.Keys
    ensures TickThreads(ws, jobs)[j] ==
      if exists i :: 0 <= i < |ws| && ws[i].job == Some(j) then Tick(jobs[j]) else jobs[j]
    ensures Ticked(jobs[j], Tick(jobs[j]))
  {
    if ws != [] {
      var first := if ws[0].job.Some? && ws[0].job.value in jobs
                   then jobs[ws[0].job.value := Tick(jobs[ws[0].job.value])] else jobs;
      TickThreadsEach(ws[1..], first, j);
      if ws[0].job == Some(j) {
        assert forall i :: 0 <= i < |ws[1..]| ==> ws[1..][i] == ws[i + 1];
      } else if i :| 0 <= i < |ws| && ws[i].job == Some(j) {
        assert ws[1..][i - 1].job == Some(j);
      }
    }
  }

  lemma TickEffect(p: Pool)
    requires PoolInv(p)
    ensures var jobs := TickThreads(p.h.ws, p.jobs);
            && jobs.Keys == p.jobs.Keys
            && forall j | j in p.jobs :: jobs[j] == if p.jobs[j].place.OnThread? then Tick(p.jobs[j]) else p.jobs[j]
  {
    var ws, jobs := p.h.ws, TickThreads(p.h.ws, p.jobs);
    forall a, b | 0 <= a < b < |ws| && ws[a].job.Some? ensures ws[a].job != ws[b].job {
      assert Placed(p, ws[a].job.value);
    }
    if p.jobs.Keys == {} {
      TickThreadsEmpty(ws, p.jobs);
    } else {
      var j :| j in p.jobs;
      TickThreadsEach(ws, p.jobs, j);
    }
    forall j | j in p.jobs
      ensures jobs[j] == if p.jobs[j].place.OnThread? then Tick(p.jobs[j]) else p.jobs[j]
    {
      TickThreadsEach(ws, p.jobs, j);
      assert Placed(p, j) && RecordOk(p, p.jobs[j]);
      if p.jobs[j].place.OnThread? { assert ws[p.jobs[j].place.i].job == Some(j); }
    }
  }

  /** A tick keeps `timeoutTicks` and `hasCompleted` in step with the ticks counted. */
  lemma TickRecordKeeps(r: Record, w: Worker, i: nat)
    requires ThreadRecordOk(r, w, EventLoop, i)
    ensures ThreadRecordOk(Tick(r), w, EventLoop, i) && Tick(r).place == r.place
  {}

  lemma TickKeeps(p: Pool)
    requires PoolInv(p) && PoolEnabled(p, TickAll)
    ensures PoolInv(PoolApply(p, TickAll))
  {
    var jobs := TickThreads(p.h.ws, p.jobs);
    var q := p.(jobs := jobs);
    TickEffect(p);
    forall j | j in jobs ensures jobs[j].place == p.jobs[j].place && RecordOk(q, jobs[j]) {
      var r := p.jobs[j];
      assert RecordOk(p, r);
      if r.place.OnThread? { TickRecordKeeps(r, p.h.ws[r.place.i], r.place.i); }
    }
    forall j ensures Placed(q, j) { assert Placed(p, j); }
  }

  lemma {:induction false} TickThreadsEmpty(ws: seq<Worker>, jobs: map<JobId, Record>)
    requires jobs.Keys == {}
    ensures TickThreads(ws, jobs) == jobs
  {
    if ws != [] { TickThreadsEmpty(ws[1..], jobs); }
  }

  // ---------- whole runs ----------

  lemma PoolStepKeeps(p: Pool, x: PoolAction)
    requires PoolInv(p) && PoolEnabled(p, x)
    ensures PoolInv(PoolApply(p, x))
  {
    match x
    case Step(WorkerStep(i)) => WorkerStepKeeps(p, i);
    case Step(MainStep) =>
      if p.h.main.StartStore? { StoreKeeps(p); }
      else if p.h.main.Raise? { RaiseKeeps(p); }
      else { QuietMainStepKeeps(p); }
    case Step(Ready(i)) => ReadyKeeps(p, i);
    case Step(EndRaise) => EndRaiseKeeps(p);
    case Enqueue(j, timeout) => EnqueueKeeps(p, j, timeout);
    case WorkerEnqueue(i, j, timeout) => WorkerEnqueueKeeps(p, i, j, timeout);
    case TakeNext => TakeNextKeeps(p);
    case Cancel(j) =>
      if ThreadOf(p.h.ws, j) < |p.h.ws| { CancelOnThreadKeeps(p, j); } else { CancelQueuedKeeps(p, j); }
    case TickAll => TickKeeps(p);
  }

  lemma {:induction false} PoolRunKeeps(p: Pool, xs: seq<PoolAction>)
    requires PoolInv(p) && PoolRun(p, xs)
    ensures PoolInv(PoolAfter(p, xs))
    decreases |xs|
  {
    if xs != [] {
      PoolStepKeeps(p, xs[0]);
      PoolRunKeeps(PoolApply(p, xs[0]), xs[1..]);
    }
  }

  /** Number of places in which a job physically is: occurrences in the queue, on threads, in the main thread's hand. */
  function Occurrences(s: seq<JobId>, j: JobId): nat {
    if s == [] then 0 else (if s[0] == j then 1 else 0) + Occurrences(s[1..], j)
  }

  function OnThreads(ws: seq<Worker>, j: JobId): nat {
    if ws == [] then 0 else (if ws[0].job == Some(j) then 1 else 0) + OnThreads(ws[1..], j)
  }

  function CopiesOf(p: Pool, j: JobId): nat
    requires Ring.Valid(p.ring)
  {
    Occurrences(Ring.Live(p.ring), j) + OnThreads(p.h.ws, j) + (if Hand(p.h.main) == Some(j) then 1 else 0)
  }

  lemma {:induction false} OccursOnce(s: seq<JobId>, j: JobId)
    requires NoDuplicates(s)
    ensures Occurrences(s, j) == if j in s then 1 else 0
  {
    if s != [] {
      OccursOnce(s[1..], j);
      assert s == [s[0]] + s[1..];
    }
  }

  lemma {:induction false} OnOneThread(ws: seq<Worker>, j: JobId)
    requires forall a, b | 0 <= a < b < |ws| :: !(ws[a].job == Some(j) && ws[b].job == Some(j))
    ensures OnThreads(ws, j) == if exists i :: 0 <= i < |ws| && ws[i].job == Some(j) then 1 else 0
  {
    if ws != [] {
      OnOneThread(ws[1..], j);
      assert forall i :: 0 <= i < |ws[1..]| ==> ws[1..][i] == ws[i + 1];
      if i :| 0 <= i < |ws| && ws[i].job == Some(j) {
        if i > 0 { assert ws[1..][i - 1].job == Some(j); }
      }
    }
  }

  /** What is known of a job after any run. */
  ghost predicate Accounted(p: Pool, j: JobId)
    requires Ring.Valid(p.ring)
  {
    // not accepted: nowhere
    && (j !in p.jobs ==> CopiesOf(p, j) == 0)
    // accepted: in exactly one of queue, hand, thread, or finished
    && (j in p.jobs ==> CopiesOf(p, j) == if p.jobs[j].place.Finished? then 0 else 1)
    // `finished` is raised exactly once, and not before a started job's proc has run exactly once
    && (j in p.jobs ==>
          var r := p.jobs[j];
          && r.raises <= 1 && r.runs <= 1
          && (r.place.Finished? ==> r.raises == 1)
          && (r.raises == 1 ==> r.runs == if r.started then 1 else 0)
          && (!r.started && r.raises == 1 ==> r.cancelled)
          // its handlers see hasCompleted == 0 exactly if it was cancelled or timed out
          && (r.raises == 1 ==> r.verdict == !Cut(r)))
  }

  lemma InvAccounts(p: Pool, j: JobId)
    requires PoolInv(p)
    ensures Accounted(p, j)
  {
    assert Placed(p, j);
    OccursOnce(Ring.Live(p.ring), j);
    OnOneThread(p.h.ws, j);
    if j in p.jobs {
      var r := p.jobs[j];
      assert RecordOk(p, r);
      if r.place.OnThread? {
        assert p.h.ws[r.place.i].job == Some(j);
        assert WorkerOk(p.h.ws[r.place.i], p.h.main, r.place.i);
      }
    }
  }

  /** Conservation: after any run of any number of threads every accepted job is in exactly one place and its
      event is raised exactly once. */
  lemma JobsAreConserved(n: nat, queuesize: nat, xs: seq<PoolAction>, j: JobId)
    requires n > 0 && queuesize > 0 && PoolRun(Start(n, queuesize), xs)
    ensures PoolInv(PoolAfter(Start(n, queuesize), xs)) && Accounted(PoolAfter(Start(n, queuesize), xs), j)
  {
    StartInv(n, queuesize);
    PoolRunKeeps(Start(n, queuesize), xs);
    InvAccounts(PoolAfter(Start(n, queuesize), xs), j);
  }

  /** No job is stranded: where the main thread is in its loop and no thread has a job, every accepted
      job has finished. */
  lemma RestMeansAllFinished(n: nat, queuesize: nat, xs: seq<PoolAction>)
    requires n > 0 && queuesize > 0 && PoolRun(Start(n, queuesize), xs)
    ensures var p := PoolAfter(Start(n, queuesize), xs);
            && Ring.Valid(p.ring) && (Ring.Live(p.ring) != [] ==> QueueAwaited(p))
            && (p.h.main.EventLoop? && (forall i | 0 <= i < |p.h.ws| :: p.h.ws[i].job.None?) ==>
                  forall j | j in p.jobs :: p.jobs[j].place.Finished? && p.jobs[j].raises == 1)
  {
    StartInv(n, queuesize);
    PoolRunKeeps(Start(n, queuesize), xs);
    var p := PoolAfter(Start(n, queuesize), xs);
    if p.h.main.EventLoop? && forall i | 0 <= i < |p.h.ws| :: p.h.ws[i].job.None? {
      forall j | j in p.jobs ensures p.jobs[j].place.Finished? && p.jobs[j].raises == 1 {
        assert Placed(p, j) && RecordOk(p, p.jobs[j]);
      }
    }
  }
}
