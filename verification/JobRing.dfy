/** The bounded job queue of threadpool.c: a ring in which ThreadPool_cancel punches holes. */
module JobRing {
  import opened ThreadJob
  import opened Wrappers
  import opened Sequences

  /** jobQueue, queueAvail, nextIdx and lastIdx; queuesize is |slots|. */
  datatype Ring = Ring(slots: seq<Option<JobId>>, avail: nat, next: nat, last: nat)

  function Used(r: Ring): nat
    requires r.avail <= |r.slots|
  {
    |r.slots| - r.avail
  }

  /** The index of the k-th slot, counted from the oldest one. */
  function At(r: Ring, k: nat): (i: nat)
    requires r.last < |r.slots| && k < |r.slots|
    ensures i < |r.slots|
  {
    Wrap(r.last + k, |r.slots|)
  }

  /** queueAvail and the slots from lastIdx up to nextIdx, holes included, make up the queue; the others are empty. */
  ghost predicate Valid(r: Ring) {
    && |r.slots| > 0 && r.avail <= |r.slots| && r.next < |r.slots| && r.last < |r.slots|
    && r.next == Wrap(r.last + Used(r), |r.slots|)
    && forall k | Used(r) <= k < |r.slots| :: r.slots[At(r, k)].None?
  }

  /** The occupied slots, oldest first. */
  function Window(r: Ring): (w: seq<Option<JobId>>)
    requires r.avail <= |r.slots| && (|r.slots| > 0 ==> r.last < |r.slots|)
    ensures |w| == Used(r)
    ensures forall k | 0 <= k < Used(r) :: w[k] == r.slots[At(r, k)]
  {
    seq(Used(r), k requires 0 <= k < Used(r) => r.slots[At(r, k)])
  }

  /** The jobs of a window, without its holes. */
  function Jobs(w: seq<Option<JobId>>): seq<JobId> {
    if w == [] then []
    else JobOf(w[0]) + Jobs(w[1..])
  }

  /** The queue as the rest of the program sees it: the live jobs in the order they arrived. */
  function Live(r: Ring): seq<JobId>
    requires r.avail <= |r.slots| && (|r.slots| > 0 ==> r.last < |r.slots|)
  {
    Jobs(Window(r))
  }

  // ---------- the three operations ----------

  /** enqueueJob (189-201); the flag is `rc == 0`. */
  function Enqueue(r: Ring, j: JobId): (Ring, bool)
    requires r.next < |r.slots|
  {
    if r.avail == 0 then (r, false)
    else (r.(slots := r.slots[r.next := Some(j)], avail := r.avail - 1,
             next := if r.next + 1 == |r.slots| then 0 else r.next + 1), true)
  }

  /** One turn of the loop of dequeueJob (210-213). */
  function Pop(r: Ring): Ring
    requires r.last < |r.slots|
  {
    r.(slots := r.slots[r.last := None], avail := r.avail + 1,
       last := if r.last + 1 == |r.slots| then 0 else r.last + 1)
  }

  /** dequeueJob (203-217). */
  function Dequeue(r: Ring): (Ring, Option<JobId>)
    requires r.last < |r.slots| && r.avail <= |r.slots|
    decreases |r.slots| - r.avail
  {
    if r.avail == |r.slots| then (r, None)
    else if r.slots[r.last].Some? then (Pop(r), r.slots[r.last])
    else Dequeue(Pop(r))
  }

  /** The queue part of ThreadPool_cancel (475-490): the k-th slot becomes a hole. */
  function Punch(r: Ring, k: nat): Ring
    requires r.last < |r.slots| && k < |r.slots|
  {
    r.(slots := r.slots[At(r, k) := None])
  }

  function Cancel(r: Ring, j: JobId): (Ring, bool)
    requires r.avail <= |r.slots| && r.last < |r.slots|
  {
    var w := Window(r);
    var k := IndexOf(w, Some(j));
    if k < |w| then (Punch(r, k), true) else (r, false)
  }

  function IndexOf<T(==)>(s: seq<T>, x: T): (k: nat)
    ensures k <= |s|
    ensures k < |s| ==> s[k] == x
    ensures x !in s[..k]
    ensures k == |s| ==> x !in s
  {
    if s == [] then 0 else if s[0] == x then 0
    else
      var k := 1 + IndexOf(s[1..], x);
      assert s[..k] == [s[0]] + s[1..][..k - 1];
      k
  }

  function RemoveFirst<T(==)>(s: seq<T>, x: T): seq<T> {
    var k := IndexOf(s, x);
    if k < |s| then s[..k] + s[k + 1..] else s
  }

  // ---------- lemmas on windows ----------

  function JobOf(slot: Option<JobId>): seq<JobId> { if slot.Some? then [slot.value] else [] }

  lemma JobsStep(w: seq<Option<JobId>>)
    requires w != []
    ensures Jobs(w) == JobOf(w[0]) + Jobs(w[1..])
  {}

  lemma {:induction false} JobsAppend(a: seq<Option<JobId>>, b: seq<Option<JobId>>)
    ensures Jobs(a + b) == Jobs(a) + Jobs(b)
  {
    if a == [] {
      assert a + b == b;
    } else {
      hide *;
      assert Jobs(a + b) == JobOf(a[0]) + Jobs(a[1..] + b) by {
        JobsStep(a + b);
        assert (a + b)[1..] == a[1..] + b && (a + b)[0] == a[0];
      }
      JobsAppend(a[1..], b);
      JobsStep(a);
      Reassociate(JobOf(a[0]), Jobs(a[1..]), Jobs(b));
    }
  }

  lemma {:induction false} JobsMember(w: seq<Option<JobId>>, j: JobId)
    ensures j in Jobs(w) <==> Some(j) in w
  {
    if w != [] {
      JobsMember(w[1..], j);
      assert w == [w[0]] + w[1..];
    }
  }

  lemma JobsSplit(w: seq<Option<JobId>>, k: nat)
    requires k < |w|
    ensures Jobs(w) == Jobs(w[..k]) + (Jobs([w[k]]) + Jobs(w[k + 1..]))
  {
    hide *;
    assert w == w[..k] + w[k..] && w[k..] == [w[k]] + w[k + 1..];
    JobsAppend(w[..k], w[k..]);
    JobsAppend([w[k]], w[k + 1..]);
  }

  // ---------- the ring refines a FIFO of live jobs ----------

  /** Enqueueing appends, or refuses exactly when no slot is left. */
  lemma EnqueueAppends(r: Ring, j: JobId)
    requires Valid(r)
    ensures var (r', ok) := Enqueue(r, j);
            && Valid(r') && ok == (Used(r) < |r.slots|) && |r'.slots| == |r.slots|
            && Live(r') == if ok then Live(r) + [j] else Live(r)
  {
    var (r', ok) := Enqueue(r, j);
    if ok {
      assert At(r, Used(r)) == r.next;
      assert Window(r') == Window(r) + [Some(j)];
      JobsAppend(Window(r), [Some(j)]);
      forall k | Used(r') <= k < |r'.slots| ensures r'.slots[At(r', k)].None? {
        assert r.slots[At(r, k)].None?;
      }
    }
  }

  lemma PopDrops(r: Ring)
    requires Valid(r) && Used(r) > 0
    ensures Valid(Pop(r)) && |Pop(r).slots| == |r.slots| && Window(Pop(r)) == Window(r)[1..]
    ensures Window(r)[0] == r.slots[r.last]
  {
    var q := Pop(r);
    assert At(r, 0) == r.last;
    forall k | 0 <= k < Used(q) ensures q.slots[At(q, k)] == r.slots[At(r, k + 1)] {}
    forall k | Used(q) <= k < |q.slots| ensures q.slots[At(q, k)].None? {
      if k + 1 < |q.slots| {
        assert At(q, k) == At(r, k + 1);
        assert r.slots[At(r, k + 1)].None?;
      } else {
        assert At(q, k) == r.last;
      }
    }
    assert Window(q) == Window(r)[1..];
  }

  /** dequeueJob skips the holes and returns the oldest live job, or nothing exactly when there is none. */
  lemma {:induction false} DequeueTakesOldest(r: Ring)
    requires Valid(r)
    ensures var (r', j) := Dequeue(r);
            && Valid(r') && |r'.slots| == |r.slots|
            && (if Live(r) == [] then j.None? && Live(r') == [] && r'.avail == |r.slots|
                else j == Some(Live(r)[0]) && Live(r') == Live(r)[1..])
    decreases Used(r)
  {
    if Used(r) > 0 {
      PopDrops(r);
      if r.slots[r.last].None? { DequeueTakesOldest(Pop(r)); }
    }
  }

  /** Cancelling finds a job exactly if it is queued, also in a full ring, and removes only that job. */
  lemma CancelRemoves(r: Ring, j: JobId)
    requires Valid(r)
    ensures var (r', found) := Cancel(r, j);
            && Valid(r') && |r'.slots| == |r.slots| && found == (j in Live(r))
            && r'.avail == r.avail && Live(r') == RemoveFirst(Live(r), j)
  {
    var w := Window(r);
    var k := IndexOf(w, Some(j));
    JobsMember(w, j);
    if k < |w| {
      PunchKeepsValid(r, k);
      JobsWithout(w, k, j);
    }
  }

  lemma JobsWithout(w: seq<Option<JobId>>, k: nat, j: JobId)
    requires k < |w| && w[k] == Some(j) && Some(j) !in w[..k]
    ensures Jobs(w[k := None]) == RemoveFirst(Jobs(w), j)
  {
    var pre, post := Jobs(w[..k]), Jobs(w[k + 1..]);
    JobsMember(w[..k], j);
    RemoveFirstAt(pre, j, post);
    assert Jobs(w) == pre + ([j] + post) by {
      JobsSplit(w, k);
      assert Jobs([w[k]]) == [j];
    }
    assert Jobs(w[k := None]) == pre + post by {
      JobsSplit(w[k := None], k);
      assert w[k := None][..k] == w[..k] && w[k := None][k + 1..] == w[k + 1..];
      assert Jobs([None]) == [] && [] + post == post;
    }
  }

  lemma PunchKeepsValid(r: Ring, k: nat)
    requires Valid(r) && k < Used(r)
    ensures Valid(Punch(r, k)) && Window(Punch(r, k)) == Window(r)[k := None]
  {
    var q := Punch(r, k);
    forall i | Used(q) <= i < |q.slots| ensures q.slots[At(q, i)].None? {
      assert r.slots[At(r, i)].None?;
    }
  }

  lemma {:induction false} IndexOfIs<T>(s: seq<T>, x: T, k: nat)
    requires k < |s| && s[k] == x && x !in s[..k]
    ensures IndexOf(s, x) == k
  {
    if k > 0 {
      assert s[..k][0] == s[0];
      assert s[..k] == [s[0]] + s[1..][..k - 1];
      IndexOfIs(s[1..], x, k - 1);
    }
  }

  lemma RemoveFirstAt(pre: seq<JobId>, j: JobId, post: seq<JobId>)
    requires j !in pre
    ensures RemoveFirst(pre + ([j] + post), j) == pre + post
  {
    var s := pre + ([j] + post);
    assert s[..|pre|] == pre && s[|pre| + 1..] == post;
    IndexOfIs(s, j, |pre|);
  }

  /** An empty ring of the given size (ThreadPool_init, 349-350 and 408-410). */
  function Empty(n: nat): Ring { Ring(seq(n, _ => None), n, 0, 0) }

  lemma EmptyIsEmpty(n: nat)
    requires n > 0
    ensures Valid(Empty(n)) && Live(Empty(n)) == []
  {}

  // ---------- the code itself ----------

  class JobQueue {
    var jobQueue: array<Option<JobId>>
    var queueAvail: nat
    var nextIdx: nat
    var lastIdx: nat

    function View(): Ring
      reads this, jobQueue
    {
      Ring(jobQueue[..], queueAvail, nextIdx, lastIdx)
    }

    constructor (queuesize: nat)
      requires queuesize > 0
      ensures View() == Empty(queuesize) && Valid(View()) && fresh(jobQueue)
    {
      jobQueue := new Option<JobId>[queuesize](_ => None);
      queueAvail, nextIdx, lastIdx := queuesize, 0, 0;
    }

    method EnqueueJob(job: JobId) returns (ok: bool)
      requires Valid(View())
      modifies this, jobQueue
      ensures jobQueue == old(jobQueue) && (View(), ok) == Enqueue(old(View()), job)
      ensures Valid(View())
      ensures Live(View()) == if ok then old(Live(View())) + [job] else old(Live(View()))
    {
      EnqueueAppends(View(), job);
      if queueAvail == 0 { return false; }
      jobQueue[nextIdx] := Some(job);
      nextIdx := nextIdx + 1;
      queueAvail := queueAvail - 1;
      if nextIdx == jobQueue.Length { nextIdx := 0; }
      ok := true;
    }

    method DequeueJob() returns (job: Option<JobId>)
      requires Valid(View())
      modifies this, jobQueue
      ensures jobQueue == old(jobQueue) && (View(), job) == Dequeue(old(View()))
      ensures Valid(View())
      ensures if old(Live(View())) == [] then job.None? && Live(View()) == []
              else job == Some(old(Live(View()))[0]) && Live(View()) == old(Live(View()))[1..]
    {
      DequeueTakesOldest(View());
      job := None;
      while job.None?
        invariant jobQueue == old(jobQueue) && Valid(View())
        invariant Dequeue(old(View())) == if job.None? then Dequeue(View()) else (View(), job)
        decreases jobQueue.Length - queueAvail, job.None?
      {
        if queueAvail == jobQueue.Length { break; }
        PopDrops(View());
        ghost var before := View();
        job := jobQueue[lastIdx];
        jobQueue[lastIdx] := None;
        lastIdx := lastIdx + 1;
        queueAvail := queueAvail + 1;
        if lastIdx == jobQueue.Length { lastIdx := 0; }
        assert View() == Pop(before);
      }
    }

    /** The do-while loop of ThreadPool_cancel over the occupied slots. */
    method CancelQueued(job: JobId) returns (found: bool)
      requires Valid(View())
      modifies jobQueue
      ensures (View(), found) == Cancel(old(View()), job)
      ensures Valid(View()) && found == (job in old(Live(View())))
      ensures Live(View()) == RemoveFirst(old(Live(View())), job)
    {
      hide RemoveFirst, Jobs, IndexOf;
      ghost var r := View();
      CancelRemoves(r, job);
      found := false;
      if queueAvail != jobQueue.Length {
        ghost var k := 0;
        var i := lastIdx;
        var first := true;
        while first || i != nextIdx
          invariant 0 <= k <= Used(r) && (first <==> k == 0)
          invariant i == Wrap(lastIdx + k, jobQueue.Length)
          invariant Some(job) !in Window(r)[..k]
          invariant View() == r
          decreases Used(r) - k
        {
          first := false;
          assert k < Used(r) && i == At(r, k);
          if jobQueue[i] == Some(job) {
            IndexOfIs(Window(r), Some(job), k);
            jobQueue[i] := None;
            assert View() == Punch(r, k);
            return true;
          }
          assert Window(r)[..k + 1] == Window(r)[..k] + [Window(r)[k]];
          i := i + 1;
          if i == jobQueue.Length { i := 0; }
          k := k + 1;
        }
        assert Window(r)[..k] == Window(r);
      }
    }
  }
}
