/** The loops of threadpool.c over the thread array, against the functions the pool's steps use. */
module ThreadTable {
  import opened ThreadJob
  import opened Wrappers
  import opened Handshake
  import opened ThreadPool

  class Threads {
    var threads: array<Worker>
    var jobs: map<JobId, Record>

    /** availableThread: the first thread without a job, or the number of threads. */
    method FindAvailable() returns (i: nat)
      ensures i == AvailableThread(threads[..])
      ensures i < threads.Length ==> threads[i].job.None?
      ensures forall k | 0 <= k < i :: threads[k].job.Some?
    {
      i := 0;
      while i < threads.Length
        invariant i <= threads.Length
        invariant AvailableThread(threads[..]) == i + AvailableThread(threads[i..])
        invariant forall k | 0 <= k < i :: threads[k].job.Some?
      {
        if threads[i].job.None? { return; }
        assert threads[i..][1..] == threads[i + 1..];
        i := i + 1;
      }
    }

    /** checkThreadJobs: one tick for the job of every thread. */
    method CheckThreadJobs()
      modifies this`jobs
      ensures jobs == TickThreads(threads[..], old(jobs))
    {
      var i := 0;
      assert threads[0..] == threads[..];
      while i < threads.Length
        invariant i <= threads.Length
        invariant TickThreads(threads[..], old(jobs)) == TickThreads(threads[i..], jobs)
      {
        if threads[i].job.Some? && threads[i].job.value in jobs {
          var j := threads[i].job.value;
          jobs := jobs[j := Tick(jobs[j])];
        }
        assert threads[i..][1..] == threads[i + 1..];
        i := i + 1;
      }
    }

    /** The thread loop of ThreadPool_cancel: at most one thread has the job. */
    method CancelOnThread(job: JobId) returns (found: bool)
      modifies this`jobs
      ensures found == (ThreadOf(threads[..], job) < threads.Length)
      ensures jobs == if found && job in old(jobs) then old(jobs)[job := MarkCancelled(old(jobs)[job])] else old(jobs)
      ensures found && job in old(jobs) ==>
        !jobs[job].hasCompleted && jobs[job].timeoutTicks == old(jobs)[job].timeoutTicks
    {
      var i := 0;
      while i < threads.Length
        invariant i <= threads.Length && jobs == old(jobs)
        invariant ThreadOf(threads[..], job) == i + ThreadOf(threads[i..], job)
      {
        if threads[i].job == Some(job) {
          if job in jobs { jobs := jobs[job := MarkCancelled(jobs[job])]; }
          return true;
        }
        assert threads[i..][1..] == threads[i + 1..];
        i := i + 1;
      }
      found := false;
    }
  }
}
