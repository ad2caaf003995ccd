/** The jobs of threadpool.c: their identity and what is recorded about each of them. */
module ThreadJob {
  /** Stands for the address of a ThreadJob. */
  type JobId = nat

  /** Where an accepted job is. */
  datatype Place = Queued | InHand | OnThread(i: nat) | Finished

  /** `timeoutTicks` and `hasCompleted` are fields of ThreadJob; the rest is history:
      the timeout it was created with, where it is, whether it was ever given to a thread, the ticks it spent
      there and whether it was cancelled before its `finished` event, how often its proc ran and its `finished`
      event was raised, and the value of `hasCompleted` that the handlers of that event saw. */
  datatype Record = Record(
    timeoutTicks: nat, hasCompleted: bool,
    limit: nat, place: Place, started: bool, ticks: nat, cancelled: bool,
    runs: nat, raises: nat, verdict: bool)

  /** ThreadJob_create (123-134). */
  function Create(timeout: nat, place: Place): Record {
    Record(timeout, true, timeout, place, false, 0, false, 0, 0, true)
  }

  /** What checkThreadJobs does to the job of one thread (281-286). */
  function Tick(r: Record): Record {
    if r.timeoutTicks == 0 then r.(ticks := r.ticks + 1)
    else if r.timeoutTicks == 1 then r.(timeoutTicks := 0, hasCompleted := false, ticks := r.ticks + 1)
    else r.(timeoutTicks := r.timeoutTicks - 1, ticks := r.ticks + 1)
  }

  /** The job was cancelled, or its ticks on the thread used up a non-zero timeout. */
  predicate Cut(r: Record) { r.cancelled || (r.limit > 0 && r.ticks >= r.limit) }
}
