/**
 * The cancellation flag of one command and the bidirectional hand-off signal that pairs one
 * worker thread with the lockstep driver ("master").
 *
 * The flag `working` says whose turn it is: true while the worker runs, false while the master
 * does. Only SignalToWorker and SignalToMaster write it, and only they notify a blocked wait. A
 * blocking wait is modelled by its release condition: the call returns in a state where that
 * condition holds, and when the condition does not hold on entry, the peer's notifying write that
 * releases it happens inside the call. Cancelling a command notifies nobody: it only makes the
 * worker's wait return false once the master's next hand-off wakes it. Mutexes are not modelled
 * and every call is atomic.
 */
module SyncSignals {

  /** The cooperative cancellation flag threaded through a command: set once, never reset. */
  class CancelToken {
    var cancelled: bool

    constructor ()
      ensures !cancelled
    {
      cancelled := false;
    }

    method Cancel()
      modifies this
      ensures cancelled
    {
      cancelled := true;
    }
  }

  class SyncSignal {
    var working: bool
    const token: CancelToken

    constructor (working: bool, token: CancelToken)
      ensures this.working == working && this.token == token
    {
      this.working := working;
      this.token := token;
    }

    /** Whether the paired command was cancelled. */
    predicate IsCancelled()
      reads token
    {
      token.cancelled
    }

    /** Release condition of waitForMaster (the worker's wait): the master handed over, or the command was cancelled. */
    predicate WorkerMayRun()
      reads this, token
    {
      working || token.cancelled
    }

    /** Release condition of waitForWorker (the master's wait): the worker handed back. Cancellation plays no part. */
    predicate MasterMayRun()
      reads this
    {
      !working
    }

    /** Master side: hand the turn to the worker. */
    method SignalToWorker()
      modifies this
      ensures working
      ensures WorkerMayRun() && !MasterMayRun()
    {
      working := true;
    }

    /** Worker side: hand the turn back to the master. */
    method SignalToMaster()
      modifies this
      ensures !working
      ensures MasterMayRun()
    {
      working := false;
    }

    /**
     * Master side: block until the worker has handed back. If it has not yet, the worker's
     * SignalToMaster is what releases the wait; a cancelled token does not.
     */
    method WaitForWorker()
      modifies this
      ensures MasterMayRun()
      ensures old(MasterMayRun()) ==> working == old(working)
      ensures token.cancelled == old(token.cancelled)
    {
      if working {
        SignalToMaster();
      }
    }

    /**
     * Worker side: block until the master hands over or the command is cancelled. The condition
     * is tested on entry, so a command already cancelled returns at once. Otherwise only the
     * master's SignalToWorker wakes the wait; `cancelledMeanwhile` says whether the command was
     * cancelled before that hand-off arrived.
     */
    method WaitForMaster(cancelledMeanwhile: bool)
      modifies this, token
      ensures WorkerMayRun()
      ensures old(WorkerMayRun()) ==> working == old(working) && token.cancelled == old(token.cancelled)
      ensures !old(WorkerMayRun()) ==> working && token.cancelled == cancelledMeanwhile
    {
      if !working && !token.cancelled {
        if cancelledMeanwhile {
          token.Cancel();
        }
        SignalToWorker();
      }
    }
  }
}
