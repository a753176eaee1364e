/**
 * The single-use pacing helper of a control command (Waiter). A command loop calls Sleep once per
 * iteration until it completes, times out or is cancelled. With a free-running clock, Sleep lets
 * the cancel token sleep for what is left of the current period. With the lockstep clock, the
 * waiter registers a hand-off signal on construction, and Sleep hands the turn back to the
 * master, then waits until the master hands it over again (or the command is cancelled).
 *
 * The clock is passed in: `clock` is the lockstep clock, or null when the clock is free-running,
 * and `now` is its current time in nanoseconds at each call.
 */
module Waiters {
  import opened Outcomes
  import opened SyncSignals
  import opened EventQueue
  import opened LockstepClock

  /** Sleep on a waiter that was already completed: the source throws a domain error. */
  datatype WaiterError = AlreadyComplete

  class Waiter {
    const sleepDuration: int
    const timeout: int
    const token: CancelToken
    /** The lockstep clock, or null when the clock is free-running. */
    const clock: Lockstep?
    /** The hand-off signal, present exactly in lockstep mode. */
    const signal: SyncSignal?
    var isComplete: bool
    var procStart: int
    var loopStart: int

    ghost predicate Valid()
      reads this
    {
      (signal == null <==> clock == null) &&
      (signal != null ==> signal.token == token)
    }

    /**
     * Start the process and the first loop at `now`. In lockstep mode, the caller is a worker
     * that is running, so the new signal starts with the worker's turn, and its first wake is
     * queued one sleep period from now.
     */
    constructor (sleepDuration: int, timeout: int, token: CancelToken, clock: Lockstep?, now: int)
      requires clock != null ==> clock.Valid()
      modifies clock
      ensures Valid()
      ensures this.sleepDuration == sleepDuration && this.timeout == timeout && this.token == token
      ensures this.clock == clock
      ensures !isComplete && procStart == now && loopStart == now
      ensures clock == null ==> signal == null
      ensures clock != null ==>
                fresh(signal) && signal.working && clock.Valid() &&
                signal !in Signals(old(clock.events)) &&
                clock.events == Insert(old(clock.events), Event(WaiterWake, now + sleepDuration, sleepDuration, signal)) &&
                clock.frameTime == old(clock.frameTime) && clock.frameTimeSet == old(clock.frameTimeSet)
    {
      this.sleepDuration := sleepDuration;
      this.timeout := timeout;
      this.token := token;
      this.clock := clock;
      isComplete := false;
      procStart := now;
      loopStart := now;
      if clock != null {
        signal := new SyncSignal(true, token);
      } else {
        signal := null;
      }
      new;
      if clock != null {
        assert signal !in Signals(clock.events);
        clock.RegisterWaiter(signal, sleepDuration, now);
      }
    }

    /**
     * The destructor: in lockstep mode, hand the turn back to the master for good, then remove
     * the waiter's event from the queue.
     */
    method Dispose()
      requires Valid() && (clock != null ==> clock.Valid())
      modifies clock, signal
      ensures clock != null ==>
                signal.MasterMayRun() && clock.Valid() &&
                clock.events == Unregister(old(clock.events), signal) &&
                clock.frameTime == old(clock.frameTime) && clock.frameTimeSet == old(clock.frameTimeSet)
    {
      if signal != null {
        signal.SignalToMaster();
        clock.UnregisterWaiter(signal);
      }
    }

    /** Timed out: not complete, and at least `timeout` has passed since the process started. */
    predicate IsTimeout(now: int)
      reads this
      ensures isComplete ==> !IsTimeout(now)
    {
      if isComplete then false else now - procStart >= timeout
    }

    /** Mark the process complete. Completing twice is the same as completing once. */
    method Complete()
      modifies this`isComplete
      ensures isComplete
      ensures forall now :: !IsTimeout(now)
    {
      isComplete := true;
    }

    /**
     * One pacing step of the command loop. A completed waiter must not be reused; a timed-out
     * one returns false at once. In lockstep mode the worker hands the turn back to the master
     * and waits for the next one; it returns false exactly when the command was cancelled.
     * A command cancelled while the worker waits is still woken by the master's next hand-off
     * (`cancelledMeanwhile`), so the worker then holds the turn.
     * With a free-running clock, the cancel token is asked to sleep for `remaining`, the time
     * left until one sleep period after the loop started; `slept` is what that sleep returned,
     * and `wake` the time it returned at, which starts the next loop.
     */
    method Sleep(now: int, cancelledMeanwhile: bool, slept: bool, wake: int)
      returns (r: Result<bool, WaiterError>, remaining: int)
      requires Valid()
      modifies this`loopStart, signal, token
      ensures old(isComplete) ==>
                r == Err(AlreadyComplete) && loopStart == old(loopStart) &&
                (signal != null ==> unchanged(signal)) && unchanged(token)
      ensures !old(isComplete) ==> r.Ok?
      ensures old(IsTimeout(now)) ==>
                r == Ok(false) && loopStart == old(loopStart) &&
                (signal != null ==> unchanged(signal)) && unchanged(token)
      ensures !old(isComplete) && !old(IsTimeout(now)) && signal != null ==>
                loopStart == old(loopStart) && signal.WorkerMayRun() &&
                r == Ok(!token.cancelled) &&
                (old(token.cancelled) ==> !signal.working && token.cancelled) &&
                (!old(token.cancelled) ==>
                  signal.working && token.cancelled == cancelledMeanwhile)
      ensures !old(isComplete) && !old(IsTimeout(now)) && signal == null ==>
                r == Ok(slept) && old(loopStart) + sleepDuration == now + remaining &&
                loopStart == wake && unchanged(token)
    {
      remaining := 0;
      if isComplete {
        return Err(AlreadyComplete), remaining;
      }
      if IsTimeout(now) {
        return Ok(false), remaining;
      }
      if signal != null {
        signal.SignalToMaster();
        signal.WaitForMaster(cancelledMeanwhile);
        return Ok(!token.cancelled), remaining;
      }
      remaining := sleepDuration - (now - loopStart);
      loopStart := wake;
      return Ok(slept), remaining;
    }
  }

  /** Time only moves a waiter towards its timeout: once timed out, it stays timed out. */
  lemma TimeoutPersists(w: Waiter, now: int, later: int)
    requires now <= later && w.IsTimeout(now)
    ensures w.IsTimeout(later)
  {
  }

  /** Before the timeout has elapsed, a waiter that is not complete has not timed out. */
  lemma NoTimeoutBeforeDeadline(w: Waiter, now: int)
    requires now - w.procStart < w.timeout
    ensures !w.IsTimeout(now)
  {
  }
}
