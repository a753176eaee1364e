/**
 * The lockstep clock's event list (FLockstep): the physics tick and the paced workers' wake-ups,
 * kept sorted by due time and drained once per world tick. The list is a field that the methods
 * reassign; each method is proved against the functions of EventQueue. The clock's current time
 * is passed in as `now`; the event mutex is left out and every method runs atomically.
 */
module LockstepClock {
  import opened Outcomes
  import opened SyncSignals
  import opened EventQueue

  /** PopEvent's three outcomes: the list was empty (an error), the front is not yet due, or it fired. */
  datatype PopOutcome = EmptyList | NotDue | Popped(front: Event)

  datatype QueueError = EmptyEventList

  class Lockstep {
    var events: seq<Event>
    /** The frame time WorldTick keeps from one call to the next, and whether its first call has set it. */
    var frameTime: int
    var frameTimeSet: bool

    ghost predicate Valid()
      reads this
    {
      Sorted(events) && WellTyped(events)
    }

    constructor ()
      ensures Valid() && events == [] && !frameTimeSet
    {
      events := [];
      frameTime := 0;
      frameTimeSet := false;
    }

    /** Insert an event before the first event due strictly later (a linear find, as the source does). */
    method PushEvent(kind: EventType, time: int, period: int, signal: SyncSignal?)
      modifies this`events
      ensures events == Insert(old(events), Event(kind, time, period, signal))
    {
      var i := 0;
      while i < |events| && !(time < events[i].time)
        invariant 0 <= i <= |events|
        invariant forall j :: 0 <= j < i ==> events[j].time <= time
      {
        i := i + 1;
      }
      InsertionPointUnique(events, time, i);
      events := events[..i] + [Event(kind, time, period, signal)] + events[i..];
    }

    /**
     * Pop the front if it is due strictly before `until` and push back a copy due one period
     * later; an empty list is an error.
     */
    method PopEvent(until: int) returns (r: PopOutcome)
      modifies this`events
      ensures old(events) == [] ==> r == EmptyList && events == old(events)
      ensures old(events) != [] && until <= old(events)[0].time ==> r == NotDue && events == old(events)
      ensures old(events) != [] && old(events)[0].time < until ==>
                r == Popped(old(events)[0]) && events == PopNext(old(events))
    {
      if events == [] {
        return EmptyList;
      }
      if events[0].time < until {
        var front := events[0];
        assert Reschedule(front) == Event(front.kind, front.time + front.period, front.period, front.signal);
        events := events[1..];
        PushEvent(front.kind, front.time + front.period, front.period, front.signal);
        return Popped(front);
      }
      return NotDue;
    }

    /** Schedule a waiter's first wake one period from now. */
    method RegisterWaiter(signal: SyncSignal, period: int, now: int)
      requires Valid()
      modifies this`events
      ensures Valid() && (PositivePeriods(old(events)) && period > 0 ==> PositivePeriods(events))
      ensures events == Insert(old(events), Event(WaiterWake, now + period, period, signal))
    {
      PushEvent(WaiterWake, now + period, period, signal);
      InsertKeeps(old(events), Event(WaiterWake, now + period, period, signal));
    }

    /** Schedule the physics tick, which carries no signal, one period from now. */
    method RegisterPhysicsEvent(period: int, now: int)
      requires Valid()
      modifies this`events
      ensures Valid() && (PositivePeriods(old(events)) && period > 0 ==> PositivePeriods(events))
      ensures events == Insert(old(events), Event(Physics, now + period, period, null))
    {
      PushEvent(Physics, now + period, period, null);
      InsertKeeps(old(events), Event(Physics, now + period, period, null));
    }

    /** Erase the first event carrying `signal`, if there is one. */
    method UnregisterWaiter(signal: SyncSignal)
      requires Valid()
      modifies this`events
      ensures Valid() && (PositivePeriods(old(events)) ==> PositivePeriods(events))
      ensures events == Unregister(old(events), signal)
    {
      var i := 0;
      while i < |events| && events[i].signal != signal
        invariant 0 <= i <= |events|
        invariant forall j :: 0 <= j < i ==> events[j].signal != signal
      {
        i := i + 1;
      }
      assert i == SignalIndex(events, signal) by {
        var k := SignalIndex(events, signal);
        assert k <= i && i <= k;
      }
      UnregisterKeeps(events, signal);
      if i < |events| {
        events := events[..i] + events[i + 1..];
      }
    }

    /** The signals of the cancelled waiters, collected in queue order. */
    method CollectCancelled() returns (cancelled: seq<SyncSignal>)
      ensures cancelled == CancelledSignals(events)
    {
      cancelled := [];
      var i := 0;
      while i < |events|
        invariant 0 <= i <= |events|
        invariant cancelled == CancelledSignals(events[..i])
      {
        assert events[..i + 1] == events[..i] + [events[i]];
        CancelledSignalsAppend(events[..i], events[i]);
        var s := events[i].signal;
        if s != null && s.IsCancelled() {
          cancelled := cancelled + [s];
        }
        i := i + 1;
      }
      assert events[..i] == events;
    }

    /** Hand the turn to every waiter whose command was cancelled, so that none stays blocked. */
    method SignalCanceledWaiter()
      requires Valid()
      modifies Signals(events)
      ensures unchanged(this)
      ensures forall s :: s in Signals(events) ==> s.working == (old(s.working) || s.token.cancelled)
    {
      var cancelled := CollectCancelled();
      CancelledSignalsExact(events);
      SignalWorkers(cancelled);
    }

    /** The second half of signalCanceledWaiter: signal each collected worker in turn. */
    static method SignalWorkers(workers: seq<SyncSignal>)
      modifies set w | w in workers
      ensures forall w :: w in workers ==> w.working
    {
      var i := 0;
      while i < |workers|
        invariant 0 <= i <= |workers|
        invariant forall j :: 0 <= j < i ==> workers[j].working
      {
        workers[i].SignalToWorker();
        i := i + 1;
      }
    }

    /**
     * Act on a popped event. A physics event is one world update, left to the caller's trace. A
     * waiter event first waits until its worker has handed back its previous turn, then hands it
     * the next one, so the worker is left running. No other signal changes.
     */
    method Fire(front: Event)
      requires front.kind == WaiterWake <==> front.signal != null
      modifies if front.signal == null then {} else {front.signal}
      ensures front.signal != null ==> front.signal.working
    {
      if front.kind == WaiterWake {
        front.signal.WaitForWorker();
        front.signal.SignalToWorker();
      }
    }

    /**
     * One turn of the drain loop: pop the front if it is due, then act on it. The list keeps its
     * invariants and its signals; the popped waiter's signal is the only one that changes.
     */
    method FireNext(until: int) returns (outcome: PopOutcome)
      requires Valid()
      modifies this`events, Signals(events)
      ensures Valid() && Signals(events) == old(Signals(events))
      ensures PositivePeriods(old(events)) ==> PositivePeriods(events)
      ensures old(events) == [] ==> outcome == EmptyList && events == old(events)
      ensures old(events) != [] && until <= old(events)[0].time ==> outcome == NotDue && events == old(events)
      ensures old(events) != [] && old(events)[0].time < until ==>
                outcome == Popped(old(events)[0]) && events == PopNext(old(events))
      ensures forall s :: s in old(Signals(events)) ==>
                s.working == (old(s.working) || (outcome.Popped? && s == outcome.front.signal))
    {
      ghost var before := events;
      outcome := PopEvent(until);
      if outcome.Popped? {
        PopNextKeeps(before);
        PopNextSorted(before);
        assert outcome.front in before;
        Fire(outcome.front);
      }
    }

    /**
     * Drain every event due strictly before `until`: a physics event is one world update
     * (recorded in the trace); a waiter event first waits for its worker to hand back, then
     * hands it the turn again. The list must not be empty: the first pop fails otherwise.
     */
    method DrainEvents(until: int) returns (r: Result<seq<Event>, QueueError>)
      requires Valid() && PositivePeriods(events)
      modifies this`events, Signals(events)
      ensures Valid() && PositivePeriods(events)
      ensures r.Err? <==> old(events) == []
      ensures r.Err? ==> events == old(events)
      ensures r.Ok? ==> (old(events) != [] && Drain(old(events), until) == Drained(r.value, events))
      ensures r.Ok? ==> (forall e :: e in r.value ==> e.time < until) && (forall e :: e in events ==> until <= e.time)
      ensures forall s :: s in old(Signals(events)) ==>
                s.working == (old(s.working) || (r.Ok? && s in Signals(r.value)))
    {
      ghost var start := events;
      ghost var signals := Signals(events);
      var fired: seq<Event> := [];
      DrainsToStart(events, until);
      while true
        invariant Valid() && PositivePeriods(events)
        invariant Signals(events) == signals
        invariant events == [] ==> start == [] && fired == []
        invariant DrainsTo(start, fired, events, until)
        invariant forall s :: s in signals ==> s.working == (old(s.working) || s in Signals(fired))
        decreases Backlog(events, until)
      {
        ghost var before := events;
        var outcome := FireNext(until);
        match outcome
        case EmptyList =>
          return Err(EmptyEventList);
        case NotDue =>
          DrainsToEnd(start, fired, events, until);
          DrainOrdered(start, until);
          DrainFiresDue(start, until);
          return Ok(fired);
        case Popped(front) =>
          DrainStep(start, fired, before, until);
          SignalsAppend(fired, front);
          fired := fired + [front];
      }
    }

    /**
     * Advance the frame time by `delta` (the first call starts from `now`) and drain every event
     * due strictly before the new frame time.
     */
    method WorldTick(now: int, delta: int) returns (r: Result<seq<Event>, QueueError>)
      requires Valid() && PositivePeriods(events)
      modifies this, Signals(events)
      ensures Valid() && PositivePeriods(events)
      ensures frameTimeSet && frameTime == (if old(frameTimeSet) then old(frameTime) else now) + delta
      ensures r.Err? <==> old(events) == []
      ensures r.Err? ==> events == old(events)
      ensures r.Ok? ==> (old(events) != [] && Drain(old(events), frameTime) == Drained(r.value, events))
      ensures r.Ok? ==> (forall e :: e in r.value ==> e.time < frameTime) && (forall e :: e in events ==> frameTime <= e.time)
      ensures forall s :: s in old(Signals(events)) ==>
                s.working == (old(s.working) || (r.Ok? && s in Signals(r.value)))
    {
      if !frameTimeSet {
        frameTime := now;
        frameTimeSet := true;
      }
      frameTime := frameTime + delta;
      r := DrainEvents(frameTime);
    }
  }
}
