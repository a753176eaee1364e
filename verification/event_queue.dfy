/**
 * The lockstep event list as a value: a sequence of scheduled events kept in non-decreasing
 * order of due time, the operations the driver performs on it (insert, pop-and-reschedule,
 * remove a waiter) and the drain that runs once per world tick. Times are integer nanoseconds.
 */
module EventQueue {
  import opened SyncSignals

  /** kPhysics: one tick of the physics world; kWaiter: wake one paced worker. */
  datatype EventType = Physics | WaiterWake

  /** A scheduled event; `signal` is null for a physics event. */
  datatype Event = Event(kind: EventType, time: int, period: int, signal: SyncSignal?)

  predicate Sorted(evs: seq<Event>)
  {
    forall i, j :: 0 <= i < j < |evs| ==> evs[i].time <= evs[j].time
  }

  /** Physics events carry no signal and waiter events carry one. */
  predicate WellTyped(evs: seq<Event>)
  {
    forall e :: e in evs ==> (e.kind == Physics <==> e.signal == null)
  }

  predicate PositivePeriods(evs: seq<Event>)
  {
    forall e :: e in evs ==> e.period > 0
  }

  ghost function Signals(evs: seq<Event>): set<SyncSignal?>
  {
    set e | e in evs && e.signal != null :: e.signal
  }

  lemma SignalsAppend(evs: seq<Event>, e: Event)
    ensures Signals(evs + [e]) == Signals(evs) + (if e.signal != null then {e.signal} else {})
  {
    forall x | x in evs + [e]
      ensures x in evs || x == e
    {
    }
  }

  // ---------------------------------------------------------------------------------------
  // Insertion

  /** The position of the first event due strictly later than `t`, or the length if none is. */
  function InsertionPoint(evs: seq<Event>, t: int): (k: nat)
    ensures k <= |evs|
    ensures forall j :: 0 <= j < k ==> evs[j].time <= t
    ensures k < |evs| ==> t < evs[k].time
  {
    if evs == [] || t < evs[0].time then 0 else 1 + InsertionPoint(evs[1..], t)
  }

  /** The two conditions that define the insertion point determine it. */
  lemma {:induction false} InsertionPointUnique(evs: seq<Event>, t: int, i: nat)
    requires i <= |evs|
    requires forall j :: 0 <= j < i ==> evs[j].time <= t
    requires i < |evs| ==> t < evs[i].time
    ensures i == InsertionPoint(evs, t)
  {
  }

  /** The list after the event is placed before the first event with a strictly later time. */
  function Insert(evs: seq<Event>, e: Event): (r: seq<Event>)
    ensures |r| == |evs| + 1
  {
    var k := InsertionPoint(evs, e.time);
    evs[..k] + [e] + evs[k..]
  }

  /** Insertion keeps the list sorted. */
  lemma {:induction false} InsertSorted(evs: seq<Event>, e: Event)
    requires Sorted(evs)
    ensures Sorted(Insert(evs, e))
  {
    var k := InsertionPoint(evs, e.time);
    var r := Insert(evs, e);
    forall i, j | 0 <= i < j < |r|
      ensures r[i].time <= r[j].time
    {
      if j < k || k < i {
      } else if i == k {
        assert r[j] == evs[j - 1];
        assert evs[k].time <= evs[j - 1].time;
      } else {
        assert r[i] == evs[i];
      }
    }
  }

  /**
   * The new event stands at the insertion point, and dropping it gives back the old list: the
   * old events keep their relative order.
   */
  lemma {:induction false} InsertKeepsOrder(evs: seq<Event>, e: Event)
    ensures var k := InsertionPoint(evs, e.time);
      var r := Insert(evs, e);
      r[k] == e && r[..k] + r[k + 1..] == evs
  {
    SpliceIn(evs, InsertionPoint(evs, e.time), e);
  }

  /** Splicing an element into a sequence, and taking it out again. */
  lemma SpliceIn<T>(a: seq<T>, k: nat, x: T)
    requires k <= |a|
    ensures var r := a[..k] + [x] + a[k..];
      r[k] == x && r[..k] + r[k + 1..] == a
  {
    var r := a[..k] + [x] + a[k..];
    assert r[..k] == a[..k];
    assert r[k + 1..] == a[k..];
    assert a[..k] + a[k..] == a;
  }

  /** Erasing the element at `k` shifts the later elements down by one. */
  lemma SpliceOut<T>(a: seq<T>, k: nat)
    requires k < |a|
    ensures var r := a[..k] + a[k + 1..];
      |r| == |a| - 1 &&
      (forall i :: 0 <= i < k ==> r[i] == a[i]) &&
      (forall i :: k <= i < |r| ==> r[i] == a[i + 1])
  {
  }

  /**
   * In a sorted list, the events placed before a new one are exactly those due no later than
   * it, so an event tied with existing ones lands after all of them (first in, first out).
   */
  lemma {:induction false} InsertAfterTies(evs: seq<Event>, e: Event)
    requires Sorted(evs)
    ensures var k := InsertionPoint(evs, e.time);
      forall j :: 0 <= j < |evs| ==> (j < k <==> evs[j].time <= e.time)
  {
    var k := InsertionPoint(evs, e.time);
    forall j | k < j < |evs|
      ensures e.time < evs[j].time
    {
      assert evs[k].time <= evs[j].time;
    }
  }

  /** Insertion is a permutation of the old list plus the new event: nothing is lost or duplicated. */
  lemma {:induction false} InsertPermutes(evs: seq<Event>, e: Event)
    ensures multiset(Insert(evs, e)) == multiset(evs) + multiset{e}
  {
    var k := InsertionPoint(evs, e.time);
    assert evs == evs[..k] + evs[k..];
  }

  /** The events of the new list are the old ones and the inserted one. */
  lemma {:induction false} InsertElements(evs: seq<Event>, e: Event)
    ensures forall x :: x in Insert(evs, e) <==> x in evs || x == e
  {
    var r := Insert(evs, e);
    InsertPermutes(evs, e);
    forall x
      ensures x in r <==> x in evs || x == e
    {
      calc {
        x in r;
        x in multiset(r);
        x in multiset(evs) + multiset{e};
        x in evs || x == e;
      }
    }
  }

  /** Insertion keeps the list's invariants when the new event satisfies them. */
  lemma {:induction false} InsertKeeps(evs: seq<Event>, e: Event)
    ensures Sorted(evs) ==> Sorted(Insert(evs, e))
    ensures WellTyped(evs) && (e.kind == Physics <==> e.signal == null) ==> WellTyped(Insert(evs, e))
    ensures PositivePeriods(evs) && e.period > 0 ==> PositivePeriods(Insert(evs, e))
  {
    if Sorted(evs) {
      InsertSorted(evs, e);
    }
    InsertElements(evs, e);
  }

  // ---------------------------------------------------------------------------------------
  // Pop and reschedule

  /** The copy of a fired event that is due one period later. */
  function Reschedule(e: Event): (r: Event)
    ensures r.kind == e.kind && r.period == e.period && r.signal == e.signal
    ensures e.period > 0 ==> e.time < r.time
  {
    e.(time := e.time + e.period)
  }

  /** The list after its front has been popped and a rescheduled copy pushed back. */
  function PopNext(evs: seq<Event>): (r: seq<Event>)
    requires evs != []
    ensures |r| == |evs|
  {
    Insert(evs[1..], Reschedule(evs[0]))
  }

  /** Popping and rescheduling keeps the list sorted. */
  lemma {:induction false} PopNextSorted(evs: seq<Event>)
    requires evs != [] && Sorted(evs)
    ensures Sorted(PopNext(evs))
  {
    InsertSorted(evs[1..], Reschedule(evs[0]));
  }

  /**
   * In a sorted list the front is the earliest event; so when the front is not due strictly
   * before `until`, no event is, and one due exactly at `until` stays queued.
   */
  lemma {:induction false} NothingDue(evs: seq<Event>, until: int)
    requires Sorted(evs) && evs != [] && evs[0].time >= until
    ensures forall e :: e in evs ==> e.time >= until
  {
    forall e | e in evs
      ensures e.time >= until
    {
      var i :| 0 <= i < |evs| && evs[i] == e;
      if i > 0 {
        assert evs[0].time <= evs[i].time;
      }
    }
  }

  lemma {:induction false} PopNextElements(evs: seq<Event>)
    requires evs != []
    ensures forall x :: x in PopNext(evs) <==> x in evs[1..] || x == Reschedule(evs[0])
  {
    InsertElements(evs[1..], Reschedule(evs[0]));
  }

  /** Popping keeps the invariants and the set of registered signals. */
  lemma {:induction false} PopNextKeeps(evs: seq<Event>)
    requires evs != []
    ensures WellTyped(evs) ==> WellTyped(PopNext(evs))
    ensures PositivePeriods(evs) ==> PositivePeriods(PopNext(evs))
    ensures Signals(PopNext(evs)) == Signals(evs)
  {
    var r := PopNext(evs);
    PopNextElements(evs);
    assert evs[0] in evs;
    forall x | x in evs[1..]
      ensures x in evs
    {
    }
    forall s | s in Signals(evs)
      ensures s in Signals(r)
    {
      var e :| e in evs && e.signal != null && e.signal == s;
      if e == evs[0] {
        assert Reschedule(evs[0]) in r;
      } else {
        var i :| 0 <= i < |evs| && evs[i] == e;
        assert evs[1..][i - 1] == e;
      }
    }
  }

  // ---------------------------------------------------------------------------------------
  // Removal of a waiter

  /** The position of the first event carrying `s`, or the length if none does. */
  function SignalIndex(evs: seq<Event>, s: SyncSignal): (k: nat)
    ensures k <= |evs|
    ensures forall j :: 0 <= j < k ==> evs[j].signal != s
    ensures k < |evs| ==> evs[k].signal == s
  {
    if evs == [] || evs[0].signal == s then 0 else 1 + SignalIndex(evs[1..], s)
  }

  /** The list with the first event carrying `s` erased; the same list when no event carries it. */
  function Unregister(evs: seq<Event>, s: SyncSignal): (r: seq<Event>)
    ensures s !in Signals(evs) ==> r == evs
    ensures s in Signals(evs) ==> |r| == |evs| - 1
  {
    var k := SignalIndex(evs, s);
    if k < |evs| then
      evs[..k] + evs[k + 1..]
    else
      assert s !in Signals(evs) by {
        forall e | e in evs
          ensures e.signal != s
        {
          var i :| 0 <= i < |evs| && evs[i] == e;
        }
      }
      evs
  }

  /**
   * Unregistering erases exactly one event, the first that carries `s`, and keeps the others in
   * order; a sorted, well-typed list stays so.
   */
  lemma {:induction false} UnregisterKeeps(evs: seq<Event>, s: SyncSignal)
    ensures var k := SignalIndex(evs, s);
      k < |evs| ==> evs[k].signal == s && Unregister(evs, s) == evs[..k] + evs[k + 1..]
    ensures Sorted(evs) ==> Sorted(Unregister(evs, s))
    ensures WellTyped(evs) ==> WellTyped(Unregister(evs, s))
    ensures PositivePeriods(evs) ==> PositivePeriods(Unregister(evs, s))
  {
    UnregisterElements(evs, s);
    if Sorted(evs) {
      UnregisterSorted(evs, s);
    }
  }

  /** Every event left after unregistering was in the list before. */
  lemma {:induction false} UnregisterElements(evs: seq<Event>, s: SyncSignal)
    ensures forall x :: x in Unregister(evs, s) ==> x in evs
  {
    var k := SignalIndex(evs, s);
    if k < |evs| {
      var r := Unregister(evs, s);
      SpliceOut(evs, k);
      forall x | x in r
        ensures x in evs
      {
        var i :| 0 <= i < |r| && r[i] == x;
        assert r[i] == evs[if i < k then i else i + 1];
      }
    }
  }

  /** Erasing one event keeps a sorted list sorted. */
  lemma {:induction false} UnregisterSorted(evs: seq<Event>, s: SyncSignal)
    requires Sorted(evs)
    ensures Sorted(Unregister(evs, s))
  {
    var k := SignalIndex(evs, s);
    if k < |evs| {
      var r := Unregister(evs, s);
      SpliceOut(evs, k);
      forall i, j | 0 <= i < j < |r|
        ensures r[i].time <= r[j].time
      {
        var i' := if i < k then i else i + 1;
        var j' := if j < k then j else j + 1;
        assert r[i] == evs[i'] && r[j] == evs[j'];
      }
    }
  }

  /**
   * Registering a waiter and then unregistering it gives back the list it started from,
   * provided the signal was not already registered.
   */
  lemma {:induction false} RegisterUnregister(evs: seq<Event>, s: SyncSignal, time: int, period: int)
    requires s !in Signals(evs)
    ensures Unregister(Insert(evs, Event(WaiterWake, time, period, s)), s) == evs
  {
    var e := Event(WaiterWake, time, period, s);
    InsertKeepsOrder(evs, e);
    InsertedSignalFirst(evs, e);
  }

  /** An inserted event is the first to carry its signal when no event carried it before. */
  lemma {:induction false} InsertedSignalFirst(evs: seq<Event>, e: Event)
    requires e.signal != null && e.signal !in Signals(evs)
    ensures SignalIndex(Insert(evs, e), e.signal) == InsertionPoint(evs, e.time)
  {
    var k := InsertionPoint(evs, e.time);
    var r := Insert(evs, e);
    InsertKeepsOrder(evs, e);
    forall j | 0 <= j < k
      ensures r[j].signal != e.signal
    {
      assert r[j] == evs[j];
      assert evs[j] in evs;
      assert evs[j].signal == null || evs[j].signal in Signals(evs);
    }
    SignalIndexIs(r, e.signal, k);
  }

  /** The first index carrying `s` is the one in front of which no event carries it. */
  lemma {:induction false} SignalIndexIs(evs: seq<Event>, s: SyncSignal, k: nat)
    requires k < |evs| && evs[k].signal == s
    requires forall j :: 0 <= j < k ==> evs[j].signal != s
    ensures SignalIndex(evs, s) == k
  {
    var i := SignalIndex(evs, s);
    assert !(i < k) && !(k < i);
  }

  // ---------------------------------------------------------------------------------------
  // Selection of cancelled waiters

  ghost function Tokens(evs: seq<Event>): set<CancelToken>
  {
    set e | e in evs && e.signal != null :: e.signal.token
  }

  /** The signals of the events whose signal is present and whose command is cancelled, in queue order. */
  function CancelledSignals(evs: seq<Event>): (r: seq<SyncSignal>)
    reads Tokens(evs)
    ensures |r| <= |evs|
    ensures forall s :: s in r ==> s in Signals(evs) && s.token.cancelled
  {
    if evs == [] then []
    else
      assert Tokens(evs[1..]) <= Tokens(evs) by {
        forall e | e in evs[1..] ensures e in evs { }
      }
      var s := evs[0].signal;
      var rest := CancelledSignals(evs[1..]);
      assert forall x :: x in rest ==> x in Signals(evs) by {
        forall e | e in evs[1..] ensures e in evs { }
      }
      if s != null && s.token.cancelled then [s] + rest else rest
  }

  /** Every present, cancelled signal of the list is selected. */
  lemma {:induction false} CancelledSignalsComplete(evs: seq<Event>)
    ensures forall i :: 0 <= i < |evs| && evs[i].signal != null && evs[i].signal.token.cancelled ==>
      evs[i].signal in CancelledSignals(evs)
  {
    if evs != [] {
      CancelledSignalsComplete(evs[1..]);
      forall i | 0 <= i < |evs| && evs[i].signal != null && evs[i].signal.token.cancelled
        ensures evs[i].signal in CancelledSignals(evs)
      {
        if i > 0 {
          assert evs[1..][i - 1] == evs[i];
        }
      }
    }
  }

  /** Selection scans the list front to back: one more event adds its signal at the end, if it is selected. */
  lemma {:induction false} CancelledSignalsAppend(evs: seq<Event>, e: Event)
    ensures CancelledSignals(evs + [e]) ==
      CancelledSignals(evs) + (if e.signal != null && e.signal.token.cancelled then [e.signal] else [])
  {
    if evs == [] {
      assert [e][1..] == [];
    } else {
      assert (evs + [e])[1..] == evs[1..] + [e];
      CancelledSignalsAppend(evs[1..], e);
    }
  }

  /** A registered signal is selected exactly when its command is cancelled. */
  lemma {:induction false} CancelledSignalsExact(evs: seq<Event>)
    ensures forall s :: s in Signals(evs) ==> (s in CancelledSignals(evs) <==> s.token.cancelled)
  {
    CancelledSignalsComplete(evs);
    forall s | s in Signals(evs) && s.token.cancelled
      ensures s in CancelledSignals(evs)
    {
      var e :| e in evs && e.signal != null && e.signal == s;
      var i :| 0 <= i < |evs| && evs[i] == e;
    }
  }

  // ---------------------------------------------------------------------------------------
  // Draining

  /** How far an event lags behind `until`; zero once it is no longer due. */
  function Lag(e: Event, until: int): nat
  {
    if e.time < until then until - e.time else 0
  }

  /** The total lag of the list: the drain's termination measure. */
  function Backlog(evs: seq<Event>, until: int): nat
  {
    if evs == [] then 0 else Lag(evs[0], until) + Backlog(evs[1..], until)
  }

  lemma {:induction false} BacklogAppend(a: seq<Event>, b: seq<Event>, until: int)
    ensures Backlog(a + b, until) == Backlog(a, until) + Backlog(b, until)
  {
    if a != [] {
      assert (a + b)[0] == a[0];
      assert (a + b)[1..] == a[1..] + b;
      BacklogAppend(a[1..], b, until);
    } else {
      assert a + b == b;
    }
  }

  lemma BacklogCons(e: Event, evs: seq<Event>, until: int)
    ensures Backlog([e] + evs, until) == Lag(e, until) + Backlog(evs, until)
  {
    assert ([e] + evs)[1..] == evs;
  }

  /** Inserting an event adds exactly its own lag to the backlog. */
  lemma {:induction false} BacklogInsert(evs: seq<Event>, e: Event, until: int)
    ensures Backlog(Insert(evs, e), until) == Backlog(evs, until) + Lag(e, until)
  {
    var k := InsertionPoint(evs, e.time);
    var before, after := evs[..k], evs[k..];
    assert evs == before + after;
    assert Insert(evs, e) == before + ([e] + after);
    BacklogAppend(before, after, until);
    BacklogAppend(before, [e] + after, until);
    BacklogCons(e, after, until);
  }

  /** Popping a due event with a positive period strictly lowers the backlog. */
  lemma {:induction false} PopLowersBacklog(evs: seq<Event>, until: int)
    requires evs != [] && evs[0].time < until && evs[0].period > 0
    ensures Backlog(PopNext(evs), until) < Backlog(evs, until)
  {
    BacklogInsert(evs[1..], Reschedule(evs[0]), until);
  }

  /** What one drain produces: the events fired, in order, and the list left afterwards. */
  datatype Drained = Drained(fired: seq<Event>, rest: seq<Event>)

  /**
   * Pop events while the front is due strictly before `until`. The list is never empty again
   * once it was not: every pop pushes a rescheduled copy back.
   */
  function Drain(evs: seq<Event>, until: int): (d: Drained)
    requires evs != [] && PositivePeriods(evs)
    ensures |d.rest| == |evs|
    decreases Backlog(evs, until)
  {
    if evs[0].time < until then
      PopLowersBacklog(evs, until);
      PopNextKeeps(evs);
      var d := Drain(PopNext(evs), until);
      Drained([evs[0]] + d.fired, d.rest)
    else
      Drained([], evs)
  }

  /**
   * Every event a drain fires was due strictly before `until`, and the list left behind still
   * has positive periods, so it can be drained again.
   */
  lemma {:induction false} DrainFiresDue(evs: seq<Event>, until: int)
    requires evs != [] && PositivePeriods(evs)
    ensures var d := Drain(evs, until);
      PositivePeriods(d.rest) && forall e :: e in d.fired ==> e.time < until
    decreases Backlog(evs, until)
  {
    if evs[0].time < until {
      PopLowersBacklog(evs, until);
      PopNextKeeps(evs);
      DrainFiresDue(PopNext(evs), until);
    }
  }

  /** Rescheduling never moves an event earlier, so nothing drained is earlier than the list's earliest event. */
  lemma {:induction false} DrainLowerBound(evs: seq<Event>, until: int, lo: int)
    requires evs != [] && PositivePeriods(evs)
    requires forall e :: e in evs ==> lo <= e.time
    ensures forall e :: e in Drain(evs, until).fired ==> lo <= e.time
    decreases Backlog(evs, until)
  {
    if evs[0].time < until {
      PopLowersBacklog(evs, until);
      PopNextKeeps(evs);
      PopNextElements(evs);
      assert evs[0] in evs;
      forall x | x in evs[1..]
        ensures x in evs
      {
      }
      DrainLowerBound(PopNext(evs), until, lo);
    }
  }

  /** After a pop, every queued event is due no earlier than the popped front. */
  lemma {:induction false} PopNextNotEarlier(evs: seq<Event>)
    requires evs != [] && Sorted(evs) && evs[0].period > 0
    ensures forall x :: x in PopNext(evs) ==> evs[0].time <= x.time
  {
    PopNextElements(evs);
    forall x | x in evs[1..]
      ensures evs[0].time <= x.time
    {
      var i :| 0 <= i < |evs[1..]| && evs[1..][i] == x;
      assert evs[i + 1] == x;
    }
  }

  /** Prepending an event no later than any other keeps a sequence sorted. */
  lemma {:induction false} ConsSorted(e: Event, s: seq<Event>)
    requires Sorted(s)
    requires forall x :: x in s ==> e.time <= x.time
    ensures Sorted([e] + s)
  {
    var f := [e] + s;
    forall i, j | 0 <= i < j < |f|
      ensures f[i].time <= f[j].time
    {
      assert f[j] == s[j - 1];
      if i == 0 {
        assert s[j - 1] in s;
      } else {
        assert f[i] == s[i - 1];
      }
    }
  }

  /**
   * The state of an iterative drain of `start`: the events `fired` so far, followed by what
   * draining the current list `evs` fires, make up the whole drain of `start`.
   */
  ghost predicate DrainsTo(start: seq<Event>, fired: seq<Event>, evs: seq<Event>, until: int)
  {
    evs != [] ==>
      start != [] && PositivePeriods(start) && PositivePeriods(evs) &&
      Drain(start, until) == Drained(fired + Drain(evs, until).fired, Drain(evs, until).rest)
  }

  /** A drain that has not started yet. */
  lemma DrainsToStart(evs: seq<Event>, until: int)
    requires PositivePeriods(evs)
    ensures DrainsTo(evs, [], evs, until)
  {
    if evs != [] {
      assert [] + Drain(evs, until).fired == Drain(evs, until).fired;
    }
  }

  /** A drain that has stopped: the front is not due, so nothing more fires. */
  lemma DrainsToEnd(start: seq<Event>, fired: seq<Event>, evs: seq<Event>, until: int)
    requires evs != [] && until <= evs[0].time && DrainsTo(start, fired, evs, until)
    ensures start != [] && Drain(start, until) == Drained(fired, evs)
  {
    assert fired + [] == fired;
  }

  /** One pop of an iterative drain: the invariants carry over and the backlog falls. */
  lemma {:induction false} DrainStep(start: seq<Event>, fired: seq<Event>, evs: seq<Event>, until: int)
    requires evs != [] && PositivePeriods(evs) && Sorted(evs) && WellTyped(evs) && evs[0].time < until
    requires DrainsTo(start, fired, evs, until)
    ensures var next := PopNext(evs);
      next != [] && PositivePeriods(next) && Sorted(next) && WellTyped(next) &&
      Signals(next) == Signals(evs) && Backlog(next, until) < Backlog(evs, until) &&
      DrainsTo(start, fired + [evs[0]], next, until)
  {
    PopLowersBacklog(evs, until);
    PopNextKeeps(evs);
    PopNextSorted(evs);
    var next := PopNext(evs);
    DrainDue(evs, until, Drain(next, until));
    assert fired + ([evs[0]] + Drain(next, until).fired) == (fired + [evs[0]]) + Drain(next, until).fired;
  }

  /**
   * Draining a sorted list fires events in non-decreasing time, every one due strictly before
   * `until`, and leaves a sorted list of the same length in which nothing is due before `until`.
   */
  lemma {:induction false} DrainOrdered(evs: seq<Event>, until: int)
    requires evs != [] && PositivePeriods(evs) && Sorted(evs)
    ensures var d := Drain(evs, until);
      Sorted(d.fired) && Sorted(d.rest) &&
      (forall e :: e in d.rest ==> until <= e.time)
    decreases Backlog(evs, until)
  {
    if evs[0].time < until {
      PopLowersBacklog(evs, until);
      PopNextKeeps(evs);
      PopNextSorted(evs);
      var next := PopNext(evs);
      DrainOrdered(next, until);
      assert evs[0] in evs;
      PopNextNotEarlier(evs);
      DrainLowerBound(next, until, evs[0].time);
      ConsSorted(evs[0], Drain(next, until).fired);
    } else {
      NothingDue(evs, until);
    }
  }

  /** The copy of an event due `n` periods after it. */
  function Shifted(e: Event, n: int): Event
  {
    e.(time := e.time + n * e.period)
  }

  lemma ShiftedStep(e: Event, n: int)
    ensures Shifted(Reschedule(e), n) == Shifted(e, n + 1)
  {
    assert (n + 1) * e.period == n * e.period + e.period;
  }

  /**
   * A list holding one periodic event drains into ticks at its due time and every period after,
   * as long as they are due strictly before `until`; afterwards its one entry is due `n` periods
   * later, `n` being the number of ticks.
   */
  lemma {:induction false} DrainSingle(e: Event, until: int)
    requires e.period > 0
    ensures var d := Drain([e], until);
      var n := |d.fired|;
      (forall i :: 0 <= i < n ==> d.fired[i] == Shifted(e, i)) &&
      d.rest == [Shifted(e, n)] &&
      until <= Shifted(e, n).time &&
      (n > 0 ==> Shifted(e, n - 1).time < until)
    decreases Backlog([e], until)
  {
    if e.time < until {
      var e' := Reschedule(e);
      assert PopNext([e]) == [e'];
      PopLowersBacklog([e], until);
      DrainSingle(e', until);
      var d' := Drain([e'], until);
      var d := Drain([e], until);
      assert d.fired == [e] + d'.fired;
      var n := |d.fired|;
      forall i | 0 <= i < n
        ensures d.fired[i] == Shifted(e, i)
      {
        if i > 0 {
          assert d.fired[i] == d'.fired[i - 1];
          ShiftedStep(e, i - 1);
        } else {
          assert Shifted(e, 0) == e;
        }
      }
      ShiftedStep(e, n - 1);
      ShiftedStep(e, n - 2);
    } else {
      assert Shifted(e, 0) == e;
    }
  }

  const Millisecond := 1_000_000

  /** The physics event of a 3 ms physics period, due at `k` ms. */
  function PhysicsAt(k: int): Event
  {
    Event(Physics, k * Millisecond, 3 * Millisecond, null)
  }

  /** The event of a waiter paced every 20 ms, due at `k` ms. */
  function WaiterAt(s: SyncSignal, k: int): Event
  {
    Event(WaiterWake, k * Millisecond, 20 * Millisecond, s)
  }

  /** One step of the drain: a due front fires and the drain goes on from the popped list. */
  lemma {:induction false} DrainDue(evs: seq<Event>, until: int, d: Drained)
    requires evs != [] && PositivePeriods(evs) && evs[0].time < until
    requires PositivePeriods(PopNext(evs)) && Drain(PopNext(evs), until) == d
    ensures Drain(evs, until) == Drained([evs[0]] + d.fired, d.rest)
  {
  }

  /** While the next physics tick is earlier than the waiter, the physics tick fires and is rescheduled ahead of the waiter. */
  lemma {:induction false} PhysicsStep(s: SyncSignal, k: int, until: int)
    requires k + 3 < 20 && k * Millisecond < until
    ensures PositivePeriods([PhysicsAt(k), WaiterAt(s, 20)])
    ensures PositivePeriods([PhysicsAt(k + 3), WaiterAt(s, 20)])
    ensures Drain([PhysicsAt(k), WaiterAt(s, 20)], until) ==
      var d := Drain([PhysicsAt(k + 3), WaiterAt(s, 20)], until);
      Drained([PhysicsAt(k)] + d.fired, d.rest)
  {
    var evs := [PhysicsAt(k), WaiterAt(s, 20)];
    assert InsertionPoint([WaiterAt(s, 20)], (k + 3) * Millisecond) == 0;
    assert PopNext(evs) == [PhysicsAt(k + 3), WaiterAt(s, 20)];
  }

  /** The physics ticks due at k, k + 3, ... up to 18 ms. */
  function PhysicsTicks(k: int): seq<Event>
    decreases 21 - k
  {
    if k > 18 then [] else [PhysicsAt(k)] + PhysicsTicks(k + 3)
  }

  /** At 20 ms the waiter fires and is rescheduled behind the 21 ms tick, which is not due. */
  lemma {:induction false} WaiterWakesAt20(s: SyncSignal)
    ensures PositivePeriods([WaiterAt(s, 20), PhysicsAt(21)])
    ensures Drain([WaiterAt(s, 20), PhysicsAt(21)], 21 * Millisecond) ==
      Drained([WaiterAt(s, 20)], [PhysicsAt(21), WaiterAt(s, 40)])
  {
    var rest := [PhysicsAt(21), WaiterAt(s, 40)];
    assert InsertionPoint([PhysicsAt(21)], 40 * Millisecond) == 1;
    assert PopNext([WaiterAt(s, 20), PhysicsAt(21)]) == rest;
    assert Drain(rest, 21 * Millisecond) == Drained([], rest);
  }

  /** Popping the 18 ms tick reschedules it to 21 ms, behind the waiter due at 20 ms. */
  lemma {:induction false} LastTickPopped(s: SyncSignal)
    ensures PopNext([PhysicsAt(18), WaiterAt(s, 20)]) == [WaiterAt(s, 20), PhysicsAt(21)]
  {
    assert InsertionPoint([WaiterAt(s, 20)], 21 * Millisecond) == 1;
  }

  /** The last steps of the scenario: the 18 ms tick, then the waiter at 20 ms; the 21 ms tick is not due. */
  lemma {:induction false} LastTickThenWaiter(s: SyncSignal)
    ensures PositivePeriods([PhysicsAt(18), WaiterAt(s, 20)])
    ensures Drain([PhysicsAt(18), WaiterAt(s, 20)], 21 * Millisecond) ==
      Drained([PhysicsAt(18)] + [WaiterAt(s, 20)], [PhysicsAt(21), WaiterAt(s, 40)])
  {
    var evs := [PhysicsAt(18), WaiterAt(s, 20)];
    var next := [WaiterAt(s, 20), PhysicsAt(21)];
    var d := Drained([WaiterAt(s, 20)], [PhysicsAt(21), WaiterAt(s, 40)]);
    assert PopNext(evs) == next by {
      LastTickPopped(s);
    }
    assert PositivePeriods(next) && Drain(next, 21 * Millisecond) == d by {
      WaiterWakesAt20(s);
    }
    DrainDue(evs, 21 * Millisecond, d);
  }

  lemma ConsAppend(e: Event, a: seq<Event>, b: seq<Event>)
    ensures ([e] + a) + b == [e] + (a + b)
  {
  }

  /** One more physics tick in front of a drain that ends with the waiter. */
  lemma {:induction false} OneMoreTick(s: SyncSignal, k: int)
    requires k + 3 <= 18
    requires PositivePeriods([PhysicsAt(k + 3), WaiterAt(s, 20)])
    requires Drain([PhysicsAt(k + 3), WaiterAt(s, 20)], 21 * Millisecond) ==
      Drained(PhysicsTicks(k + 3) + [WaiterAt(s, 20)], [PhysicsAt(21), WaiterAt(s, 40)])
    ensures PositivePeriods([PhysicsAt(k), WaiterAt(s, 20)])
    ensures Drain([PhysicsAt(k), WaiterAt(s, 20)], 21 * Millisecond) ==
      Drained(PhysicsTicks(k) + [WaiterAt(s, 20)], [PhysicsAt(21), WaiterAt(s, 40)])
  {
    PhysicsStep(s, k, 21 * Millisecond);
    assert PhysicsTicks(k) == [PhysicsAt(k)] + PhysicsTicks(k + 3);
    ConsAppend(PhysicsAt(k), PhysicsTicks(k + 3), [WaiterAt(s, 20)]);
  }

  /**
   * Drained to 21 ms from a physics tick due at `k` = 18 - 3n ms and the waiter due at 20 ms,
   * the physics ticks up to 18 ms fire, then the waiter; the tick at 21 ms and the waiter at
   * 40 ms remain.
   */
  lemma {:induction false} PhysicsThenWaiter(s: SyncSignal, n: nat, k: int)
    requires n <= 6 && k == 18 - 3 * n
    ensures PositivePeriods([PhysicsAt(k), WaiterAt(s, 20)])
    ensures Drain([PhysicsAt(k), WaiterAt(s, 20)], 21 * Millisecond) ==
      Drained(PhysicsTicks(k) + [WaiterAt(s, 20)], [PhysicsAt(21), WaiterAt(s, 40)])
    decreases n
  {
    if n == 0 {
      LastTickThenWaiter(s);
      assert PhysicsTicks(18) == [PhysicsAt(18)];
    } else {
      PhysicsThenWaiter(s, n - 1, k + 3);
      OneMoreTick(s, k);
    }
  }

  /** Six physics ticks, from 3 to 18 ms, come before the waiter. */
  lemma SixTicks(s: SyncSignal)
    ensures PhysicsTicks(3) + [WaiterAt(s, 20)] ==
      [PhysicsAt(3), PhysicsAt(6), PhysicsAt(9), PhysicsAt(12), PhysicsAt(15), PhysicsAt(18), WaiterAt(s, 20)]
  {
  }

  /** Registering the 3 ms physics event and then the 20 ms waiter at time 0 queues the physics tick first. */
  lemma {:induction false} RegisteredAtZero(s: SyncSignal)
    ensures Insert(Insert([], PhysicsAt(3)), WaiterAt(s, 20)) == [PhysicsAt(3), WaiterAt(s, 20)]
  {
    assert Insert([], PhysicsAt(3)) == [PhysicsAt(3)];
    assert InsertionPoint([PhysicsAt(3)], 20 * Millisecond) == 1;
  }

  /**
   * The concrete lockstep schedule: a 3 ms physics event and a 20 ms waiter, both registered at
   * time 0, drained to 21 ms. Physics ticks at 3, 6, 9, 12, 15 and 18 ms, then the waiter wakes
   * at 20 ms; the tick due at 21 ms is not popped, since only events due strictly before the
   * frame time fire.
   */
  lemma {:induction false} ScenarioPhysicsAndWaiter(s: SyncSignal)
    ensures var evs := Insert(Insert([], PhysicsAt(3)), WaiterAt(s, 20));
      PositivePeriods(evs) &&
      Drain(evs, 21 * Millisecond) ==
        Drained([PhysicsAt(3), PhysicsAt(6), PhysicsAt(9), PhysicsAt(12), PhysicsAt(15), PhysicsAt(18), WaiterAt(s, 20)],
                [PhysicsAt(21), WaiterAt(s, 40)])
  {
    RegisteredAtZero(s);
    PhysicsThenWaiter(s, 5, 3);
    SixTicks(s);
  }
}
