/** A throttled function: calls closer together than the wait are put off to a timer or dropped. */
module Throttle {
  import opened Options

  /** A call of the throttled function, or its timer going off, with the clock. */
  datatype Event = Call(now: int) | Fire(now: int)

  /** Any two are at least the wait apart. */
  ghost predicate Apart(runs: seq<int>, wait: int) {
    forall i, j | 0 <= i < j < |runs| :: runs[j] - runs[i] >= wait
  }

  /** The timer, where the window began, and the runs so far. */
  datatype State = State(timer: Option<int>, previous: int, runs: seq<int>)

  /** A window begins with a run, or without a leading run with the first call. A call when it is over runs the function; one
      before that is put off to its end if there are trailing runs. The timer runs the function and, without leading runs,
      closes the window. */
  function After(st: State, event: Event, wait: int, leading: bool, trailing: bool): State {
    match event
    case Call(now) =>
      var began := if st.previous == 0 && !leading then now else st.previous;
      if now - began >= wait then State(None, now, st.runs + [now])
      else State(if trailing then Some(began + wait) else None, began, st.runs)
    case Fire(now) =>
      if st.timer.Some? && now >= st.timer.value then State(None, if leading then now else 0, st.runs + [now]) else st
  }

  lemma NotDue(st: State, now: int, wait: int, leading: bool, trailing: bool)
    requires !(st.timer.Some? && now >= st.timer.value)
    ensures After(st, Fire(now), wait, leading, trailing) == st
  {
  }

  function AfterAll(st: State, events: seq<Event>, wait: int, leading: bool, trailing: bool): State {
    if events == [] then st
    else After(AfterAll(st, events[..|events| - 1], wait, leading, trailing), events[|events| - 1], wait, leading, trailing)
  }

  class Throttled {
    const wait: int
    const leading: bool
    const trailing: bool
    /** When the pending timer is due; none while no timer is set. */
    var timer: Option<int>
    /** When the function last ran, or where a window without a leading run began; 0 for neither. */
    var previous: int
    /** When the function ran, in order, and the clock at the last event. */
    ghost var runs: seq<int>
    ghost var clock: int

    /** The next run, by a call or by the timer, comes no sooner than the wait after the last one. */
    ghost predicate Valid()
      reads this
    {
      && wait > 0 && 0 <= previous <= clock && Apart(runs, wait)
      && (forall i | 0 <= i < |runs| :: 0 < runs[i] <= clock)
      && (previous > 0 && runs != [] ==> runs[|runs| - 1] <= previous)
      && (previous == 0 ==> if leading then runs == [] else timer == None)
      && (timer.Some? ==> trailing && timer.value == previous + wait)
    }

    ghost function Now(): State
      reads this
    {
      State(timer, previous, runs)
    }

    constructor (wait: int, leading: bool, trailing: bool)
      requires wait > 0
      ensures Valid() && runs == [] && clock == 0
      ensures this.wait == wait && this.leading == leading && this.trailing == trailing
    {
      this.wait, this.leading, this.trailing := wait, leading, trailing;
      timer, previous, runs, clock := None, 0, [], 0;
    }

    method Invoke(now: int)
      requires now > 0 && now >= clock && wait > 0 && Apart(runs, wait)
      requires forall i | 0 <= i < |runs| :: 0 < runs[i] <= clock
      requires runs != [] ==> now - runs[|runs| - 1] >= wait
      modifies this`runs, this`clock
      ensures Apart(runs, wait) && runs == old(runs) + [now] && clock == now
      ensures forall i | 0 <= i < |runs| :: 0 < runs[i] <= clock
    {
      ghost var before := runs;
      runs, clock := runs + [now], now;
      forall i, j | 0 <= i < j < |runs| ensures runs[j] - runs[i] >= wait {
        if j == |before| && i < |before| - 1 {
          assert before[|before| - 1] - before[i] >= wait;
        }
      }
    }

    /** A call runs the function at once, leaves a timer pending, or with no trailing run is dropped. */
    method Call(now: int)
      requires Valid() && now > 0 && now >= clock
      modifies this
      ensures Valid() && clock == now
      ensures runs == old(runs) || runs == old(runs) + [now]
      ensures runs == old(runs) && trailing ==> timer.Some?
      ensures runs != old(runs) ==> timer == None
      ensures old(previous) == 0 && !leading ==> runs == old(runs)
      ensures
        var began := if old(previous) == 0 && !leading then now else old(previous);
        if now - began >= wait then runs == old(runs) + [now] && previous == now && timer == None
        else runs == old(runs) && previous == began && timer == if trailing then Some(began + wait) else None
      ensures Now() == After(old(Now()), Event.Call(now), wait, leading, trailing)
      ensures old(previous) > 0 || leading ==> (runs == old(runs) + [now] <==> now - old(previous) >= wait)
    {
      if previous == 0 && !leading {
        previous := now;
      }
      var l := wait - (now - previous);
      clock := now;
      if l <= 0 || l > wait {
        timer, previous := None, now;
        Invoke(now);
      } else if timer == None && trailing {
        timer := Some(now + l);
      }
    }

    /** The timer goes off, not before it is due. */
    method Fire(now: int)
      requires Valid() && now > 0 && now >= clock && timer.Some? && now >= timer.value
      modifies this
      ensures Valid() && clock == now && timer == None && runs == old(runs) + [now] && previous == if leading then now else 0
      ensures Now() == After(old(Now()), Event.Fire(now), wait, leading, trailing)
    {
      previous, timer, clock := if !leading then 0 else now, None, now;
      Invoke(now);
    }

    /** Any events, in clock order: a timer that is not set or not due does not go off. */
    method Run(events: seq<Event>)
      requires Valid() && (forall e | e in events :: e.now > 0 && e.now >= clock)
      requires forall i, j | 0 <= i < j < |events| :: events[i].now <= events[j].now
      modifies this
      ensures Valid() && Now() == AfterAll(old(Now()), events, wait, leading, trailing)
    {
      hide After, Apart;
      for i := 0 to |events|
        invariant Valid() && forall j | i <= j < |events| :: events[j].now > 0 && events[j].now >= clock
        invariant Now() == AfterAll(old(Now()), events[..i], wait, leading, trailing)
      {
        assert events[..i + 1][..i] == events[..i];
        var now := events[i].now;
        if events[i].Call? {
          Call(now);
        } else if timer.Some? && now >= timer.value {
          Fire(now);
        } else {
          NotDue(Now(), now, wait, leading, trailing);
        }
      }
      assert events[..|events|] == events;
    }
  }
}
