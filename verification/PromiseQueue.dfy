/** A queue of asynchronous tasks of which only so many run at a time; a waiting task can be bumped, which
    starts it at once. A task is known by its number in the order of enqueueing. */
module PromiseQueue {
  import opened Sequences

  datatype Event = Enqueue | Bump(task: nat) | Complete(task: nat)

  ghost predicate Increasing(s: seq<nat>) {
    forall i, j | 0 <= i < j < |s| :: s[i] < s[j]
  }

  /** Where every task is: waiting in queue order, running in turn, running out of turn, or done. */
  datatype Places = Places(waiting: seq<nat>, inTurn: set<nat>, bumped: set<nat>, done: set<nat>) {

    ghost predicate Holds(n: nat) {
      n in waiting || n in inTurn || n in bumped || n in done
    }

    /** Each task is in exactly one place, and those waiting keep their order. */
    ghost predicate Exact(next: nat) {
      && Increasing(waiting) && inTurn !! bumped !! done
      && (forall n | n in waiting :: n !in inTurn && n !in bumped && n !in done)
      && (forall n: nat | Holds(n) :: n < next)
      && (forall n: nat | n < next :: Holds(n))
    }

    /** The tasks that ever started, each once, are those that no longer wait; and those that started in turn
        started in order, ahead of all that wait. */
    ghost predicate Started(starts: seq<nat>, turns: seq<nat>) {
      && NoRepeats(starts) && (forall n: nat :: n in starts <==> n in inTurn || n in bumped || n in done)
      && Increasing(turns) && (forall n, m | n in turns && m in waiting :: n < m)
      && (forall n | n in inTurn :: n in turns)
      && (forall n | n in turns :: n in starts)
    }

    ghost function Running(): nat {
      |inTurn| + |bumped|
    }

    /** The limit binds tasks running in turn, and no task waits while fewer run than it allows. */
    ghost predicate Bounded(limit: nat, count: int) {
      && count == Running() && |inTurn| <= limit
      && (waiting != [] ==> count >= limit)
    }
  }

  lemma AppendIncreasing(s: seq<nat>, n: nat)
    requires Increasing(s) && forall m | m in s :: m < n
    ensures Increasing(s + [n])
  {
    var t := s + [n];
    forall i, j | 0 <= i < j < |t| ensures t[i] < t[j] {
      assert t[i] in s;
    }
  }

  lemma AppendNoRepeats(s: seq<nat>, n: nat)
    requires NoRepeats(s) && n !in s
    ensures NoRepeats(s + [n])
  {
  }

  lemma StartFirst(p: Places, next: nat, starts: seq<nat>, turns: seq<nat>)
    requires p.Exact(next) && p.Started(starts, turns) && p.waiting != []
    ensures
      var q := p.(waiting := p.waiting[1..], inTurn := p.inTurn + {p.waiting[0]});
      q.Exact(next) && q.Started(starts + [p.waiting[0]], turns + [p.waiting[0]]) && |q.inTurn| <= q.Running() == p.Running() + 1
  {
    StartFirstExact(p, next);
    StartFirstStarted(p, next, starts, turns);
  }

  lemma StartFirstExact(p: Places, next: nat)
    requires p.Exact(next) && p.waiting != []
    ensures
      var q := p.(waiting := p.waiting[1..], inTurn := p.inTurn + {p.waiting[0]});
      q.Exact(next) && |q.inTurn| <= q.Running() == p.Running() + 1
  {
    var n := p.waiting[0];
    var q := p.(waiting := p.waiting[1..], inTurn := p.inTurn + {n});
    assert p.waiting == [n] + q.waiting;
    assert n in p.waiting;
    forall m: nat | p.Holds(m) ensures q.Holds(m) {
    }
    forall m: nat | q.Holds(m) ensures m < next {
      assert p.Holds(m);
    }
  }

  lemma StartFirstStarted(p: Places, next: nat, starts: seq<nat>, turns: seq<nat>)
    requires p.Exact(next) && p.Started(starts, turns) && p.waiting != []
    ensures
      var q := p.(waiting := p.waiting[1..], inTurn := p.inTurn + {p.waiting[0]});
      q.Started(starts + [p.waiting[0]], turns + [p.waiting[0]])
  {
    var n := p.waiting[0];
    assert n in p.waiting;
    AppendIncreasing(turns, n);
    AppendNoRepeats(starts, n);
    assert p.waiting == [n] + p.waiting[1..];
    forall m | m in p.waiting[1..] ensures n < m {
      var i :| 0 < i < |p.waiting| && p.waiting[i] == m;
    }
  }

  lemma WithoutAt(s: seq<nat>, i: nat)
    requires i < |s|
    ensures multiset(s[..i] + s[i + 1..]) == multiset(s) - multiset{s[i]}
  {
    assert s == s[..i] + [s[i]] + s[i + 1..];
  }

  lemma StartBumped(p: Places, next: nat, starts: seq<nat>, turns: seq<nat>, i: nat)
    requires p.Exact(next) && p.Started(starts, turns) && i < |p.waiting|
    ensures
      var q := p.(waiting := p.waiting[..i] + p.waiting[i + 1..], bumped := p.bumped + {p.waiting[i]});
      q.Exact(next) && q.Started(starts + [p.waiting[i]], turns) && q.Running() == p.Running() + 1
  {
    var n := p.waiting[i];
    var q := p.(waiting := p.waiting[..i] + p.waiting[i + 1..], bumped := p.bumped + {n});
    assert p.waiting == p.waiting[..i] + [n] + p.waiting[i + 1..];
    assert n in p.waiting;
    AppendNoRepeats(starts, n);
    forall m | m in q.waiting ensures m in p.waiting {
      assert m in p.waiting[..i] || m in p.waiting[i + 1..];
    }
    forall m: nat | p.Holds(m) ensures q.Holds(m) {
    }
    forall m: nat | q.Holds(m) ensures m < next {
      assert p.Holds(m);
    }
  }

  lemma Join(p: Places, next: nat, starts: seq<nat>, turns: seq<nat>)
    requires p.Exact(next) && p.Started(starts, turns)
    ensures
      var q := p.(waiting := p.waiting + [next]);
      q.Exact(next + 1) && q.Started(starts, turns) && q.Running() == p.Running()
  {
    var q := p.(waiting := p.waiting + [next]);
    assert !p.Holds(next);
    forall m | m in p.waiting ensures m < next {
      assert p.Holds(m);
    }
    AppendIncreasing(p.waiting, next);
    forall m: nat | q.Holds(m) ensures m < next + 1 {
      assert m != next ==> p.Holds(m);
    }
    forall m: nat | m < next + 1 ensures q.Holds(m) {
      assert m != next ==> p.Holds(m);
      assert q.waiting[|p.waiting|] == next;
    }
    forall n, m | n in turns && m in q.waiting ensures n < m {
      assert n in starts;
      assert p.Holds(n);
    }
  }

  lemma Finish(p: Places, next: nat, starts: seq<nat>, turns: seq<nat>, n: nat)
    requires p.Exact(next) && p.Started(starts, turns) && (n in p.inTurn || n in p.bumped)
    ensures
      var q := p.(inTurn := p.inTurn - {n}, bumped := p.bumped - {n}, done := p.done + {n});
      q.Exact(next) && q.Started(starts, turns) && q.Running() == p.Running() - 1 && |q.inTurn| <= |p.inTurn|
  {
    FinishExact(p, next, n);
    FinishCount(p, next, n);
  }

  lemma FinishCount(p: Places, next: nat, n: nat)
    requires p.Exact(next) && (n in p.inTurn || n in p.bumped)
    ensures |p.inTurn - {n}| + |p.bumped - {n}| == |p.inTurn| + |p.bumped| - 1 && |p.inTurn - {n}| <= |p.inTurn|
  {
    if n in p.inTurn {
      assert p.bumped - {n} == p.bumped;
    } else {
      assert p.inTurn - {n} == p.inTurn;
    }
  }

  lemma FinishExact(p: Places, next: nat, n: nat)
    requires p.Exact(next) && (n in p.inTurn || n in p.bumped)
    ensures p.(inTurn := p.inTurn - {n}, bumped := p.bumped - {n}, done := p.done + {n}).Exact(next)
  {
    var q := p.(inTurn := p.inTurn - {n}, bumped := p.bumped - {n}, done := p.done + {n});
    forall m: nat | p.Holds(m) ensures q.Holds(m) {
    }
    forall m: nat | q.Holds(m) ensures m < next {
      assert p.Holds(m);
    }
  }

  // ---------- what the events do ----------

  /** The places with the number the next task gets and the starts so far. */
  datatype State = State(p: Places, next: nat, starts: seq<nat>)

  function Without(s: seq<nat>, n: nat): seq<nat> {
    if s == [] then [] else if s[0] == n then s[1..] else [s[0]] + Without(s[1..], n)
  }

  lemma {:induction false} WithoutIs(s: seq<nat>, i: nat)
    requires i < |s| && s[i] !in s[..i]
    ensures Without(s, s[i]) == s[..i] + s[i + 1..]
  {
    if i > 0 {
      assert s[0] in s[..i];
      forall k | 0 <= k < i - 1 ensures s[1..][k] != s[i] {
        assert s[k + 1] in s[..i];
      }
      WithoutIs(s[1..], i - 1);
      assert s[..i] == [s[0]] + s[1..][..i - 1];
    }
  }

  /** The first waiting task starts in turn when fewer run than the limit allows. */
  ghost function WithNext(st: State, limit: nat): State {
    if st.p.Running() < limit && st.p.waiting != [] then
      var n := st.p.waiting[0];
      st.(p := st.p.(waiting := st.p.waiting[1..], inTurn := st.p.inTurn + {n}), starts := st.starts + [n])
    else st
  }

  /** A new task waits last, then the first may start; a bumped one that waits starts at once; after the end of a running
      one the first may start. */
  ghost function After(st: State, event: Event, limit: nat): State {
    match event
    case Enqueue =>
      WithNext(st.(p := st.p.(waiting := st.p.waiting + [st.next]), next := st.next + 1), limit)
    case Bump(n) =>
      if n in st.p.waiting then
        st.(p := st.p.(waiting := Without(st.p.waiting, n), bumped := st.p.bumped + {n}), starts := st.starts + [n])
      else st
    case Complete(n) =>
      if n in st.p.inTurn || n in st.p.bumped then
        WithNext(st.(p := st.p.(inTurn := st.p.inTurn - {n}, bumped := st.p.bumped - {n}, done := st.p.done + {n})), limit)
      else st
  }

  lemma NotRunning(st: State, n: nat, limit: nat)
    requires n !in st.p.inTurn && n !in st.p.bumped
    ensures After(st, Complete(n), limit) == st
  {
  }

  ghost function AfterAll(st: State, events: seq<Event>, limit: nat): State {
    if events == [] then st else After(AfterAll(st, events[..|events| - 1], limit), events[|events| - 1], limit)
  }

  class PromiseQueue {
    const maxConcurrency: nat
    var runningCount: int
    var queue: seq<nat>
    var next: nat
    /** The tasks whose promise has not settled: started in turn, and started by a bump. */
    var inTurn: set<nat>
    var bumped: set<nat>
    ghost var done: set<nat>
    /** Every start, and those of tasks whose turn it was, in order. */
    ghost var starts: seq<nat>
    ghost var turns: seq<nat>

    ghost function Now(): Places
      reads this
    {
      Places(queue, inTurn, bumped, done)
    }

    ghost function Whole(): State
      reads this
    {
      State(Now(), next, starts)
    }

    ghost predicate Placed()
      reads this
    {
      Now().Exact(next) && Now().Started(starts, turns)
    }

    ghost predicate Valid()
      reads this
    {
      Placed() && Now().Bounded(maxConcurrency, runningCount)
    }

    constructor (limit: nat := 5)
      ensures Valid() && maxConcurrency == limit && next == 0
    {
      maxConcurrency, runningCount, queue, next := limit, 0, [], 0;
      inTurn, bumped, done, starts, turns := {}, {}, {}, [], [];
    }

    /** Add a task, which starts at once when fewer run than the limit allows. */
    method Enqueue() returns (task: nat)
      requires Valid()
      modifies this
      ensures Valid() && task == old(next) && next == old(next) + 1
      ensures Whole() == After(old(Whole()), Event.Enqueue, maxConcurrency)
      ensures old(runningCount) < maxConcurrency ==> queue == [] && inTurn == old(inTurn) + {task}
      ensures old(runningCount) >= maxConcurrency ==> queue == old(queue) + [task] && inTurn == old(inTurn)
      ensures bumped == old(bumped) && done == old(done)
    {
      hide Places.Exact, Places.Started, Places.Running;
      Join(Now(), next, starts, turns);
      task, queue, next := next, queue + [next], next + 1;
      ProcessNext();
    }

    /** Start the first waiting task if the limit allows. */
    method ProcessNext()
      requires Placed() && runningCount == Now().Running() && |inTurn| <= maxConcurrency
      requires |queue| > 1 ==> runningCount + 1 >= maxConcurrency
      modifies this`runningCount, this`queue, this`inTurn, this`starts, this`turns
      ensures Valid() && Whole() == WithNext(old(Whole()), maxConcurrency)
      ensures old(runningCount) < maxConcurrency && old(queue) != [] ==>
                && queue == old(queue)[1..] && inTurn == old(inTurn) + {old(queue)[0]}
      ensures !(old(runningCount) < maxConcurrency && old(queue) != []) ==> queue == old(queue) && inTurn == old(inTurn)
    {
      hide Places.Exact, Places.Started, Places.Running;
      if runningCount < maxConcurrency && |queue| > 0 {
        StartFirst(Now(), next, starts, turns);
        var task := queue[0];
        assert task in queue;
        queue, runningCount := queue[1..], runningCount + 1;
        inTurn, starts, turns := inTurn + {task}, starts + [task], turns + [task];
      }
    }

    method FindIndex(task: nat) returns (i: int)
      ensures -1 <= i < |queue|
      ensures i >= 0 ==> queue[i] == task && task !in queue[..i]
      ensures i < 0 ==> task !in queue
    {
      i := 0;
      while i < |queue|
        invariant 0 <= i <= |queue| && task !in queue[..i]
      {
        if queue[i] == task {
          return;
        }
        i := i + 1;
      }
      i := -1;
    }

    /** Take a waiting task to the front and start it whatever the limit; leave any other task alone. */
    method Bump(task: nat)
      requires Valid()
      modifies this
      ensures Valid() && next == old(next) && done == old(done) && inTurn == old(inTurn)
      ensures Whole() == After(old(Whole()), Event.Bump(task), maxConcurrency)
      ensures task in old(queue) ==> bumped == old(bumped) + {task} && starts == old(starts) + [task]
      ensures task in old(queue) ==> multiset(queue) == multiset(old(queue)) - multiset{task}
      ensures task !in old(queue) ==> queue == old(queue) && bumped == old(bumped) && starts == old(starts)
    {
      hide Places.Exact, Places.Started, Places.Running;
      var t := FindIndex(task);
      if t > -1 {
        StartBumped(Now(), next, starts, turns, t);
        WithoutAt(queue, t);
        WithoutIs(queue, t);
        ghost var rest := queue[..t] + queue[t + 1..];
        queue := queue[..t] + queue[t + 1..];
        queue := [task] + queue;
        ProcessNextForced(task, rest);
      }
    }

    /** Start the first waiting task, put there by a bump, without asking the limit. */
    method ProcessNextForced(ghost task: nat, ghost rest: seq<nat>)
      requires queue == [task] + rest
      requires Places(rest, inTurn, bumped + {task}, done).Exact(next)
      requires Places(rest, inTurn, bumped + {task}, done).Started(starts + [task], turns)
      requires Places(rest, inTurn, bumped + {task}, done).Running() == runningCount + 1
      requires |inTurn| <= maxConcurrency <= runningCount
      modifies this`runningCount, this`queue, this`bumped, this`starts
      ensures Valid()
      ensures queue == rest && bumped == old(bumped) + {task} && starts == old(starts) + [task]
    {
      hide Places.Exact, Places.Started, Places.Running;
      var first := queue[0];
      queue, runningCount := queue[1..], runningCount + 1;
      bumped, starts := bumped + {first}, starts + [first];
    }

    /** A running task ends, well or badly, and the next may start. */
    method Complete(task: nat)
      requires Valid() && (task in inTurn || task in bumped)
      modifies this
      ensures Valid() && next == old(next) && done == old(done) + {task} && bumped == old(bumped) - {task}
      ensures Whole() == After(old(Whole()), Event.Complete(task), maxConcurrency)
      ensures old(runningCount) <= maxConcurrency && old(queue) != [] ==>
                && queue == old(queue)[1..] && inTurn == old(inTurn) - {task} + {old(queue)[0]}
      ensures !(old(runningCount) <= maxConcurrency && old(queue) != []) ==> queue == old(queue) && inTurn == old(inTurn) - {task}
    {
      hide Places.Exact, Places.Started, Places.Running;
      Finish(Now(), next, starts, turns, task);
      runningCount := runningCount - 1;
      inTurn, bumped, done := inTurn - {task}, bumped - {task}, done + {task};
      ProcessNext();
    }

    /** Any run of events keeps the invariant; the end of a task that is not running does not come. */
    method Run(events: seq<Event>)
      requires Valid()
      modifies this
      ensures Valid() && Whole() == AfterAll(old(Whole()), events, maxConcurrency)
    {
      hide Valid, After;
      for i := 0 to |events|
        invariant Valid() && Whole() == AfterAll(old(Whole()), events[..i], maxConcurrency)
      {
        assert events[..i + 1][..i] == events[..i];
        match events[i]
        case Enqueue =>
          var _ := Enqueue();
        case Bump(task) =>
          Bump(task);
        case Complete(task) =>
          if task in inTurn || task in bumped {
            Complete(task);
          } else {
            NotRunning(Whole(), task, maxConcurrency);
          }
      }
      assert events[..|events|] == events;
    }
  }
}
