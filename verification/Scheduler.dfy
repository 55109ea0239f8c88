/** The cooperative scheduler: two heaps of tasks, one host callback at a time, and timeouts for tasks that
    start later. Clock readings and what the callbacks do come in as data. */
module Scheduler {
  import opened Options
  import opened TaskHeap
  import opened TaskQueues

  /** What a callback may do to the scheduler while it runs. */
  datatype Action =
    | Schedule(priority: nat, delay: int, now: int)
    | Cancel(id: nat)
    | RequestPaint

  datatype Outcome = Done | Continue | Throw

  /** One call of a task's callback: its actions, how it ends, and the clock afterwards. */
  datatype Turn = Turn(actions: seq<Action>, outcome: Outcome, after: int)

  /** Why a slice ended; a yield carries the loop's last reading and the one the yield test took. */
  datatype Stop = Idle | Yielded(last: int, tested: int) | Continued | Threw

  datatype Event =
    | Act(action: Action)
    | TimeoutFires(handle: nat, now: int)
    | HostCalls(now: int, guard: nat -> int, turns: seq<Turn>)

  /** How long a task of this priority may wait. */
  function Patience(priority: nat): int {
    match priority
    case 1 => -1
    case 2 => 250
    case 5 => 0x3fffffff
    case 4 => 10000
    case _ => 5000
  }

  function NewTask(id: nat, priority: nat, delay: int, now: int): Task {
    var start := if 0 < delay then now + delay else now;
    var expiration := start + Patience(priority);
    Task(id, if start > now then start else expiration, start, expiration, priority)
  }

  /** Of two tasks scheduled at one moment without delay the one of the lower level from 1 to 5 comes first. */
  lemma UrgentFirst(a: nat, b: nat, m: nat, n: nat, now: int)
    requires 1 <= m < n <= 5
    ensures NewTask(a, m, 0, now).sortIndex < NewTask(b, n, 0, now).sortIndex
    ensures !NotAfter(NewTask(b, n, 0, now), NewTask(a, m, 0, now))
  {
  }

  /** How many tasks these actions schedule. */
  function Scheduled(actions: seq<Action>): nat {
    if actions == [] then 0 else Scheduled(actions[..|actions| - 1]) + if actions[|actions| - 1].Schedule? then 1 else 0
  }

  /** The tasks they schedule, ids counting from next. */
  function Entered(next: nat, actions: seq<Action>): Bag {
    if actions == [] then multiset{}
    else
      var before, last := actions[..|actions| - 1], actions[|actions| - 1];
      Entered(next, before) + EnteredBy(next + Scheduled(before), last)
  }

  lemma EnteredStep(next: nat, actions: seq<Action>, i: nat)
    requires i < |actions|
    ensures Entered(next, actions[..i + 1]) == Entered(next, actions[..i]) + EnteredBy(next + Scheduled(actions[..i]), actions[i])
  {
    assert actions[..i + 1][..i] == actions[..i];
  }

  lemma NothingEntered(next: nat)
    ensures Entered(next, []) == multiset{}
  {
  }

  /** The task one action schedules with this id. */
  function EnteredBy(id: nat, action: Action): Bag {
    if action.Schedule? then multiset{NewTask(id, action.priority, action.delay, action.now)} else multiset{}
  }

  /** The tasks that have a callback after these actions. */
  function LiveAfter(live: set<nat>, next: nat, actions: seq<Action>): set<nat> {
    if actions == [] then live
    else
      var before, last := actions[..|actions| - 1], actions[|actions| - 1];
      match last
      case Schedule(_, _, _) => LiveAfter(live, next, before) + {next + Scheduled(before)}
      case Cancel(id) => LiveAfter(live, next, before) - {id}
      case RequestPaint => LiveAfter(live, next, before)
  }

  predicate AllDone(turns: seq<Turn>) {
    forall turn | turn in turns :: turn.outcome == Done
  }

  // ---------- the record of calls ----------

  /** A call of a task's callback in the slice that started at start: the loop's last clock reading, which yield test let
      it pass and what that read, and whether a paint was wanted then. */
  datatype Call = Call(task: Task, start: int, last: int, test: nat, tested: int, paint: bool)

  /** The task had expired, or else no paint was wanted and the time was not up. */
  predicate Allowed(c: Call, interval: int) {
    c.task.expirationTime <= c.last || (!c.paint && c.tested - c.start < interval)
  }

  /** The loop's clock reading after j turns. */
  function LastReading(now: int, turns: seq<Turn>, j: nat): int
    requires j <= |turns|
  {
    if j == 0 then now else turns[j - 1].after
  }

  predicate PaintAsked(turns: seq<Turn>, j: nat)
    requires j <= |turns|
  {
    exists m | 0 <= m < j :: RequestPaint in turns[m].actions
  }

  /** What decides over the calls of a slice. */
  datatype Slice = Slice(start: int, now: int, guard: nat -> int, turns: seq<Turn>, paint: bool, interval: int)

  /** Call j of a slice was let through by the first reading or the last turn's, and by its own yield test. */
  ghost predicate CallFits(slice: Slice, c: Call, j: nat) {
    && j <= |slice.turns| && c.start == slice.start && c.last == LastReading(slice.now, slice.turns, j)
    && c.tested == slice.guard(c.test) && c.paint == (slice.paint || PaintAsked(slice.turns, j))
    && Allowed(c, slice.interval)
  }

  /** The calls of a slice, each with a yield test of its own, all before test i. */
  ghost predicate Recorded(slice: Slice, calls: seq<Call>, i: nat) {
    && (forall j | 0 <= j < |calls| :: CallFits(slice, calls[j], j) && calls[j].test < i)
    && (forall j, k | 0 <= j < k < |calls| :: calls[j].test < calls[k].test)
  }

  lemma RecordedNone(slice: Slice, i: nat)
    ensures Recorded(slice, [], i)
  {
  }

  lemma RecordedMore(slice: Slice, calls: seq<Call>, i: nat, c: Call)
    requires Recorded(slice, calls, i) && CallFits(slice, c, |calls|) && c.test == i
    ensures Recorded(slice, calls + [c], i + 1)
  {
    hide CallFits;
  }

  lemma RecordedOn(slice: Slice, calls: seq<Call>, i: nat)
    requires Recorded(slice, calls, i)
    ensures Recorded(slice, calls, i + 1)
  {
    hide CallFits;
  }

  lemma RecordedAllowed(slice: Slice, calls: seq<Call>, i: nat)
    requires Recorded(slice, calls, i)
    ensures forall c | c in calls :: Allowed(c, slice.interval)
  {
    forall c | c in calls ensures Allowed(c, slice.interval) {
      var j :| 0 <= j < |calls| && calls[j] == c;
      assert CallFits(slice, calls[j], j);
    }
  }

  lemma PaintStep(turns: seq<Turn>, j: nat)
    requires j < |turns|
    ensures PaintAsked(turns, j + 1) == (PaintAsked(turns, j) || RequestPaint in turns[j].actions)
    ensures !PaintAsked(turns, 0)
  {
  }

  lemma OneMoreCall(before: seq<Call>, made: seq<Call>, task: Task)
    ensures |made| == |before| + 1 && made == before + [made[|before|]] && made[|before|].task == task ==>
              IdsOf(made) == IdsOf(before) + {task.id} && made[..|before|] == before
  {
    if |made| == |before| + 1 && made == before + [made[|before|]] && made[|before|].task == task {
      IdsMore(before, made[|before|]);
    }
  }

  function IdsOf(calls: seq<Call>): set<nat> {
    set c | c in calls :: c.task.id
  }

  lemma IdsMore(calls: seq<Call>, c: Call)
    ensures IdsOf(calls + [c]) == IdsOf(calls) + {c.task.id}
  {
    forall d | d in calls + [c] ensures d.task.id in IdsOf(calls) + {c.task.id} {
    }
    forall id | id in IdsOf(calls) + {c.task.id} ensures id in IdsOf(calls + [c]) {
      if id == c.task.id {
        assert c in calls + [c];
      } else {
        var d :| d in calls && d.task.id == id;
        assert d in calls + [c];
      }
    }
  }

  /** The turn a callback takes; one beyond those given throws. */
  function TurnAt(turns: seq<Turn>, k: nat, now: int): Turn {
    if k < |turns| then turns[k] else Turn([], Throw, now)
  }

  class Scheduler {
    const ready: MinHeap
    const timers: MinHeap
    var nextId: nat
    var current: Option<Task>
    var priority: nat
    var performing: bool
    var hostScheduled: bool
    var timeoutScheduled: bool
    var needsPaint: bool
    var loopRunning: bool
    var sliceStart: int
    const interval: int
    /** The tasks whose callback is not null. */
    var live: set<nat>
    /** Host callbacks posted and not yet delivered. */
    var posted: nat
    /** Timeouts set and neither fired nor cleared, with the time each is set for. */
    var pending: map<nat, int>
    var handle: nat
    /** Tasks whose callback has run to its end, and those cancelled before. */
    ghost var finished: set<nat>
    ghost var cancelled: set<nat>
    /** All calls of callbacks, in order. */
    ghost var calls: seq<Call>
    /** All events delivered. */
    ghost var seen: seq<Event>

    /** The flags that only the host callback and calls from outside it change. */
    ghost function Host(): (bool, bool, nat)
      reads this`hostScheduled, this`loopRunning, this`posted
    {
      (hostScheduled, loopRunning, posted)
    }

    ghost predicate Valid()
      reads this`nextId, this`live, this`finished, this`cancelled, ready, timers
    {
      && ready != timers && ready.Valid() && timers.Valid()
      && Queues(multiset(ready.items), multiset(timers.items), nextId, live)
      && Accounted(nextId, live, finished, cancelled)
    }

    /** A host callback is outstanding exactly while the message loop runs, and it runs whenever a task is ready. */
    ghost predicate HostInStep()
      reads this, ready
    {
      && posted <= 1 && (loopRunning <==> posted == 1)
      && (hostScheduled ==> loopRunning)
      && (ready.items != [] ==> loopRunning)
    }

    /** And when it does not run, every timer is covered by a pending timeout. */
    ghost predicate Awake()
      reads this, ready, timers
    {
      HostInStep() && (!loopRunning ==> Covered(multiset(timers.items), pending))
    }

    ghost predicate Between()
      reads this, ready, timers
    {
      Valid() && Awake() && !performing && current == None && Fair()
    }

    /** No callback was ever called when the slice should have yielded. */
    ghost predicate Fair()
      reads this`calls
    {
      forall c | c in calls :: Allowed(c, interval)
    }

    constructor ()
      ensures Between() && fresh(ready) && fresh(timers)
      ensures live == {} && finished == {} && cancelled == {} && nextId == 1
      ensures ready.items == [] && timers.items == [] && interval == 5 && calls == []
    {
      ready := new MinHeap();
      timers := new MinHeap();
      nextId, current, priority := 1, None, 3;
      performing, hostScheduled, timeoutScheduled, needsPaint, loopRunning := false, false, false, false, false;
      sliceStart, interval := -1, 5;
      live, posted, pending, handle := {}, 0, map[], 0;
      finished, cancelled, calls, seen := {}, {}, [], [];
    }

    method PostHostCallback()
      modifies this`posted
      ensures posted == old(posted) + 1
    {
      posted := posted + 1;
    }

    method SetTimeout(delay: int, now: int)
      modifies this`pending, this`handle
      ensures handle == old(handle) + 1 && pending == old(pending)[handle := now + delay]
    {
      handle := handle + 1;
      pending := pending[handle := now + delay];
    }

    method ClearTimeout()
      modifies this`pending
      ensures pending == old(pending) - {handle}
    {
      pending := pending - {handle};
    }

    method ScheduleCallback(level: nat, delay: int, now: int) returns (task: Task)
      requires Valid() && (performing || Awake())
      modifies this`nextId, this`live, this`hostScheduled, this`loopRunning, this`posted, this`timeoutScheduled, this`pending, this`handle, ready, timers
      ensures Valid() && (performing || Awake())
      ensures task == NewTask(old(nextId), level, delay, now) && task.id == old(nextId) && task.priority == level
      ensures task.startTime == if delay > 0 then now + delay else now
      ensures task.expirationTime - task.startTime
           == if level == 1 then -1 else if level == 2 then 250 else if level == 4 then 10000
              else if level == 5 then 1073741823 else 5000
      ensures task.sortIndex == if delay > 0 then task.startTime else task.expirationTime
      ensures nextId == old(nextId) + 1 && live == old(live) + {task.id}
      ensures task.startTime > now ==>
                && ready.items == old(ready.items)
                && multiset(timers.items) == multiset(old(timers.items)) + multiset{task}
      ensures task.startTime <= now ==>
                && timers.items == old(timers.items)
                && multiset(ready.items) == multiset(old(ready.items)) + multiset{task}
      ensures performing ==> Host() == old(Host())
      ensures pending == old(pending) || (handle in pending && pending[handle] == task.startTime && pending.Keys <= old(pending).Keys + {handle})
    {
      hide Queues, Accounted, Covered, Ordered;
      task := NewTask(nextId, level, delay, now);
      if task.startTime > now {
        PushTimer(task, now);
      } else {
        PushReady(task);
      }
    }

    method PushTimer(task: Task, now: int)
      requires Valid() && (performing || Awake())
      requires task.id == nextId && task.sortIndex == task.startTime
      modifies this`nextId, this`live, this`timeoutScheduled, this`pending, this`handle, timers
      ensures Valid() && (performing || Awake())
      ensures nextId == old(nextId) + 1 && live == old(live) + {task.id}
      ensures multiset(timers.items) == multiset(old(timers.items)) + multiset{task}
      ensures pending == old(pending) || (handle in pending && pending[handle] == task.startTime && pending.Keys <= old(pending).Keys + {handle})
    {
      hide Queues, Accounted, Covered, Ordered;
      AddTimer(multiset(ready.items), multiset(timers.items), nextId, live, task);
      AccountedNew(nextId, live, finished, cancelled);
      timers.Push(task);
      nextId, live := nextId + 1, live + {task.id};
      WakeForTimer(task, now, multiset(old(timers.items)));
    }

    /** Bring the timeout forward when the new timer comes first and nothing is ready. */
    method WakeForTimer(task: Task, now: int, ghost before: Bag)
      requires Valid() && multiset(timers.items) == before + multiset{task}
      requires performing || (HostInStep() && (!loopRunning ==> Covered(before, pending)))
      modifies this`timeoutScheduled, this`pending, this`handle
      ensures performing || Awake()
      ensures pending == old(pending) || (handle in pending && pending[handle] == task.startTime && pending.Keys <= old(pending).Keys + {handle})
    {
      hide Queues, Accounted, Covered, Ordered;
      TimersKeyed(multiset(ready.items), timers.items, nextId, live);
      assert task in multiset(timers.items);
      var first := ready.Peek();
      var top := timers.Peek();
      if first == None && top == Some(task) {
        if timeoutScheduled {
          ClearTimeout();
        } else {
          timeoutScheduled := true;
        }
        SetTimeout(task.startTime - now, now);
        CoveredByLeast(timers.items, pending, handle, task);
      } else if !performing && !loopRunning {
        CoveredBefore(before, timers.items, pending, task);
      }
    }

    method PushReady(task: Task)
      requires Valid() && (performing || Awake())
      requires task.id == nextId && task.sortIndex == task.expirationTime
      modifies this`nextId, this`live, this`hostScheduled, this`loopRunning, this`posted, ready
      ensures Valid() && (performing || Awake())
      ensures nextId == old(nextId) + 1 && live == old(live) + {task.id}
      ensures multiset(ready.items) == multiset(old(ready.items)) + multiset{task}
      ensures performing ==> Host() == old(Host())
    {
      hide Queues, Accounted, Covered, Ordered;
      AddReady(multiset(ready.items), multiset(timers.items), nextId, live, task);
      AccountedNew(nextId, live, finished, cancelled);
      ready.Push(task);
      nextId, live := nextId + 1, live + {task.id};
      if !hostScheduled && !performing {
        hostScheduled := true;
        if !loopRunning {
          loopRunning := true;
          PostHostCallback();
        }
      }
    }

    method CancelCallback(id: nat)
      requires Valid()
      modifies this`live, this`cancelled
      ensures Valid() && (old(Awake()) ==> Awake()) && live == old(live) - {id}
      ensures cancelled == old(cancelled) + (old(live) * {id})
    {
      hide Queues, Accounted, Covered, Ordered;
      Kill(multiset(ready.items), multiset(timers.items), nextId, live, id);
      AccountedCancel(nextId, live, finished, cancelled, id);
      cancelled := cancelled + (live * {id});
      live := live - {id};
    }

    /** The task went to the timers or to the ready queue, by its start. */
    ghost predicate ScheduledInto(before: seq<Task>, beforeTimers: seq<Task>, task: Task, now: int)
      reads ready, timers
    {
      if task.startTime > now then
        ready.items == before && multiset(timers.items) == multiset(beforeTimers) + multiset{task}
      else
        timers.items == beforeTimers && multiset(ready.items) == multiset(before) + multiset{task}
    }

    method Perform(action: Action)
      requires Valid() && (performing || Awake())
      modifies this`nextId, this`live, this`hostScheduled, this`loopRunning, this`posted, this`timeoutScheduled, this`pending, this`handle, this`cancelled, this`needsPaint, ready, timers
      ensures Valid() && (performing || Awake())
      ensures performing ==> Host() == old(Host())
      ensures multiset(old(ready.items)) <= multiset(ready.items)
      ensures nextId == old(nextId) + Scheduled([action]) && forall id | id < old(nextId) && id in live :: id in old(live)
      ensures match action
              case Schedule(level, delay, now) =>
                && live == old(live) + {old(nextId)}
                && ScheduledInto(old(ready.items), old(timers.items), NewTask(old(nextId), level, delay, now), now)
              case Cancel(id) => live == old(live) - {id} && ready.items == old(ready.items) && timers.items == old(timers.items)
              case RequestPaint => live == old(live) && ready.items == old(ready.items) && timers.items == old(timers.items)
      ensures multiset(ready.items) + multiset(timers.items)
           == multiset(old(ready.items)) + multiset(old(timers.items)) + EnteredBy(old(nextId), action)
      ensures needsPaint == (old(needsPaint) || action.RequestPaint?)
    {
      hide Queues, Accounted, Covered, Ordered, NewTask;
      match action
      case Schedule(level, delay, now) =>
        var _ := ScheduleCallback(level, delay, now);
      case Cancel(id) =>
        CancelCallback(id);
      case RequestPaint =>
        needsPaint := true;
    }

    method DropTimerAtTop(task: Task)
      requires Valid() && timers.items != [] && timers.items[0] == task && task.id !in live
      modifies timers
      ensures Valid() && |timers.items| == |old(timers.items)| - 1
      ensures multiset(timers.items) == multiset(old(timers.items)) - multiset{task}
    {
      hide Queues, Accounted, Ordered;
      assert task in multiset(timers.items);
      DropTimer(multiset(ready.items), multiset(timers.items), nextId, live, task);
      var _ := timers.Pop();
      assert |multiset(timers.items)| == |timers.items|;
    }

    method MoveTimerAtTop(task: Task)
      requires Valid() && timers.items != [] && timers.items[0] == task
      modifies ready, timers
      ensures Valid() && |timers.items| == |old(timers.items)| - 1
      ensures multiset(timers.items) == multiset(old(timers.items)) - multiset{task}
      ensures multiset(ready.items) == multiset(old(ready.items)) + multiset{Rekeyed(task)}
    {
      hide Queues, Accounted, Ordered;
      assert task in multiset(timers.items);
      MoveDue(multiset(ready.items), multiset(timers.items), nextId, live, task);
      var _ := timers.Pop();
      assert |multiset(timers.items)| == |timers.items|;
      ready.Push(task.(sortIndex := task.expirationTime));
    }

    /** Move the due timers to the ready queue, dropping cancelled ones from the front. */
    method AdvanceTimers(now: int) returns (ghost moved: seq<Task>, ghost dropped: seq<Task>)
      requires Valid()
      modifies ready, timers
      ensures Valid()
      ensures Advanced(multiset(old(ready.items)), multiset(old(timers.items)), multiset(ready.items), multiset(timers.items), moved, dropped, now, live)
      ensures forall x | x in timers.items :: x.startTime > now
    {
      hide Queues, Accounted, Ordered, Advanced;
      moved, dropped := [], [];
      ghost var r, t := multiset(ready.items), multiset(timers.items);
      AdvancedByNothing(r, t, now, live);
      var top := timers.Peek();
      while top.Some?
        invariant Valid()
        invariant top == if timers.items == [] then None else Some(timers.items[0])
        invariant Advanced(r, t, multiset(ready.items), multiset(timers.items), moved, dropped, now, live)
        decreases |timers.items|
      {
        var task := top.value;
        ghost var r0, t0 := multiset(ready.items), multiset(timers.items);
        assert task in t0;
        if task.id !in live {
          AdvancedByDrop(r, t, r0, t0, moved, dropped, now, live, task);
          DropTimerAtTop(task);
          dropped := dropped + [task];
        } else if task.startTime <= now {
          AdvancedByMove(r, t, r0, t0, moved, dropped, now, live, task);
          MoveTimerAtTop(task);
          moved := moved + [task];
        } else {
          NoneDue(timers.items, r0, nextId, live, now);
          break;
        }
        top := timers.Peek();
      }
    }

    /** The timeout's callback. */
    method HandleTimeout(now: int) returns (ghost moved: seq<Task>, ghost dropped: seq<Task>)
      requires Valid() && HostInStep() && !performing && current == None && Fair()
      modifies this`timeoutScheduled, this`hostScheduled, this`loopRunning, this`posted, this`pending, this`handle, ready, timers
      ensures Between() && forall x | x in timers.items :: x.startTime > now
      ensures !timeoutScheduled
      ensures Advanced(multiset(old(ready.items)), multiset(old(timers.items)), multiset(ready.items), multiset(timers.items), moved, dropped, now, live)
    {
      hide Queues, Accounted, Covered, Ordered, Advanced;
      timeoutScheduled := false;
      moved, dropped := AdvanceTimers(now);
      if !hostScheduled {
        var first := ready.Peek();
        if first.Some? {
          hostScheduled := true;
          if !loopRunning {
            loopRunning := true;
            PostHostCallback();
          }
        } else {
          WaitForTimers(now);
        }
      }
    }

    /** Set a timeout for the first timer, if there is one. */
    method WaitForTimers(now: int)
      requires Valid()
      modifies this`pending, this`handle
      ensures Valid() && Covered(multiset(timers.items), pending)
      ensures pending == if timers.items == [] then old(pending) else old(pending)[handle := timers.items[0].startTime]
    {
      hide Queues, Accounted, Covered, Ordered;
      var top := timers.Peek();
      if top.Some? {
        SetTimeout(top.value.startTime - now, now);
        TimersKeyed(multiset(ready.items), timers.items, nextId, live);
        CoveredByLeast(timers.items, pending, handle, top.value);
      } else {
        CoveredNone(pending);
      }
    }

    function ShouldYield(now: int): bool
      reads this
    {
      needsPaint || !(now - sliceStart < interval)
    }

    /** Call the callback of the task that comes first and see how it ends. */
    method CallBack(task: Task, turn: Turn) returns (ended: Outcome)
      requires Valid() && performing && ready.items != [] && ready.items[0] == task && task.id in live
      modifies this`nextId, this`live, this`finished, this`cancelled, this`priority, this`hostScheduled, this`loopRunning, this`posted, this`timeoutScheduled, this`pending, this`handle, this`needsPaint, ready, timers
      ensures Valid() && ended == turn.outcome
      ensures task.id !in old(finished)
      ensures Host() == old(Host())
      ensures nextId == old(nextId) + Scheduled(turn.actions)
      ensures |finished| == |old(finished)| + if turn.outcome == Continue then 0 else 1
      ensures finished == old(finished) + if turn.outcome == Continue then {} else {task.id}
      ensures task.id in live <==> turn.outcome == Continue
      ensures live == LiveAfter(old(live) - {task.id}, old(nextId), turn.actions) + (if turn.outcome == Continue then {task.id} else {})
      ensures turn.outcome != Throw ==> forall x | x in timers.items :: x.startTime > turn.after
      ensures needsPaint == (old(needsPaint) || RequestPaint in turn.actions)
    {
      hide Queues, Accounted, Ordered, Scheduled, LiveAfter, Entered, Valid;
      BeginCallback(task);
      PerformAll(task, turn.actions);
      ended := turn.outcome;
      EndCallback(task, turn);
    }

    /** The same, on the record. */
    method RunCallback(task: Task, turn: Turn, ghost last: int, ghost test: nat, ghost tested: int) returns (ended: Outcome)
      requires Valid() && performing && ready.items != [] && ready.items[0] == task && task.id in live
      modifies this`nextId, this`live, this`calls, this`finished, this`cancelled, this`priority, this`hostScheduled, this`loopRunning, this`posted, this`timeoutScheduled, this`pending, this`handle, this`needsPaint, ready, timers
      ensures Valid() && ended == turn.outcome
      ensures calls == old(calls) + [Call(task, sliceStart, last, test, tested, old(needsPaint))]
      ensures task.id !in old(finished)
      ensures Host() == old(Host())
      ensures nextId == old(nextId) + Scheduled(turn.actions)
      ensures |finished| == |old(finished)| + if turn.outcome == Continue then 0 else 1
      ensures finished == old(finished) + if turn.outcome == Continue then {} else {task.id}
      ensures task.id in live <==> turn.outcome == Continue
      ensures live == LiveAfter(old(live) - {task.id}, old(nextId), turn.actions) + (if turn.outcome == Continue then {task.id} else {})
      ensures turn.outcome != Throw ==> forall x | x in timers.items :: x.startTime > turn.after
      ensures needsPaint == (old(needsPaint) || RequestPaint in turn.actions)
    {
      hide Queues, Accounted, Ordered, Scheduled, LiveAfter, Valid;
      Record(Call(task, sliceStart, last, test, tested, needsPaint));
      ended := CallBack(task, turn);
    }

    ghost method Record(c: Call)
      modifies this`calls
      ensures calls == old(calls) + [c]
    {
      calls := calls + [c];
    }

    /** The task gives up its callback before it is called. */
    method BeginCallback(task: Task)
      requires Valid() && ready.items != [] && ready.items[0] == task && task.id in live
      modifies this`live, this`finished, this`priority
      ensures Valid() && task in multiset(ready.items) && priority == task.priority
      ensures task.id !in old(finished) && finished == old(finished) + {task.id} && live == old(live) - {task.id}
    {
      hide Queues, Accounted, Ordered;
      FinishedNotLive(nextId, live, finished, cancelled, task.id);
      Kill(multiset(ready.items), multiset(timers.items), nextId, live, task.id);
      AccountedFinish(nextId, live, finished, cancelled, task.id);
      live, finished, priority := live - {task.id}, finished + {task.id}, task.priority;
    }

    /** A continuation takes the place of the callback; a finished task leaves the queue if it is still first. */
    method EndCallback(task: Task, turn: Turn)
      requires Valid() && task in multiset(ready.items) && task.id in finished
      modifies this`live, this`finished, ready, timers
      ensures Valid()
      ensures turn.outcome == Continue ==> live == old(live) + {task.id} && finished == old(finished) - {task.id}
      ensures turn.outcome != Continue ==> live == old(live) && finished == old(finished) && task.id !in live
      ensures turn.outcome != Throw ==> forall x | x in timers.items :: x.startTime > turn.after
    {
      hide Queues, Accounted, Ordered, Advanced;
      FinishedNotLive(nextId, live, finished, cancelled, task.id);
      if turn.outcome == Continue {
        Revive(multiset(ready.items), multiset(timers.items), nextId, live, task);
        AccountedRevive(nextId, live, finished, cancelled, task.id);
        live, finished := live + {task.id}, finished - {task.id};
      } else if turn.outcome == Done {
        var first := ready.Peek();
        if first == Some(task) {
          DropReadyAtTop(task);
        }
      }
      if turn.outcome != Throw {
        var _, _ := AdvanceTimers(turn.after);
      }
    }

    /** What a callback does while it runs: its task stays queued, and does not get its callback back. */
    method PerformAll(task: Task, actions: seq<Action>)
      requires Valid() && performing && task in multiset(ready.items) && task.id in finished
      modifies this`nextId, this`live, this`cancelled, this`hostScheduled, this`loopRunning, this`posted, this`timeoutScheduled, this`pending, this`handle, this`needsPaint, ready, timers
      ensures Valid() && task in multiset(ready.items)
      ensures nextId == old(nextId) + Scheduled(actions)
      ensures live == LiveAfter(old(live), old(nextId), actions)
      ensures multiset(ready.items) + multiset(timers.items)
           == multiset(old(ready.items)) + multiset(old(timers.items)) + Entered(old(nextId), actions)
      ensures needsPaint == (old(needsPaint) || RequestPaint in actions)
      ensures Host() == old(Host())
    {
      hide Queues, Accounted, Covered, Ordered, NewTask, EnteredBy, Entered;
      NothingEntered(nextId);
      ghost var nextBefore := nextId;
      for i := 0 to |actions|
        invariant Valid() && task in multiset(ready.items)
        invariant nextId == old(nextId) + Scheduled(actions[..i])
        invariant live == LiveAfter(old(live), old(nextId), actions[..i])
        invariant multiset(ready.items) + multiset(timers.items)
               == multiset(old(ready.items)) + multiset(old(timers.items)) + Entered(old(nextId), actions[..i])
        invariant needsPaint == (old(needsPaint) || RequestPaint in actions[..i])
        invariant Host() == old(Host())
      {
        assert actions[..i + 1][..i] == actions[..i];
        assert [actions[i]][..0] == [];
        EnteredStep(nextBefore, actions, i);
        Perform(actions[i]);
      }
      assert actions[..|actions|] == actions;
    }

    method FirstReady() returns (task: Option<Task>)
      requires Valid()
      ensures task == if ready.items == [] then None else Some(ready.items[0])
    {
      hide Queues, Accounted, Ordered;
      task := ready.Peek();
    }

    /** Nothing that is ready has expired. */
    ghost predicate Unexpired(now: int)
      reads ready
    {
      forall x | x in ready.items :: x.expirationTime > now
    }

    /** That shows in the task that comes first. */
    lemma ExpiryShows(now: int)
      requires Valid() && ready.items != []
      ensures Unexpired(now) <==> ready.items[0].expirationTime > now
    {
      hide Queues, Accounted, Ordered;
      if ready.items[0].expirationTime > now {
        ValidQueues();
        NoneExpired(ready.items, multiset(timers.items), nextId, live, now);
      }
      assert ready.items[0] in ready.items;
    }

    lemma ValidQueues()
      requires Valid()
      ensures Queues(multiset(ready.items), multiset(timers.items), nextId, live) && Ordered(ready.items)
    {
      hide Queues, Accounted, Ordered;
    }

    /** A slice that can only yield: no timers, one task ready that has not expired, and the time up at the first test. */
    ghost predicate SpentAtOnce(now: int, tested: int, start: int)
      reads ready, timers
    {
      && timers.items == [] && |ready.items| == 1 && ready.items[0].expirationTime > now
      && tested - start >= interval
    }

    lemma SpentYields(now: int, tested: int)
      ensures SpentAtOnce(now, tested, sliceStart) ==>
                ready.items != [] && ready.items[0].expirationTime > now && ShouldYield(tested)
    {
    }

    lemma Yielding(last: int, tested: int)
      requires Valid() && ready.items != [] && ready.items[0].expirationTime > last && ShouldYield(tested)
      ensures needsPaint || tested - sliceStart >= interval
      ensures Unexpired(last) && (Unexpired(tested) <==> ready.items[0].expirationTime > tested)
    {
      hide Valid, Unexpired;
      ExpiryShows(last);
      ExpiryShows(tested);
    }

    method BeginLoop(now: int, ghost tested: int)
      requires Valid()
      modifies ready, timers
      ensures Valid()
      ensures old(SpentAtOnce(now, tested, sliceStart)) ==>
                SpentAtOnce(now, tested, sliceStart) && ready.items == old(ready.items) && ready.items != []
    {
      hide Queues, Accounted, Ordered, Advanced;
      ghost var moved, dropped := AdvanceTimers(now);
      if old(SpentAtOnce(now, tested, sliceStart)) {
        NothingMoves(old(ready.items), ready.items, multiset(timers.items), moved, dropped, now, live);
        NoTimers(multiset(old(ready.items)), multiset(ready.items), timers.items, moved, dropped, now, live);
      }
    }

    /** One slice: call tasks, most urgent first, until none is left, the time is up with nothing expired, a
        callback asks to continue later, or one throws. The i-th yield test reads guard(i); a callback beyond
        the turns given throws. */
    method WorkLoop(now: int, guard: nat -> int, turns: seq<Turn>) returns (stop: Stop, used: nat, ghost made: seq<Call>)
      requires Valid() && performing
      modifies this`nextId, this`live, this`calls, this`finished, this`cancelled, this`priority, this`hostScheduled, this`loopRunning, this`posted, this`timeoutScheduled, this`pending, this`handle, this`needsPaint, this`current, ready, timers
      ensures Valid()
      ensures Host() == old(Host())
      ensures stop == Idle ==> ready.items == [] && Covered(multiset(timers.items), pending)
      ensures stop.Yielded? ==>
                && ready.items != [] && (needsPaint || stop.tested - sliceStart >= interval)
                && Unexpired(stop.last) && (Unexpired(stop.tested) <==> ready.items[0].expirationTime > stop.tested)
      ensures SliceEnds(old(calls), old(finished), Slice(sliceStart, now, guard, turns, old(needsPaint), interval), stop, used, made)
      ensures old(SpentAtOnce(now, guard(0), sliceStart)) ==> stop == Yielded(now, guard(0)) && ready.items == old(ready.items)
    {
      hide Queues, Accounted, Covered, Ordered, Advanced, Host, Scheduled, Valid, Patience, NewTask, Unexpired, SpentAtOnce,
           ShouldYield, Kept, SliceEnds;
      var last, i: nat := now, 0;
      used, made := 0, [];
      ghost var spent := SpentAtOnce(now, guard(0), sliceStart);
      ghost var slice := Slice(sliceStart, now, guard, turns, needsPaint, interval);
      BeginLoop(now, guard(0));
      KeptBegins(slice);
      current := FirstReady();
      while current.Some?
        invariant Valid() && Host() == old(Host())
        invariant spent ==> i == 0 && last == now && ready.items == old(ready.items) && ready.items != []
        invariant spent ==> SpentAtOnce(now, guard(0), sliceStart)
        invariant current == if ready.items == [] then None else Some(ready.items[0])
        invariant used <= |turns| && Kept(slice, old(calls), old(finished), used, made, last, i)
        decreases |turns| - used, |ready.items|
      {
        var task := current.value;
        SpentYields(now, guard(0));
        if task.expirationTime > last && ShouldYield(guard(i)) {
          Yielding(last, guard(i));
          KeptYields(slice, old(calls), old(finished), used, made, last, i);
          return Yielded(last, guard(i)), used, made;
        }
        var ended;
        ended, used, last, made := NextTurn(task, turns, used, last, slice, made, i, old(calls), old(finished));
        i := i + 1;
        if ended == Throw {
          return Threw, used, made;
        }
        if ended == Continue {
          return Continued, used, made;
        }
        current := FirstReady();
      }
      WaitForTimers(last);
      KeptIdles(slice, old(calls), old(finished), used, made, last, i);
      return Idle, used, made;
    }

    /** The record so far, before yield test i. */
    ghost predicate Kept(slice: Slice, before: seq<Call>, done: set<nat>, used: nat, made: seq<Call>, last: int, i: nat)
      reads this`calls, this`finished, this`needsPaint, this`sliceStart
    {
      && used <= |slice.turns| && AllDone(slice.turns[..used]) && |made| == used && Recorded(slice, made, i)
      && slice.start == sliceStart && slice.interval == interval
      && last == LastReading(slice.now, slice.turns, used) && needsPaint == (slice.paint || PaintAsked(slice.turns, used))
      && calls == before + made && finished == done + IdsOf(made) && |finished| == |done| + used
    }

    lemma KeptBegins(slice: Slice)
      requires slice == Slice(sliceStart, slice.now, slice.guard, slice.turns, needsPaint, interval)
      ensures Kept(slice, calls, finished, 0, [], slice.now, 0)
    {
      BeginRecord(slice);
      hide Recorded, PaintAsked, IdsOf;
    }

    lemma KeptYields(slice: Slice, before: seq<Call>, done: set<nat>, used: nat, made: seq<Call>, last: int, i: nat)
      requires Kept(slice, before, done, used, made, last, i)
      ensures SliceEnds(before, done, slice, Yielded(last, slice.guard(i)), used, made)
    {
      hide Recorded, IdsOf;
    }

    lemma KeptIdles(slice: Slice, before: seq<Call>, done: set<nat>, used: nat, made: seq<Call>, last: int, i: nat)
      requires Kept(slice, before, done, used, made, last, i)
      ensures SliceEnds(before, done, slice, Idle, used, made)
    {
      hide Recorded, IdsOf;
    }

    /** One round of the loop, with its record. */
    method NextTurn(task: Task, turns: seq<Turn>, used: nat, last: int, ghost slice: Slice, ghost made: seq<Call>, ghost i: nat,
                    ghost before: seq<Call>, ghost done: set<nat>)
      returns (ended: Outcome, used': nat, last': int, ghost made': seq<Call>)
      requires Valid() && performing && ready.items != [] && ready.items[0] == task
      requires slice.turns == turns && Kept(slice, before, done, used, made, last, i)
      requires task.expirationTime <= last || !ShouldYield(slice.guard(i))
      modifies this`nextId, this`live, this`calls, this`finished, this`cancelled, this`priority, this`hostScheduled, this`loopRunning, this`posted, this`timeoutScheduled, this`pending, this`handle, this`needsPaint, ready, timers
      ensures Valid() && Host() == old(Host()) && used' <= |turns|
      ensures ended == Done ==> used' == used + 1 || (used' == used && |ready.items| < |old(ready.items)|)
      ensures ended == Done ==> Kept(slice, before, done, used', made', last', i + 1)
      ensures ended == Throw ==> SliceEnds(before, done, slice, Threw, used', made')
      ensures ended == Continue ==> SliceEnds(before, done, slice, Continued, used', made')
    {
      hide Valid, Host, Recorded, PaintAsked, LastReading, IdsOf, ShouldYield;
      ended, used', last', made' := TakeTurn(task, turns, used, last, slice, made, i);
      OneMoreCall(made, made', task);
      if |made'| > used {
        JoinCalls(before, made, made'[used]);
        JoinIds(done, IdsOf(made), task.id);
      }
    }

    lemma JoinCalls(before: seq<Call>, made: seq<Call>, c: Call)
      ensures before + made + [c] == before + (made + [c])
    {
    }

    lemma JoinIds(done: set<nat>, ids: set<nat>, id: nat)
      ensures done + ids + {id} == done + (ids + {id})
    {
    }

    lemma BeginRecord(slice: Slice)
      ensures Recorded(slice, [], 0) && IdsOf([]) == {} && !PaintAsked(slice.turns, 0)
    {
      RecordedNone(slice, 0);
    }

    /** How a slice ends: every callback was let through by its test, the callbacks that ran to their end are those called,
        and a yield carries the last reading and a test past all of theirs. */
    ghost predicate SliceEnds(before: seq<Call>, done: set<nat>, slice: Slice, stop: Stop, used: nat, made: seq<Call>)
      reads this`calls, this`finished
    {
      && used <= |slice.turns| && AllDone(slice.turns[..used])
      && |made| == used + (if stop == Threw || stop == Continued then 1 else 0)
      && calls == before + made && (exists i :: Recorded(slice, made, i) && (stop.Yielded? ==> stop.tested == slice.guard(i)))
      && (stop.Yielded? ==> stop.last == LastReading(slice.now, slice.turns, used))
      && (stop == Threw ==> used == |slice.turns| || slice.turns[used].outcome == Throw)
      && (stop == Continued ==> used < |slice.turns| && slice.turns[used].outcome == Continue)
      && finished == done + IdsOf(if stop == Continued then made[..used] else made)
      && (stop != Threw ==> |finished| == |done| + used)
    }

    /** A test that did not stop the slice lets the task be called. */
    lemma CallPasses(slice: Slice, task: Task, used: nat, last: int, i: nat)
      requires slice.start == sliceStart && slice.interval == interval && used <= |slice.turns|
      requires last == LastReading(slice.now, slice.turns, used) && needsPaint == (slice.paint || PaintAsked(slice.turns, used))
      requires task.expirationTime <= last || !ShouldYield(slice.guard(i))
      ensures CallFits(slice, Call(task, sliceStart, last, i, slice.guard(i), needsPaint), used)
    {
      hide LastReading, PaintAsked;
    }

    /** Call the first task, or drop it if it was cancelled; made are the calls of the slice. */
    method TakeTurn(task: Task, turns: seq<Turn>, used: nat, last: int, ghost slice: Slice, ghost made: seq<Call>, ghost i: nat)
      returns (ended: Outcome, used': nat, last': int, ghost made': seq<Call>)
      requires Valid() && performing && ready.items != [] && ready.items[0] == task
      requires used <= |turns| && AllDone(turns[..used])
      requires slice.turns == turns && slice.start == sliceStart && slice.interval == interval
      requires |made| == used && Recorded(slice, made, i) && last == LastReading(slice.now, turns, used)
      requires needsPaint == (slice.paint || PaintAsked(turns, used))
      requires task.expirationTime <= last || !ShouldYield(slice.guard(i))
      modifies this`nextId, this`live, this`calls, this`finished, this`cancelled, this`priority, this`hostScheduled, this`loopRunning, this`posted, this`timeoutScheduled, this`pending, this`handle, this`needsPaint, ready, timers
      ensures Valid() && Host() == old(Host())
      ensures used' <= |turns| && AllDone(turns[..used'])
      ensures ended == Throw ==> used' == used && (used == |turns| || turns[used].outcome == Throw)
      ensures ended == Continue ==> used' == used < |turns| && turns[used].outcome == Continue
      ensures ended != Throw ==> |finished| == |old(finished)| + (used' - used)
      ensures ended == Done ==> used' == used + 1 || (used' == used && |ready.items| < |old(ready.items)|)
      ensures Recorded(slice, made', i + 1) && |made'| == used' + if ended == Done then 0 else 1
      ensures if |made'| == used then made' == made && calls == old(calls) && finished == old(finished)
              else
                && made' == made + [made'[used]] && made'[used].task == task && calls == old(calls) + [made'[used]]
                && finished == if ended == Continue then old(finished) else old(finished) + {task.id}
      ensures ended == Done ==> last' == LastReading(slice.now, turns, used')
      ensures ended == Done ==> needsPaint == (slice.paint || PaintAsked(turns, used'))
    {
      hide Queues, Accounted, Covered, Ordered, Advanced, Host, Scheduled, Valid, Recorded, CallFits, PaintAsked, ShouldYield, LiveAfter;
      ended, used', last', made' := Done, used, last, made;
      if task.id in live {
        var turn := TurnAt(turns, used, last);
        ghost var c := Call(task, sliceStart, last, i, slice.guard(i), needsPaint);
        CallPasses(slice, task, used, last, i);
        RecordedMore(slice, made, i, c);
        ended := RunCallback(task, turn, last, i, slice.guard(i));
        made' := made + [c];
        if ended != Throw {
          last' := turn.after;
        }
        if ended == Done {
          assert turns[..used + 1] == turns[..used] + [turn];
          PaintStep(turns, used);
          used' := used + 1;
        }
      } else {
        RecordedOn(slice, made, i);
        DropReadyAtTop(task);
      }
    }

    method DropReadyAtTop(task: Task)
      requires Valid() && ready.items != [] && ready.items[0] == task && task.id !in live
      modifies ready
      ensures Valid() && |ready.items| == |old(ready.items)| - 1
      ensures multiset(ready.items) == multiset(old(ready.items)) - multiset{task}
    {
      hide Queues, Accounted, Ordered;
      assert task in multiset(ready.items);
      DropReady(multiset(ready.items), multiset(timers.items), nextId, live, task);
      var _ := ready.Pop();
      assert |multiset(ready.items)| == |ready.items|;
    }

    method BeginSlice(now: int)
      requires Valid()
      modifies this`needsPaint, this`sliceStart, this`hostScheduled, this`timeoutScheduled, this`pending, this`performing
      ensures Valid() && performing && !hostScheduled && sliceStart == now && !needsPaint
    {
      hide Queues, Accounted, Covered, Ordered;
      needsPaint, sliceStart := false, now;
      hostScheduled := false;
      if timeoutScheduled {
        timeoutScheduled := false;
        ClearTimeout();
      }
      performing := true;
    }

    /** The host callback: one slice, and another callback posted exactly when work may be left. */
    method PerformWork(now: int, guard: nat -> int, turns: seq<Turn>) returns (stop: Stop, used: nat, ghost made: seq<Call>)
      requires Valid() && loopRunning && posted == 0 && !performing && Fair()
      modifies this`nextId, this`current, this`priority, this`performing, this`hostScheduled, this`timeoutScheduled, this`needsPaint, this`loopRunning, this`sliceStart, this`live, this`posted, this`pending, this`handle, this`finished, this`cancelled, this`calls, ready, timers
      ensures Between() && loopRunning == (stop != Idle) && priority == old(priority)
      ensures stop.Yielded? ==>
                && ready.items != [] && (needsPaint || stop.tested - now >= interval)
                && Unexpired(stop.last) && (Unexpired(stop.tested) <==> ready.items[0].expirationTime > stop.tested)
      ensures stop == Idle ==> ready.items == []
      ensures SliceEnds(old(calls), old(finished), Slice(now, now, guard, turns, false, interval), stop, used, made)
      ensures old(SpentAtOnce(now, guard(0), now)) ==> stop == Yielded(now, guard(0)) && ready.items == old(ready.items)
    {
      hide Queues, Accounted, Covered, Ordered, SpentAtOnce, Unexpired, SliceEnds, Allowed, Valid;
      var previous := priority;
      BeginSlice(now);
      stop, used, made := WorkLoop(now, guard, turns);
      ghost var slice := Slice(now, now, guard, turns, false, interval);
      SliceIsFair(old(calls), old(finished), slice, stop, used, made);
      current, priority, performing := None, previous, false;
      if stop != Idle {
        PostHostCallback();
      } else {
        loopRunning := false;
      }
    }

    lemma SliceIsFair(before: seq<Call>, done: set<nat>, slice: Slice, stop: Stop, used: nat, made: seq<Call>)
      requires SliceEnds(before, done, slice, stop, used, made) && slice.interval == interval
      requires forall c | c in before :: Allowed(c, interval)
      ensures Fair()
    {
      hide Recorded, Allowed;
      var i :| Recorded(slice, made, i);
      RecordedAllowed(slice, made, i);
    }

    /** Deliver one event. A timeout that was cleared and a host callback nobody posted do not come. */
    method Deliver(event: Event) returns (ghost stop: Option<Stop>, ghost used: nat, ghost made: seq<Call>)
      requires Between()
      modifies this`nextId, this`current, this`priority, this`performing, this`hostScheduled, this`timeoutScheduled, this`needsPaint, this`loopRunning, this`sliceStart, this`live, this`posted, this`pending, this`handle, this`finished, this`cancelled, this`calls, ready, timers
      ensures Between()
      ensures event.Act? ==>
                match event.action
                case Schedule(level, delay, now) =>
                  && nextId == old(nextId) + 1 && live == old(live) + {old(nextId)}
                  && ScheduledInto(old(ready.items), old(timers.items), NewTask(old(nextId), level, delay, now), now)
                case Cancel(id) => live == old(live) - {id} && ready.items == old(ready.items) && timers.items == old(timers.items)
                case RequestPaint => needsPaint && live == old(live) && ready.items == old(ready.items) && timers.items == old(timers.items)
      ensures event.TimeoutFires? && event.handle in old(pending) ==>
                && (forall x | x in timers.items :: x.startTime > event.now)
                && live == old(live) && exists moved, dropped ::
                     Advanced(multiset(old(ready.items)), multiset(old(timers.items)), multiset(ready.items), multiset(timers.items), moved, dropped, event.now, live)
      ensures event.HostCalls? && old(posted) > 0 ==>
                && stop.Some? && (posted == 0 <==> stop.value == Idle) && (stop.value == Idle ==> ready.items == [])
                && SliceEnds(old(calls), old(finished), Slice(event.now, event.now, event.guard, event.turns, false, interval), stop.value, used, made)
      ensures !(event.HostCalls? && old(posted) > 0) ==> stop == None && calls == old(calls) && finished == old(finished)
    {
      hide Queues, Accounted, Covered, Ordered, Advanced, SliceEnds, NewTask, Valid, Fair, ScheduledInto;
      stop, used, made := None, 0, [];
      match event
      case Act(action) =>
        Perform(action);
      case TimeoutFires(h, now) =>
        if h in pending {
          pending := pending - {h};
          ghost var _, _ := HandleTimeout(now);
        }
      case HostCalls(now, guard, turns) =>
        if posted > 0 {
          posted := posted - 1;
          var ended;
          ended, used, made := PerformWork(now, guard, turns);
          stop := Some(ended);
        }
    }

    /** One event, on the record. */
    method Handle(event: Event) returns (ghost stop: Option<Stop>, ghost used: nat, ghost made: seq<Call>)
      requires Between()
      modifies this, ready, timers
      ensures Between() && seen == old(seen) + [event]
      ensures event.Act? ==>
                match event.action
                case Schedule(level, delay, now) =>
                  && nextId == old(nextId) + 1 && live == old(live) + {old(nextId)}
                  && ScheduledInto(old(ready.items), old(timers.items), NewTask(old(nextId), level, delay, now), now)
                case Cancel(id) => live == old(live) - {id} && ready.items == old(ready.items) && timers.items == old(timers.items)
                case RequestPaint => needsPaint && live == old(live) && ready.items == old(ready.items) && timers.items == old(timers.items)
      ensures event.TimeoutFires? && event.handle in old(pending) ==>
                && (forall x | x in timers.items :: x.startTime > event.now)
                && live == old(live) && exists moved, dropped ::
                     Advanced(multiset(old(ready.items)), multiset(old(timers.items)), multiset(ready.items), multiset(timers.items), moved, dropped, event.now, live)
      ensures event.HostCalls? && old(posted) > 0 ==>
                && stop.Some? && (posted == 0 <==> stop.value == Idle) && (stop.value == Idle ==> ready.items == [])
                && SliceEnds(old(calls), old(finished), Slice(event.now, event.now, event.guard, event.turns, false, interval), stop.value, used, made)
      ensures !(event.HostCalls? && old(posted) > 0) ==> stop == None && calls == old(calls) && finished == old(finished)
    {
      hide Queues, Accounted, Covered, Ordered, Advanced, SliceEnds, NewTask, ScheduledInto, Fair, Valid;
      stop, used, made := Deliver(event);
      seen := seen + [event];
    }

    /** Every run of events, in any order, keeps the invariant: one host callback outstanding whenever a task is ready, and
        no callback ever called where the slice should have yielded. */
    method Run(events: seq<Event>)
      requires Between()
      modifies this, ready, timers
      ensures Between() && seen == old(seen) + events
    {
      hide Between, Advanced, SliceEnds, NewTask, ScheduledInto;
      for i := 0 to |events|
        invariant Between() && seen == old(seen) + events[..i]
      {
        assert events[..i + 1] == events[..i] + [events[i]];
        ghost var _, _, _ := Handle(events[i]);
      }
      assert events[..|events|] == events;
    }
  }

  /** A run in which the first task expires between the loop's last reading, 4999, and that of the yield test. */
  method ExpiresInTest() returns (s: Scheduler, stop: Stop)
    ensures s.Between() && stop.Yielded? && s.Unexpired(stop.last) && !s.Unexpired(stop.tested)
  {
    hide Queues, Accounted, Covered, Ordered;
    s := new Scheduler();
    var task := s.ScheduleCallback(3, 0, 0);
    OnlyOne(s.ready.items, task);
    s.posted := s.posted - 1;
    var guard: nat -> int := _ => 5004;
    assert s.SpentAtOnce(4999, guard(0), 4999);
    var used;
    ghost var made;
    stop, used, made := s.PerformWork(4999, guard, []);
  }

  /** Nothing stalls: between events a task that still has its callback is queued, once, and either a host
      callback is outstanding or a timeout is pending that is set for no later than the task's start. */
  lemma NothingStalls(s: Scheduler, id: nat)
    requires s.Between() && id in s.live
    ensures Queued(multiset(s.ready.items), multiset(s.timers.items), id)
    ensures s.posted == 1 || exists x, h :: x in s.timers.items && x.id == id && h in s.pending && s.pending[h] <= x.startTime
  {
  }
}
