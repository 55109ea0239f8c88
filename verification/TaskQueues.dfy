/** What the two queues of the scheduler, ready tasks and timers, hold between any two steps. */
module TaskQueues {
  import opened TaskHeap

  type Bag = multiset<Task>

  /** The task as it goes from the timers to the ready queue. */
  function Rekeyed(x: Task): Task {
    x.(sortIndex := x.expirationTime)
  }

  ghost predicate Queued(ready: Bag, timers: Bag, id: nat) {
    exists x :: (x in ready || x in timers) && x.id == id
  }

  /** Ready tasks are keyed by expiration and timers by start; no task is queued twice, in one queue or in
      both; and every task that still has a callback is queued. */
  ghost predicate Queues(ready: Bag, timers: Bag, next: nat, live: set<nat>) {
    && (forall x | x in ready :: ready[x] == 1 && x.sortIndex == x.expirationTime && x.id < next)
    && (forall x | x in timers :: timers[x] == 1 && x.sortIndex == x.startTime && x.id < next)
    && (forall x, y | x in ready && y in ready && x.id == y.id :: x == y)
    && (forall x, y | x in timers && y in timers && x.id == y.id :: x == y)
    && (forall x, y | x in ready && y in timers :: x.id != y.id)
    && (forall id | id in live :: Queued(ready, timers, id))
  }

  lemma AddReady(ready: Bag, timers: Bag, next: nat, live: set<nat>, x: Task)
    requires Queues(ready, timers, next, live) && x.id == next && x.sortIndex == x.expirationTime
    ensures Queues(ready + multiset{x}, timers, next + 1, live + {next})
  {
    var more := ready + multiset{x};
    forall id | id in live + {next} ensures Queued(more, timers, id) {
      if id == next {
        assert x in more;
      } else {
        var y :| (y in ready || y in timers) && y.id == id;
        assert y in more || y in timers;
      }
    }
  }

  lemma AddTimer(ready: Bag, timers: Bag, next: nat, live: set<nat>, x: Task)
    requires Queues(ready, timers, next, live) && x.id == next && x.sortIndex == x.startTime
    ensures Queues(ready, timers + multiset{x}, next + 1, live + {next})
  {
    var more := timers + multiset{x};
    forall id | id in live + {next} ensures Queued(ready, more, id) {
      if id == next {
        assert x in more;
      } else {
        var y :| (y in ready || y in timers) && y.id == id;
        assert y in ready || y in more;
      }
    }
  }

  lemma DropReady(ready: Bag, timers: Bag, next: nat, live: set<nat>, x: Task)
    requires Queues(ready, timers, next, live) && x in ready && x.id !in live
    ensures Queues(ready - multiset{x}, timers, next, live)
  {
    var less := ready - multiset{x};
    forall id | id in live ensures Queued(less, timers, id) {
      var y :| (y in ready || y in timers) && y.id == id;
      assert y in less || y in timers;
    }
  }

  lemma DropTimer(ready: Bag, timers: Bag, next: nat, live: set<nat>, x: Task)
    requires Queues(ready, timers, next, live) && x in timers && x.id !in live
    ensures Queues(ready, timers - multiset{x}, next, live)
  {
    var less := timers - multiset{x};
    forall id | id in live ensures Queued(ready, less, id) {
      var y :| (y in ready || y in timers) && y.id == id;
      assert y in ready || y in less;
    }
  }

  lemma MoveDue(ready: Bag, timers: Bag, next: nat, live: set<nat>, x: Task)
    requires Queues(ready, timers, next, live) && x in timers
    ensures Queues(ready + multiset{Rekeyed(x)}, timers - multiset{x}, next, live)
  {
    var more, less := ready + multiset{Rekeyed(x)}, timers - multiset{x};
    MovedStaysQueued(ready, timers, next, live, x);
    assert forall y | y in less :: y in timers && y != x;
    assert forall y | y in more :: y in ready || y == Rekeyed(x);
  }

  lemma MovedStaysQueued(ready: Bag, timers: Bag, next: nat, live: set<nat>, x: Task)
    requires Queues(ready, timers, next, live) && x in timers
    ensures forall id | id in live :: Queued(ready + multiset{Rekeyed(x)}, timers - multiset{x}, id)
  {
    var more, less := ready + multiset{Rekeyed(x)}, timers - multiset{x};
    forall id | id in live ensures Queued(more, less, id) {
      var y :| (y in ready || y in timers) && y.id == id;
      if y == x {
        assert Rekeyed(x) in more;
      } else {
        assert y in more || y in less;
      }
    }
  }

  lemma Kill(ready: Bag, timers: Bag, next: nat, live: set<nat>, id: nat)
    requires Queues(ready, timers, next, live)
    ensures Queues(ready, timers, next, live - {id})
  {
  }

  lemma Revive(ready: Bag, timers: Bag, next: nat, live: set<nat>, x: Task)
    requires Queues(ready, timers, next, live) && x in ready
    ensures Queues(ready, timers, next, live + {x.id})
  {
    assert Queued(ready, timers, x.id);
  }

  // ---------- what became of the tasks ----------

  /** Every task ever scheduled still has its callback, has run to its end or was cancelled. */
  ghost predicate Accounted(next: nat, live: set<nat>, finished: set<nat>, cancelled: set<nat>) {
    && finished !! live
    && (forall id | id in live :: id < next)
    && (forall id | id in finished :: id < next)
    && (forall id | 1 <= id < next :: id in live || id in finished || id in cancelled)
  }

  lemma AccountedNew(next: nat, live: set<nat>, finished: set<nat>, cancelled: set<nat>)
    requires Accounted(next, live, finished, cancelled)
    ensures Accounted(next + 1, live + {next}, finished, cancelled)
  {
  }

  lemma AccountedCancel(next: nat, live: set<nat>, finished: set<nat>, cancelled: set<nat>, id: nat)
    requires Accounted(next, live, finished, cancelled)
    ensures Accounted(next, live - {id}, finished, cancelled + live * {id})
  {
  }

  lemma AccountedFinish(next: nat, live: set<nat>, finished: set<nat>, cancelled: set<nat>, id: nat)
    requires Accounted(next, live, finished, cancelled) && id in live
    ensures Accounted(next, live - {id}, finished + {id}, cancelled)
  {
  }

  lemma FinishedNotLive(next: nat, live: set<nat>, finished: set<nat>, cancelled: set<nat>, id: nat)
    requires Accounted(next, live, finished, cancelled)
    ensures !(id in finished && id in live)
  {
  }

  lemma AccountedRevive(next: nat, live: set<nat>, finished: set<nat>, cancelled: set<nat>, id: nat)
    requires Accounted(next, live, finished, cancelled) && id in finished
    ensures Accounted(next, live + {id}, finished - {id}, cancelled)
  {
  }

  // ---------- advancing the timers ----------

  ghost predicate AllDueLive(s: seq<Task>, now: int, live: set<nat>) {
    forall x | x in s :: x.startTime <= now && x.id in live
  }

  ghost predicate AllDead(s: seq<Task>, live: set<nat>) {
    forall x | x in s :: x.id !in live
  }

  function RekeyAll(s: seq<Task>): (r: seq<Task>)
    ensures |r| == |s| && forall i :: 0 <= i < |s| ==> r[i] == Rekeyed(s[i])
  {
    seq(|s|, i requires 0 <= i < |s| => Rekeyed(s[i]))
  }

  lemma RekeyAllAppend(s: seq<Task>, x: Task)
    ensures RekeyAll(s + [x]) == RekeyAll(s) + [Rekeyed(x)]
  {
  }

  /** Timers left after moving some tasks to the ready queue and dropping others: nothing lost, nothing
      duplicated, only due live tasks moved and only cancelled ones dropped. */
  ghost predicate Advanced(ready: Bag, timers: Bag, ready': Bag, timers': Bag, moved: seq<Task>, dropped: seq<Task>, now: int, live: set<nat>)
  {
    && timers == timers' + multiset(moved) + multiset(dropped)
    && ready' == ready + multiset(RekeyAll(moved))
    && AllDueLive(moved, now, live)
    && AllDead(dropped, live)
  }

  lemma AdvancedByNothing(ready: Bag, timers: Bag, now: int, live: set<nat>)
    ensures Advanced(ready, timers, ready, timers, [], [], now, live)
  {
  }

  lemma AdvancedByMove(ready: Bag, timers: Bag, ready': Bag, timers': Bag, moved: seq<Task>, dropped: seq<Task>, now: int, live: set<nat>, x: Task)
    requires Advanced(ready, timers, ready', timers', moved, dropped, now, live)
    requires x in timers' && x.startTime <= now && x.id in live
    ensures Advanced(ready, timers, ready' + multiset{Rekeyed(x)}, timers' - multiset{x}, moved + [x], dropped, now, live)
  {
    RekeyAllAppend(moved, x);
    assert timers' == timers' - multiset{x} + multiset{x};
  }

  lemma AdvancedByDrop(ready: Bag, timers: Bag, ready': Bag, timers': Bag, moved: seq<Task>, dropped: seq<Task>, now: int, live: set<nat>, x: Task)
    requires Advanced(ready, timers, ready', timers', moved, dropped, now, live)
    requires x in timers' && x.id !in live
    ensures Advanced(ready, timers, ready', timers' - multiset{x}, moved, dropped + [x], now, live)
  {
    assert timers' == timers' - multiset{x} + multiset{x};
  }

  /** When the first timer is not due, none is. */
  lemma NoneDue(timers: seq<Task>, ready: Bag, next: nat, live: set<nat>, now: int)
    requires Queues(ready, multiset(timers), next, live) && Ordered(timers)
    requires timers != [] && timers[0].startTime > now
    ensures forall x | x in timers :: x.startTime > now
  {
    TimersKeyed(ready, timers, next, live);
    forall x | x in timers ensures x.startTime > now {
      var i :| 0 <= i < |timers| && timers[i] == x;
      RootIsLeast(timers, i);
    }
  }

  /** When the first ready task has not expired, none has. */
  lemma NoneExpired(ready: seq<Task>, timers: Bag, next: nat, live: set<nat>, now: int)
    requires Queues(multiset(ready), timers, next, live) && Ordered(ready)
    requires ready != [] && ready[0].expirationTime > now
    ensures forall x | x in ready :: x.expirationTime > now
  {
    forall x | x in ready ensures x.expirationTime > now {
      var i :| 0 <= i < |ready| && ready[i] == x;
      RootIsLeast(ready, i);
      assert x in multiset(ready) && ready[0] in multiset(ready);
    }
  }

  lemma OnlyOne(items: seq<Task>, task: Task)
    requires multiset(items) == multiset{task}
    ensures items == [task]
  {
    assert |items| == |multiset(items)| == 1;
    assert items[0] in multiset(items);
  }

  /** Without timers nothing moves. */
  lemma NothingMoves(ready: seq<Task>, ready': seq<Task>, timers': Bag, moved: seq<Task>, dropped: seq<Task>, now: int, live: set<nat>)
    requires Advanced(multiset(ready), multiset{}, multiset(ready'), timers', moved, dropped, now, live) && |ready| == 1
    ensures ready' == ready
  {
    assert |multiset(moved)| == 0;
    assert |moved| == 0;
    assert ready == [ready[0]];
    OnlyOne(ready', ready[0]);
  }

  lemma NoTimers(ready: Bag, ready': Bag, timers': seq<Task>, moved: seq<Task>, dropped: seq<Task>, now: int, live: set<nat>)
    requires Advanced(ready, multiset{}, ready', multiset(timers'), moved, dropped, now, live)
    ensures timers' == []
  {
    assert |multiset(timers') + multiset(moved) + multiset(dropped)| == 0;
    assert |multiset(timers')| == |timers'|;
  }

  lemma TimersKeyed(ready: Bag, timers: seq<Task>, next: nat, live: set<nat>)
    requires Queues(ready, multiset(timers), next, live)
    ensures forall x | x in timers :: x.sortIndex == x.startTime
  {
    forall x | x in timers ensures x.sortIndex == x.startTime {
      assert x in multiset(timers);
    }
  }

  /** So each timer fares as its state says: due and live, it is ready under its expiration; due and cancelled,
      it is gone; later and live, it still waits. */
  lemma FateOfTimer(ready: Bag, timers: Bag, ready': Bag, timers': Bag, moved: seq<Task>, dropped: seq<Task>, now: int, live: set<nat>, x: Task)
    requires Advanced(ready, timers, ready', timers', moved, dropped, now, live)
    requires x in timers && forall y | y in timers' :: y.startTime > now
    ensures x.startTime <= now && x.id in live ==> Rekeyed(x) in ready' && x !in timers'
    ensures x.startTime <= now && x.id !in live ==> x !in timers'
    ensures x.startTime > now && x.id in live ==> timers'[x] == timers[x]
  {
    if x in moved {
      var i :| 0 <= i < |moved| && moved[i] == x;
      assert RekeyAll(moved)[i] == Rekeyed(x);
      assert Rekeyed(x) in multiset(RekeyAll(moved));
    }
    assert x in multiset(moved) <==> x in moved;
    assert x in multiset(dropped) <==> x in dropped;
  }

  // ---------- waking up ----------

  ghost predicate WakesBy(pending: map<nat, int>, time: int) {
    exists h :: h in pending && pending[h] <= time
  }

  /** Every timer is covered by a pending timeout set for no later than its start. */
  ghost predicate Covered(timers: Bag, pending: map<nat, int>) {
    forall x | x in timers :: WakesBy(pending, x.startTime)
  }

  lemma CoveredNone(pending: map<nat, int>)
    ensures Covered(multiset{}, pending)
  {
  }

  /** A timeout set for the first timer covers them all. */
  lemma CoveredByLeast(timers: seq<Task>, pending: map<nat, int>, h: nat, top: Task)
    requires h in pending && pending[h] == top.startTime == top.sortIndex
    requires forall x | x in timers :: NotAfter(top, x) && x.sortIndex == x.startTime
    ensures Covered(multiset(timers), pending)
  {
  }

  /** A new timer that does not come first needs no timeout of its own. */
  lemma CoveredBefore(timers: Bag, timers': seq<Task>, pending: map<nat, int>, x: Task)
    requires Covered(timers, pending) && multiset(timers') == timers + multiset{x}
    requires timers' != [] && timers'[0] != x && forall y | y in timers' :: NotAfter(timers'[0], y)
    requires forall y | y in timers' :: y.sortIndex == y.startTime
    ensures Covered(multiset(timers'), pending)
  {
    var top := timers'[0];
    assert top in multiset(timers');
    var h :| h in pending && pending[h] <= top.startTime;
    forall y | y in multiset(timers') ensures WakesBy(pending, y.startTime) {
      assert y in timers' && NotAfter(top, y);
      assert pending[h] <= y.startTime;
    }
  }
}
