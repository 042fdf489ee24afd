/**
  Shutting the pool down: joining with a deadline, aborting, and abandoning what is stuck.

  The clock counts nanoseconds. What one execution of the worker threads does is given by the
  moment each of them fulfils its promise, if ever; every other delay (a late wake-up, the time
  between two statements) is arbitrary, and the clock adds those delays up in `slack`. With
  an ideal wait and negligible bookkeeping the slack of a call is 0.
 */
module ThreadPools {
  import Q = QueueModel
  import opened TaskQueues

  /** Milliseconds in nanoseconds. */
  function Ms(n: int): int { n * 1_000_000 }

  /** kAbortGrace, in milliseconds. */
  const ABORT_GRACE := 500

  datatype Option<T> = None | Some(value: T)

  /** duration_cast to milliseconds: truncation towards zero. */
  function TruncateToMs(ns: int): int {
    if ns >= 0 then ns / 1_000_000 else -((-ns) / 1_000_000)
  }

  /** The whole milliseconds left until `deadline`, never negative. */
  function Remaining(deadline: int, now: int): (ms: int)
    ensures 0 <= ms
  {
    var r := TruncateToMs(deadline - now);
    if r < 0 then 0 else r
  }

  /** A wait for the remaining time does not overshoot the deadline, and stops less than 1 ms short of it. */
  lemma RemainingIsTight(deadline: int, now: int)
    ensures now + Ms(Remaining(deadline, now)) <= if now < deadline then deadline else now
    ensures deadline - Ms(1) < now + Ms(Remaining(deadline, now))
  {
    if deadline < now {
      assert (now - deadline) / 1_000_000 >= 0;
    }
  }

  class Clock {
    var now: int
    ghost var slack: int

    /** Reads the clock, an arbitrary moment after whatever came before. */
    method Read() returns (t: int)
      modifies this
      ensures t == now >= old(now)
      ensures now - slack == old(now - slack)
    {
      var delay :| 0 <= delay;
      now := now + delay;
      slack := slack + delay;
      t := now;
    }

    /** Sleeps until `t`, or until an arbitrary moment after that. */
    method SleepUntil(t: int)
      modifies this
      ensures old(now) <= now && t <= now
      ensures now - slack <= old(now - slack) + (if old(now) < t then t - old(now) else 0)
      ensures t <= old(now) ==> now - slack == old(now - slack)
      ensures slack >= old(slack)
    {
      var delay :| 0 <= delay;
      now := (if now < t then t else now) + delay;
      slack := slack + delay;
    }
  }

  class WorkerThread {
    var joinable: bool            // m_thread.joinable()
    var abandoned: bool           // m_abandoned
    const finish: Option<int>     // when the thread's loop ends and its promise is fulfilled
    ghost const position: nat     // its place in the pool

    constructor (joinable: bool, finish: Option<int>, ghost position: nat)
      ensures this.joinable == joinable && this.finish == finish && !abandoned && this.position == position
    {
      this.joinable, this.finish, this.position, abandoned := joinable, finish, position, false;
    }

    /** The thread begins its loop. */
    method Start()
      requires !joinable
      modifies this`joinable
      ensures joinable
    {
      joinable := true;
    }

    predicate FinishedBy(t: int) {
      finish.Some? && finish.value <= t
    }

    /** Joined for good, or let go for good: nothing will ever wait for this worker again. */
    ghost predicate Settled(t: int)
      reads this
    {
      !joinable && (abandoned || FinishedBy(t))
    }

    /** Blocks forever exactly when there is a thread to join and it never finishes. */
    method Join(clock: Clock) returns (ends: bool)
      modifies this`joinable, clock
      ensures ends <==> !old(joinable) || finish.Some?
      ensures ends ==> !joinable && (old(joinable) ==> FinishedBy(clock.now))
      ensures clock.now >= old(clock.now)
      ensures !old(joinable) || FinishedBy(old(clock.now)) ==> clock.now - clock.slack == old(clock.now - clock.slack)
    {
      if joinable {
        if finish.None? {
          return false;
        }
        clock.SleepUntil(finish.value);
        joinable := false;
      }
      return true;
    }

    /** future::wait_for: ends when the promise is fulfilled or the time is up, and says which. */
    method WaitFor(ms: int, clock: Clock) returns (ready: bool)
      requires 0 <= ms
      modifies clock
      ensures clock.now >= old(clock.now)
      ensures ready ==> FinishedBy(clock.now)
      ensures !ready ==> !FinishedBy(old(clock.now) + Ms(ms)) && clock.now >= old(clock.now) + Ms(ms)
      ensures clock.now - clock.slack <= old(clock.now - clock.slack) + Ms(ms) && clock.slack >= old(clock.slack)
      ensures FinishedBy(old(clock.now)) ==> clock.now - clock.slack == old(clock.now - clock.slack)
    {
      var limit := clock.now + Ms(ms);
      if FinishedBy(limit) {
        clock.SleepUntil(finish.value);
        return true;
      }
      clock.SleepUntil(limit);
      var noticed: bool := *;
      return noticed && FinishedBy(clock.now);
    }

    method JoinWithTimeout(ms: int, clock: Clock) returns (joined: bool)
      requires 0 <= ms
      modifies this`joinable, clock
      ensures clock.now >= old(clock.now)
      ensures joined ==> !abandoned && !joinable && FinishedBy(clock.now)
      ensures !joined && !abandoned ==> !FinishedBy(old(clock.now) + Ms(ms))
      ensures !joined && !abandoned ==> clock.now >= old(clock.now) + Ms(ms) && joinable == old(joinable)
      ensures clock.now - clock.slack <= old(clock.now - clock.slack) + Ms(ms) && clock.slack >= old(clock.slack)
      ensures FinishedBy(old(clock.now)) ==>
                (joined <==> !abandoned) && clock.now - clock.slack == old(clock.now - clock.slack)
      ensures abandoned ==> joinable == old(joinable) && clock.now == old(clock.now)
    {
      if abandoned {
        return false;
      }
      var ready := WaitFor(ms, clock);
      if !ready {
        return false;
      }
      var _ := Join(clock);
      return true;
    }

    /**
      The thread's loop, on a queue that is shut down and left to this worker alone: it executes
      one task after the other as the pops hand them out, and ends when there is none.
     */
    static method Loop(queue: TaskQueue, clock: Clock) returns (executed: seq<Q.Entry>)
      requires queue.Valid() && queue.done && queue.clock <= clock.now
      modifies queue, queue.data, clock
      ensures queue.Valid()
      ensures if old(queue.abort) then executed == [] && queue.pending == old(queue.pending)
              else queue.pending == [] && multiset(executed) == multiset(old(queue.pending))
    {
      executed := [];
      while true
        invariant queue.Valid() && queue.done && queue.clock <= clock.now && queue.abort == old(queue.abort)
        invariant multiset(executed) + multiset(queue.pending) == multiset(old(queue.pending))
        invariant queue.abort ==> executed == [] && queue.pending == old(queue.pending)
        decreases |queue.pending|
      {
        var now := clock.Read();
        Q.PopConserves(queue.View(), now);
        var r := queue.Pop(now);
        if !r.Taken? {
          break;
        }
        executed := executed + [r.entry];
        var _ := clock.Read();  // execute() takes its time
      }
    }

    method Abandon()
      modifies this
      ensures abandoned && !joinable
    {
      if joinable {
        joinable := false;
      }
      abandoned := true;
    }
  }

  /** What a call that may wait for threads comes to. */
  datatype Outcome =
    | Blocks                  // it waits for a thread that never ends
    | Returned(count: nat)

  /** How many positions are set now that were not set before. */
  function NewlySet(before: seq<bool>, after: seq<bool>): nat
    requires |before| == |after|
  {
    if before == [] then 0
    else (if after[0] && !before[0] then 1 else 0) + NewlySet(before[1..], after[1..])
  }

  lemma {:induction false} NothingNewlySet(before: seq<bool>)
    ensures NewlySet(before, before) == 0
    decreases |before|
  {
    if before == [] {
    } else {
      NothingNewlySet(before[1..]);
    }
  }

  lemma {:induction false} OneMoreSet(before: seq<bool>, after: seq<bool>, i: nat)
    requires |before| == |after| && i < |before| && !before[i] && !after[i]
    ensures NewlySet(before, after[i := true]) == NewlySet(before, after) + 1
    decreases |before|
  {
    if i == 0 {
      assert after[i := true][1..] == after[1..];
    } else {
      assert after[i := true][1..] == after[1..][i - 1 := true];
      OneMoreSet(before[1..], after[1..], i - 1);
    }
  }

  lemma CountOne(before: seq<bool>, flags: seq<bool>, i: nat, set_: bool)
    requires |before| == |flags| && i < |flags| && !flags[i] && !before[i]
    ensures NewlySet(before, flags[i := set_]) == NewlySet(before, flags) + if set_ then 1 else 0
  {
    if set_ {
      OneMoreSet(before, flags, i);
    } else {
      assert flags[i := false] == flags;
    }
  }

  class ThreadPool {
    const queue: TaskQueue
    const workers: seq<WorkerThread>

    /**
      A queue and at least one worker, none of them started. In the execution at hand the thread of
      worker `i` will end its loop at `finish(i)`.
     */
    constructor (numThreads: nat, maxQueueSize: nat, finish: nat -> Option<int>)
      ensures Valid() && fresh(queue) && fresh(queue.data) && queue.Valid()
      ensures queue.View() == Q.QState([], 0, maxQueueSize, false, false)
      ensures |workers| == if numThreads == 0 then 1 else numThreads
      ensures forall i :: 0 <= i < |workers| ==> fresh(workers[i]) && workers[i].finish == finish(i)
      ensures NeverStarted()
    {
      var n := if numThreads == 0 then 1 else numThreads;
      var ws: seq<WorkerThread> := [];
      for i := 0 to n
        invariant |ws| == i
        invariant forall j :: 0 <= j < i ==> fresh(ws[j]) && ws[j].finish == finish(j) && ws[j].position == j
        invariant forall j :: 0 <= j < i ==> !ws[j].joinable && !ws[j].abandoned
      {
        var w := new WorkerThread(false, finish(i), i);
        ws := ws + [w];
      }
      queue := new TaskQueue(maxQueueSize);
      workers := ws;
    }

    /** Every worker is an object of its own, and has no thread left once abandoned. */
    ghost predicate Valid()
      reads workers
    {
      forall i :: 0 <= i < |workers| ==>
        workers[i].position == i && (workers[i].abandoned ==> !workers[i].joinable)
    }

    ghost predicate NeverStarted()
      reads workers
    {
      forall i :: 0 <= i < |workers| ==> !workers[i].joinable && !workers[i].abandoned
    }

    ghost predicate AllRunning()
      reads workers
    {
      forall i :: 0 <= i < |workers| ==> workers[i].joinable && !workers[i].abandoned
    }

    /** Gives every worker its thread. */
    method Start()
      requires Valid() && NeverStarted()
      modifies workers
      ensures Valid() && AllRunning()
    {
      for i := 0 to |workers|
        invariant Valid()
        invariant forall j :: 0 <= j < i ==> workers[j].joinable && !workers[j].abandoned
        invariant forall j :: i <= j < |workers| ==> !workers[j].joinable && !workers[j].abandoned
      {
        workers[i].Start();
      }
    }

    ghost predicate AllSettled(t: int)
      reads workers
    {
      forall i :: 0 <= i < |workers| ==> workers[i].Settled(t)
    }

    ghost function AbandonedFlags(): (r: seq<bool>)
      reads workers
      ensures |r| == |workers|
      ensures forall i :: 0 <= i < |workers| ==> r[i] == workers[i].abandoned
    {
      seq(|workers|, i requires 0 <= i < |workers| reads workers => workers[i].abandoned)
    }

    /** The join loop of `shutdown`, of the destructor, and of a shutdown without a timeout. */
    method JoinAll(clock: Clock) returns (ends: bool)
      requires Valid()
      modifies workers, clock
      ensures AbandonedFlags() == old(AbandonedFlags())
      ensures ends <==> forall i :: 0 <= i < |workers| && old(workers[i].joinable) ==> workers[i].finish.Some?
      ensures ends ==> forall i :: 0 <= i < |workers| ==> !workers[i].joinable
      ensures clock.now >= old(clock.now)
      ensures (forall i :: 0 <= i < |workers| ==> !old(workers[i].joinable)) ==>
                clock.now - clock.slack == old(clock.now - clock.slack)
    {
      for i := 0 to |workers|
        invariant AbandonedFlags() == old(AbandonedFlags())
        invariant forall j :: 0 <= j < i ==> !workers[j].joinable
        invariant forall j :: 0 <= j < i && old(workers[j].joinable) ==> workers[j].finish.Some?
        invariant forall j :: i <= j < |workers| ==> workers[j].joinable == old(workers[j].joinable)
        invariant clock.now >= old(clock.now)
        invariant (forall j :: 0 <= j < |workers| ==> !old(workers[j].joinable)) ==>
                    clock.now - clock.slack == old(clock.now - clock.slack)
      {
        var ok := workers[i].Join(clock);
        if !ok {
          return false;
        }
      }
      return true;
    }

    /** Not past the deadline, but for the delays since the slack was `slack`. */
    static ghost predicate OnTime(clock: Clock, deadline: int, slack: int)
      reads clock
    {
      slack <= clock.slack && clock.now <= deadline + (clock.slack - slack)
    }

    /** One wait for worker `i`, until `deadline` at most. */
    method JoinOne(i: nat, deadline: int, clock: Clock, ghost slack: int) returns (joined: bool)
      requires Valid() && i < |workers| && !workers[i].abandoned
      requires OnTime(clock, deadline, slack)
      modifies workers[i], clock
      ensures !workers[i].abandoned
      ensures joined ==> workers[i].Settled(clock.now)
      ensures !joined ==> workers[i].joinable == old(workers[i].joinable)
      ensures !joined ==> !workers[i].FinishedBy(deadline - Ms(1)) && deadline - Ms(1) < clock.now
      ensures clock.now >= old(clock.now) && OnTime(clock, deadline, slack)
      ensures workers[i].FinishedBy(old(clock.now)) ==>
                joined && clock.now - clock.slack == old(clock.now - clock.slack)
    {
      var t := clock.Read();
      RemainingIsTight(deadline, t);
      joined := workers[i].JoinWithTimeout(Remaining(deadline, t), clock);
    }

    /** A worker that is nobody's loss yet, and was not done 1 ms before the deadline. */
    ghost predicate Late(i: nat, deadline: int)
      reads workers
    {
      i < |workers| && !workers[i].abandoned && !workers[i].FinishedBy(deadline - Ms(1))
    }

    /** The first loop: join whoever finishes by the deadline, and collect the rest. */
    method JoinByDeadline(deadline: int, clock: Clock, ghost slack: int) returns (pending: seq<nat>)
      requires Valid() && OnTime(clock, deadline, slack)
      modifies workers, clock
      ensures Valid() && AbandonedFlags() == old(AbandonedFlags())
      ensures Distinct(pending)
      ensures forall m :: 0 <= m < |pending| ==> Late(pending[m], deadline)
      ensures SettledExcept(pending, clock.now)
      ensures pending != [] ==> deadline - Ms(1) < clock.now
      ensures clock.now >= old(clock.now) && OnTime(clock, deadline, slack)
      ensures old(AllSettled(clock.now)) ==> pending == [] && clock.now - clock.slack == old(clock.now - clock.slack)
    {
      pending := [];
      for i := 0 to |workers|
        invariant Valid()
        invariant AbandonedFlags() == old(AbandonedFlags())
        invariant Distinct(pending)
        invariant forall m :: 0 <= m < |pending| ==> pending[m] < i && Late(pending[m], deadline)
        invariant forall j :: 0 <= j < i && j !in pending ==> workers[j].Settled(clock.now)
        invariant forall j :: i <= j < |workers| ==> workers[j].joinable == old(workers[j].joinable)
        invariant pending != [] ==> deadline - Ms(1) < clock.now
        invariant clock.now >= old(clock.now) && OnTime(clock, deadline, slack)
        invariant old(AllSettled(clock.now)) ==>
                    pending == [] && clock.now - clock.slack == old(clock.now - clock.slack)
      {
        if workers[i].abandoned {
          continue;
        }
        var joined := JoinOne(i, deadline, clock, slack);
        if !joined {
          DistinctAppend(pending, i);
          pending := pending + [i];
        }
      }
    }

    static ghost predicate Distinct(s: seq<nat>) {
      forall i, j :: 0 <= i < j < |s| ==> s[i] != s[j]
    }

    static lemma DistinctAppend(s: seq<nat>, x: nat)
      requires Distinct(s) && x !in s
      ensures Distinct(s + [x])
    {
    }

    /** One turn of the second loop: a worker that is late again is let go. */
    method JoinOrAbandonOne(i: nat, deadline: int, clock: Clock, ghost slack: int) returns (abandoned: bool)
      requires Valid() && i < |workers| && !workers[i].abandoned
      requires OnTime(clock, deadline, slack)
      modifies workers[i], clock
      ensures Valid()
      ensures workers[i].Settled(clock.now)
      ensures AbandonedFlags() == old(AbandonedFlags())[i := abandoned]
      ensures abandoned ==> !workers[i].FinishedBy(deadline - Ms(1))
      ensures clock.now >= old(clock.now) && OnTime(clock, deadline, slack)
    {
      ghost var flags := AbandonedFlags();
      var joined := JoinOne(i, deadline, clock, slack);
      if !joined {
        workers[i].Abandon();
      }
      assert AbandonedFlags() == flags[i := !joined];
      return !joined;
    }

    /** The second loop: after the abort, join whoever still finishes in time and abandon the rest. */
    method JoinOrAbandon(deadline: int, pending: seq<nat>, clock: Clock, ghost slack: int) returns (count: nat)
      requires Valid() && OnTime(clock, deadline, slack)
      requires Distinct(pending)
      requires forall m :: 0 <= m < |pending| ==> IsOpen(pending[m])
      requires SettledExcept(pending, clock.now)
      modifies workers, clock
      ensures Valid() && AllSettled(clock.now)
      ensures forall i :: 0 <= i < |workers| && workers[i].abandoned && !old(workers[i].abandoned) ==>
                !workers[i].FinishedBy(deadline - Ms(1))
      ensures count == NewlySet(old(AbandonedFlags()), AbandonedFlags())
      ensures clock.now >= old(clock.now) && OnTime(clock, deadline, slack)
    {
      count := 0;
      ghost var before := AbandonedFlags();
      NothingNewlySet(before);
      for n := 0 to |pending|
        invariant Valid()
        invariant forall m :: n <= m < |pending| ==> IsOpen(pending[m])
        invariant SettledExcept(pending[n..], clock.now)
        invariant forall i :: 0 <= i < |workers| && workers[i].abandoned && !before[i] ==>
                    !workers[i].FinishedBy(deadline - Ms(1))
        invariant count == NewlySet(before, AbandonedFlags())
        invariant clock.now >= old(clock.now) && OnTime(clock, deadline, slack)
      {
        ghost var flags := AbandonedFlags();
        var i := pending[n];
        assert pending[n..] == [i] + pending[n + 1..];
        var abandoned := JoinOrAbandonOne(i, deadline, clock, slack);
        CountOne(before, flags, i, abandoned);
        if abandoned {
          count := count + 1;
        }
      }
    }

    ghost predicate IsOpen(i: nat)
      reads workers
    {
      i < |workers| && !workers[i].abandoned
    }

    /** Everyone not in the list is settled. */
    ghost predicate SettledExcept(pending: seq<nat>, t: int)
      reads workers
    {
      forall i :: 0 <= i < |workers| && i !in pending ==> workers[i].Settled(t)
    }

    /** `shutdown`, and what the destructor does: wait for every thread there is. */
    method Shutdown(clock: Clock) returns (r: Outcome)
      requires Valid() && queue.Valid()
      modifies queue`done, workers, clock
      ensures queue.Valid() && queue.View() == Q.Shutdown(old(queue.View()))
      ensures r.Blocks? <==> exists i :: 0 <= i < |workers| && old(workers[i].joinable) && workers[i].finish.None?
      ensures r.Returned? ==> forall i :: 0 <= i < |workers| ==> !workers[i].joinable
      ensures AbandonedFlags() == old(AbandonedFlags())
      ensures old(AllSettled(clock.now)) ==> r.Returned? && clock.now - clock.slack == old(clock.now - clock.slack)
    {
      queue.Shutdown();
      var ok := JoinAll(clock);
      r := if ok then Returned(0) else Blocks;
    }

    method ShutdownWithTimeout(timeout: int, clock: Clock) returns (r: Outcome)
      requires Valid() && queue.Valid()
      modifies queue`done, queue`abort, workers, clock
      ensures queue.Valid() && queue.done
      ensures queue.pending == old(queue.pending)
      // Without a timeout it is a plain join of everything.
      ensures timeout <= 0 ==>
                && (r.Blocks? <==>
                      exists i :: 0 <= i < |workers| && old(workers[i].joinable) && workers[i].finish.None?)
                && AbandonedFlags() == old(AbandonedFlags()) && queue.abort == old(queue.abort)
      ensures timeout <= 0 && r.Returned? ==> r.count == 0 && forall i :: 0 <= i < |workers| ==> !workers[i].joinable
      // With one it always returns, and in time: 500 ms after the timeout at the latest, in nanoseconds.
      ensures timeout > 0 ==>
                clock.now <= old(clock.now) + (timeout + 500) * 1_000_000 + (clock.slack - old(clock.slack))
      ensures timeout > 0 ==> r.Returned?
      // Without an abort it does not even use the grace period.
      ensures timeout > 0 && !queue.abort ==>
                clock.now <= old(clock.now) + timeout * 1_000_000 + (clock.slack - old(clock.slack))
      // Every worker is then joined or abandoned, and the result counts the newly abandoned.
      ensures timeout > 0 ==> Valid() && AllSettled(clock.now)
      ensures timeout > 0 ==> r.count == NewlySet(old(AbandonedFlags()), AbandonedFlags())
      // Nobody is abandoned who finished more than 2 ms before the whole time was up.
      ensures timeout > 0 ==> forall i :: 0 <= i < |workers| && workers[i].abandoned && !old(workers[i].abandoned) ==>
                !workers[i].FinishedBy(old(clock.now) + (timeout + 498) * 1_000_000)
      // The queue is aborted only because of a worker that missed the first deadline.
      ensures timeout > 0 && queue.abort && !old(queue.abort) ==>
                exists i :: 0 <= i < |workers| && !workers[i].FinishedBy(old(clock.now) + (timeout - 1) * 1_000_000)
      ensures timeout > 0 && r.count > 0 ==> queue.abort
      // Once all are joined or abandoned, another call has nothing to do.
      ensures timeout > 0 && old(AllSettled(clock.now)) ==>
                r == Returned(0) && clock.now - clock.slack == old(clock.now - clock.slack)
    {
      queue.Shutdown();
      if timeout <= 0 {
        var ok := JoinAll(clock);
        return if ok then Returned(0) else Blocks;
      }
      var count := TimedShutdown(timeout, clock);
      return Returned(count);
    }

    /** The part of `ShutdownWithTimeout` for a positive timeout. */
    method TimedShutdown(timeout: int, clock: Clock) returns (count: nat)
      requires Valid() && timeout > 0
      modifies queue`abort, workers, clock
      ensures clock.now - clock.slack <= old(clock.now - clock.slack) + Ms(timeout + ABORT_GRACE)
      ensures !queue.abort ==> clock.now - clock.slack <= old(clock.now - clock.slack) + Ms(timeout)
      ensures clock.now >= old(clock.now)
      ensures Valid() && AllSettled(clock.now)
      ensures count == NewlySet(old(AbandonedFlags()), AbandonedFlags())
      ensures forall i :: 0 <= i < |workers| && workers[i].abandoned && !old(workers[i].abandoned) ==>
                !workers[i].FinishedBy(old(clock.now) + Ms(timeout + ABORT_GRACE - 2))
      ensures queue.abort && !old(queue.abort) ==>
                exists i :: 0 <= i < |workers| && !workers[i].FinishedBy(old(clock.now) + Ms(timeout - 1))
      ensures count > 0 ==> queue.abort
      ensures old(AllSettled(clock.now)) ==> count == 0 && queue.abort == old(queue.abort)
      ensures old(AllSettled(clock.now)) ==> clock.now - clock.slack == old(clock.now - clock.slack)
    {
      ghost var before := AbandonedFlags();
      var start := clock.Read();
      var deadline := start + Ms(timeout);
      var pending := JoinByDeadline(deadline, clock, clock.slack);
      if pending == [] {
        NothingNewlySet(before);
        return 0;
      }
      ghost var late := pending[0];
      assert Late(late, deadline);
      count := AbortAndAbandon(pending, clock);
      assert !workers[late].FinishedBy(deadline - Ms(1));
    }

    /** Abort the queue, and give the rest their grace period. */
    method AbortAndAbandon(pending: seq<nat>, clock: Clock) returns (count: nat)
      requires Valid() && Distinct(pending) && SettledExcept(pending, clock.now)
      requires forall m :: 0 <= m < |pending| ==> IsOpen(pending[m])
      modifies queue`abort, workers, clock
      ensures queue.abort
      ensures Valid() && AllSettled(clock.now)
      ensures forall i :: 0 <= i < |workers| && workers[i].abandoned && !old(workers[i].abandoned) ==>
                !workers[i].FinishedBy(old(clock.now) + Ms(ABORT_GRACE - 1))
      ensures count == NewlySet(old(AbandonedFlags()), AbandonedFlags())
      ensures clock.now - clock.slack <= old(clock.now - clock.slack) + Ms(ABORT_GRACE)
      ensures clock.now >= old(clock.now)
    {
      queue.Abort();
      var aborted := clock.Read();
      count := JoinOrAbandon(aborted + Ms(ABORT_GRACE), pending, clock, clock.slack);
    }
  }
}
