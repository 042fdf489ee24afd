/**
  What the number returned by a timed shutdown says about the tasks. The interleavings of
  `PoolProtocol` get a time for every step, and the moment at which a worker leaves its loop is the
  moment at which the pool object's worker fulfils its promise.
 */
module ShutdownResults {
  import Q = QueueModel
  import P = PoolProtocol
  import PT = PoolTheorems
  import opened ThreadPools

  datatype Timed = Timed(at: int, step: P.Step)

  /** The time a step reads under the lock is the time at which it is taken. */
  predicate Stamped(x: Timed) {
    && (x.step.Submit? ==> x.step.now == x.at)
    && (x.step.Look? ==> x.step.now == x.at)
  }

  ghost predicate IsExecution(s: P.Pool, start: int, exec: seq<Timed>)
    decreases |exec|
  {
    exec == [] || (
      && start <= exec[0].at && Stamped(exec[0]) && P.Enabled(s, exec[0].step)
      && IsExecution(P.Apply(s, exec[0].step), exec[0].at, exec[1..])
    )
  }

  /** The pool as it is at time `t`. */
  function StateAt(s: P.Pool, start: int, exec: seq<Timed>, t: int): P.Pool
    requires IsExecution(s, start, exec)
    decreases |exec|
  {
    if exec == [] || exec[0].at > t then s
    else StateAt(P.Apply(s, exec[0].step), exec[0].at, exec[1..], t)
  }

  /** The steps taken by time `t`. */
  function TakenBy(exec: seq<Timed>, t: int): seq<P.Step> {
    if exec == [] || exec[0].at > t then [] else [exec[0].step] + TakenBy(exec[1..], t)
  }

  lemma {:induction false} StateAtIsEnd(s: P.Pool, start: int, exec: seq<Timed>, t: int)
    requires IsExecution(s, start, exec)
    ensures P.IsRun(s, TakenBy(exec, t)) && P.End(s, TakenBy(exec, t)) == StateAt(s, start, exec, t)
    decreases |exec|
  {
    if exec == [] || exec[0].at > t {
    } else {
      StateAtIsEnd(P.Apply(s, exec[0].step), exec[0].at, exec[1..], t);
      assert TakenBy(exec, t)[1..] == TakenBy(exec[1..], t);
    }
  }

  predicate HasLeft(s: P.Pool, w: nat) {
    w < |s.workers| && s.workers[w].Exited?
  }

  /** When worker `w` leaves its loop, if ever. */
  function ExitTime(s: P.Pool, start: int, exec: seq<Timed>, w: nat): Option<int>
    requires IsExecution(s, start, exec)
    decreases |exec|
  {
    if exec == [] then None
    else
      var s' := P.Apply(s, exec[0].step);
      if HasLeft(s', w) then Some(exec[0].at) else ExitTime(s', exec[0].at, exec[1..], w)
  }

  lemma {:induction false} ExitIsNotBefore(s: P.Pool, start: int, exec: seq<Timed>, w: nat)
    requires IsExecution(s, start, exec)
    ensures ExitTime(s, start, exec, w).Some? ==> start <= ExitTime(s, start, exec, w).value
    decreases |exec|
  {
    if exec == [] {
    } else {
      ExitIsNotBefore(P.Apply(s, exec[0].step), exec[0].at, exec[1..], w);
    }
  }

  lemma {:induction false} LeavesForGood(s: P.Pool, start: int, exec: seq<Timed>, w: nat, t: int)
    requires IsExecution(s, start, exec) && HasLeft(s, w)
    ensures HasLeft(StateAt(s, start, exec, t), w)
    decreases |exec|
  {
    if exec == [] || exec[0].at > t {
    } else {
      LeavesForGood(P.Apply(s, exec[0].step), exec[0].at, exec[1..], w, t);
    }
  }

  /** A worker has left by time `t` if and only if its exit time says so. */
  lemma {:induction false} HasLeftIff(s: P.Pool, start: int, exec: seq<Timed>, w: nat, t: int)
    requires IsExecution(s, start, exec) && !HasLeft(s, w)
    ensures HasLeft(StateAt(s, start, exec, t), w)
       <==> ExitTime(s, start, exec, w).Some? && ExitTime(s, start, exec, w).value <= t
    decreases |exec|
  {
    if exec == [] {
    } else if exec[0].at > t {
      ExitIsNotBefore(P.Apply(s, exec[0].step), exec[0].at, exec[1..], w);
    } else {
      var s' := P.Apply(s, exec[0].step);
      if HasLeft(s', w) {
        LeavesForGood(s', exec[0].at, exec[1..], w, t);
      } else {
        HasLeftIff(s', exec[0].at, exec[1..], w, t);
      }
    }
  }

  /** The pool at the moment of the first abort, or at the end if there is none. */
  function AtAbort(s: P.Pool, start: int, exec: seq<Timed>): P.Pool
    requires IsExecution(s, start, exec)
    decreases |exec|
  {
    if exec == [] || exec[0].step.AbortAll? then s
    else AtAbort(P.Apply(s, exec[0].step), exec[0].at, exec[1..])
  }

  lemma AbortKeepsPending(s: P.Pool)
    ensures P.Apply(s, P.AbortAll).q == s.q.(abort := true)
  {
  }

  lemma OnlyAbortAborts(s: P.Pool, st: P.Step)
    requires P.Enabled(s, st) && !st.AbortAll?
    ensures P.Apply(s, st).q.abort == s.q.abort
  {
  }

  /** An aborted shutdown has executed everything if and only if the queue was empty at the abort. */
  lemma {:induction false} AbortedRanEverythingIff(s: P.Pool, start: int, exec: seq<Timed>, t: int)
    requires IsExecution(s, start, exec) && P.Inv(s) && !s.q.abort
    requires AtAbort(s, start, exec).q.done
    requires StateAt(s, start, exec, t).q.abort && PT.AllExited(StateAt(s, start, exec, t).workers)
    ensures multiset(StateAt(s, start, exec, t).executed) == multiset(StateAt(s, start, exec, t).accepted)
       <==> AtAbort(s, start, exec).q.pending == []
    decreases |exec|
  {
    if exec == [] || exec[0].at > t {
      assert false;
    } else {
      var s' := P.Apply(s, exec[0].step);
      P.StepInv(s, exec[0].step);
      if exec[0].step.AbortAll? {
        AbortKeepsPending(s);
        StateAtIsEnd(s', exec[0].at, exec[1..], t);
        PT.AbortedEndRanEverythingIff(s', TakenBy(exec[1..], t));
      } else {
        OnlyAbortAborts(s, exec[0].step);
        AbortedRanEverythingIff(s', exec[0].at, exec[1..], t);
      }
    }
  }

  /** An execution of a whole pool, from its construction on. */
  ghost predicate Runs(n: nat, capacity: nat, exec: seq<Timed>) {
    IsExecution(P.Init(n, capacity), 0, exec)
  }

  function Final(n: nat, capacity: nat, exec: seq<Timed>, t: int): P.Pool
    requires Runs(n, capacity, exec)
  {
    StateAt(P.Init(n, capacity), 0, exec, t)
  }

  /** When each worker leaves. */
  function Finish(n: nat, capacity: nat, exec: seq<Timed>, w: nat): Option<int>
    requires Runs(n, capacity, exec)
  {
    ExitTime(P.Init(n, capacity), 0, exec, w)
  }

  /** What was queued at the abort. */
  function Stranded(n: nat, capacity: nat, exec: seq<Timed>): seq<P.Entry>
    requires Runs(n, capacity, exec)
  {
    AtAbort(P.Init(n, capacity), 0, exec).q.pending
  }

  /** As in a timed shutdown, the queue is shut down before it is aborted. */
  ghost predicate ShutDownFirst(n: nat, capacity: nat, exec: seq<Timed>)
    requires Runs(n, capacity, exec)
  {
    AtAbort(P.Init(n, capacity), 0, exec).q.done
  }

  /** What has become of the tasks once all workers have left. */
  ghost predicate Outcomes(n: nat, capacity: nat, exec: seq<Timed>, t: int)
    requires Runs(n, capacity, exec)
  {
    var s := Final(n, capacity, exec, t);
    && PT.AllExited(s.workers)
    && (!s.q.abort ==> s.q.done && s.q.pending == [] && multiset(s.executed) == multiset(s.accepted))
    && (s.q.abort && ShutDownFirst(n, capacity, exec) ==>
          (multiset(s.executed) == multiset(s.accepted) <==> Stranded(n, capacity, exec) == []))
  }

  lemma {:induction false} WorkersStay(s: P.Pool, start: int, exec: seq<Timed>, t: int)
    requires IsExecution(s, start, exec)
    ensures |StateAt(s, start, exec, t).workers| == |s.workers|
    decreases |exec|
  {
    if exec == [] || exec[0].at > t {
    } else {
      WorkersStay(P.Apply(s, exec[0].step), exec[0].at, exec[1..], t);
    }
  }

  lemma AllLeft(n: nat, capacity: nat, exec: seq<Timed>, t: int)
    requires Runs(n, capacity, exec)
    requires forall w: nat :: w < |P.Init(n, capacity).workers| ==>
               Finish(n, capacity, exec, w).Some? && Finish(n, capacity, exec, w).value <= t
    ensures Outcomes(n, capacity, exec, t)
  {
    var init, s := P.Init(n, capacity), Final(n, capacity, exec, t);
    WorkersStay(init, 0, exec, t);
    forall w | 0 <= w < |s.workers| ensures s.workers[w].Exited? {
      assert Finish(n, capacity, exec, w).Some?;
      HasLeftIff(init, 0, exec, w, t);
    }
    StateAtIsEnd(init, 0, exec, t);
    if !s.q.abort {
      PT.GracefulEndRanEverything(n, capacity, TakenBy(exec, t), s);
    } else if ShutDownFirst(n, capacity, exec) {
      P.InitInv(n, capacity);
      AbortedRanEverythingIff(init, 0, exec, t);
    }
  }

  /** None newly set means none newly set anywhere. */
  lemma {:induction false} NewlySetIsZeroIff(before: seq<bool>, after: seq<bool>)
    requires |before| == |after|
    ensures NewlySet(before, after) == 0 <==> forall i :: 0 <= i < |before| && after[i] ==> before[i]
    decreases |before|
  {
    if before == [] {
    } else {
      NewlySetIsZeroIff(before[1..], after[1..]);
      assert forall i :: 0 < i < |before| ==> before[i] == before[1..][i - 1] && after[i] == after[1..][i - 1];
      assert forall i :: 0 <= i < |before| - 1 ==> before[1..][i] == before[i + 1] && after[1..][i] == after[i + 1];
    }
  }

  /**
    The meaning of a result of 0. For every execution in which the workers leave when their
    promises say so, a timed shutdown of the running pool that returns 0 has outlived all of them;
    so everything accepted has been executed if the execution has no abort, and if it has one, if
    and only if the queue was empty at that moment.
   */
  method ShutDown(pool: ThreadPool, timeout: int, clock: Clock,
                  ghost n: nat, ghost capacity: nat, ghost exec: seq<Timed>)
    returns (r: Outcome)
    requires pool.Valid() && pool.queue.Valid() && pool.AllRunning() && timeout > 0
    requires Runs(n, capacity, exec) && |pool.workers| == |P.Init(n, capacity).workers|
    requires forall w: nat :: w < |pool.workers| ==> pool.workers[w].finish == Finish(n, capacity, exec, w)
    modifies pool.queue`done, pool.queue`abort, pool.workers, clock
    ensures r.Returned?
    ensures r == Returned(0) ==> Outcomes(n, capacity, exec, clock.now)
  {
    ghost var before := pool.AbandonedFlags();
    r := pool.ShutdownWithTimeout(timeout, clock);
    if r == Returned(0) {
      NewlySetIsZeroIff(before, pool.AbandonedFlags());
      forall w: nat | w < |pool.workers|
        ensures Finish(n, capacity, exec, w).Some? && Finish(n, capacity, exec, w).value <= clock.now
      {
        assert pool.workers[w].Settled(clock.now);
        assert !pool.AbandonedFlags()[w];
      }
      AllLeft(n, capacity, exec, clock.now);
    }
  }

  // ----- A result of 0 with a task left behind -----

  /** One step in front of an execution, as seen at a later time `t` by worker `w`. */
  lemma StepInFront(s: P.Pool, start: int, x: Timed, later: seq<Timed>, t: int, w: nat)
    requires start <= x.at <= t && Stamped(x) && P.Enabled(s, x.step)
    requires IsExecution(P.Apply(s, x.step), x.at, later)
    ensures var s' := P.Apply(s, x.step);
            && IsExecution(s, start, [x] + later)
            && StateAt(s, start, [x] + later, t) == StateAt(s', x.at, later, t)
            && (!HasLeft(s', w) ==> ExitTime(s, start, [x] + later, w) == ExitTime(s', x.at, later, w))
            && (HasLeft(s', w) ==> ExitTime(s, start, [x] + later, w) == Some(x.at))
            && AtAbort(s, start, [x] + later) == if x.step.AbortAll? then s else AtAbort(s', x.at, later)
  {
    assert ([x] + later)[1..] == later;
  }

  function First(t: int): P.Entry { Q.Entry(0, 0, 0, t) }

  function Second(t: int): P.Entry { Q.Entry(0, 1, 1, t) }

  /** One worker executing the first of two tasks, the second queued, and the pool shut down. */
  function Busy(t: int): P.Pool {
    P.Pool(Q.QState([Second(t)], 2, 2, true, false), t, [P.Running(First(t))], 2, 1, false, [First(t), Second(t)], [])
  }

  /** From there: the abort, and a little later the end of the first task. */
  function Ending(abort: int, end: int): seq<Timed> {
    [Timed(abort, P.AbortAll)] + ([Timed(end, P.Finish(0))] + ([Timed(end, P.Look(0, end))] + []))
  }

  lemma EndingLeavesATask(t: int, abort: int, end: int, now: int)
    requires 0 <= t <= abort <= end <= now
    ensures IsExecution(Busy(t), t, Ending(abort, end))
    ensures ExitTime(Busy(t), t, Ending(abort, end), 0) == Some(end)
    ensures AtAbort(Busy(t), t, Ending(abort, end)) == Busy(t)
    ensures var s := StateAt(Busy(t), t, Ending(abort, end), now);
            s.q.abort && s.q.pending == [Second(t)] && s.executed == [First(t)] && s.accepted == [First(t), Second(t)]
  {
    var s1 := P.Apply(Busy(t), P.AbortAll);
    var s2 := P.Apply(s1, P.Finish(0));
    var s3 := P.Apply(s2, P.Look(0, end));
    StepInFront(s2, end, Timed(end, P.Look(0, end)), [], now, 0);
    StepInFront(s1, abort, Timed(end, P.Finish(0)), [Timed(end, P.Look(0, end))] + [], now, 0);
    StepInFront(Busy(t), t, Timed(abort, P.AbortAll),
                [Timed(end, P.Finish(0))] + ([Timed(end, P.Look(0, end))] + []), now, 0);
  }

  /** Before that: the worker starts, takes the first task, and the second is submitted. */
  function Execution(t: int, abort: int, end: int): seq<Timed> {
    [Timed(t, P.Start(0))] + ([Timed(t, P.Submit(0, 0, t))] + TakeAndSubmit(t, abort, end))
  }

  function TakeAndSubmit(t: int, abort: int, end: int): seq<Timed> {
    [Timed(t, P.Look(0, t))] + ([Timed(t, P.Submit(1, 0, t))] + ([Timed(t, P.ShutDown)] + Ending(abort, end)))
  }

  /** The pool with its worker awake and the first task queued. */
  function Submitted(t: int): P.Pool {
    P.Pool(Q.QState([First(t)], 1, 2, false, false), t, [P.Awake], 1, 0, false, [First(t)], [])
  }

  lemma TakeAndSubmitLeaveATask(t: int, abort: int, end: int, now: int)
    requires 0 <= t <= abort <= end <= now
    ensures IsExecution(Busy(t), t, Ending(abort, end))
    ensures IsExecution(Submitted(t), t, TakeAndSubmit(t, abort, end))
    ensures ExitTime(Submitted(t), t, TakeAndSubmit(t, abort, end), 0) == Some(end)
    ensures AtAbort(Submitted(t), t, TakeAndSubmit(t, abort, end)) == Busy(t)
    ensures StateAt(Submitted(t), t, TakeAndSubmit(t, abort, end), now)
         == StateAt(Busy(t), t, Ending(abort, end), now)
  {
    var s1 := P.Apply(Submitted(t), P.Look(0, t));
    assert s1.q.pending == [] && s1.workers == [P.Running(First(t))];
    var s2 := P.Apply(s1, P.Submit(1, 0, t));
    assert s2.q.pending == [Second(t)] && s2.accepted == [First(t), Second(t)];
    assert P.Apply(s2, P.ShutDown) == Busy(t);
    EndingLeavesATask(t, abort, end, now);
    StepInFront(s2, t, Timed(t, P.ShutDown), Ending(abort, end), now, 0);
    StepInFront(s1, t, Timed(t, P.Submit(1, 0, t)), [Timed(t, P.ShutDown)] + Ending(abort, end), now, 0);
    StepInFront(Submitted(t), t, Timed(t, P.Look(0, t)),
                [Timed(t, P.Submit(1, 0, t))] + ([Timed(t, P.ShutDown)] + Ending(abort, end)), now, 0);
  }

  /** An execution of a pool with one worker in which an aborted shutdown leaves a task queued. */
  lemma AbortLeavesATask(t: int, abort: int, end: int, now: int)
    requires 0 <= t <= abort <= end <= now
    ensures var exec := Execution(t, abort, end);
            && Runs(1, 2, exec) && Finish(1, 2, exec, 0) == Some(end)
            && ShutDownFirst(1, 2, exec) && Stranded(1, 2, exec) == [Second(t)]
            && var s := Final(1, 2, exec, now);
            && s.q.abort && s.q.pending == [Second(t)]
            && s.executed == [First(t)] && s.accepted == [First(t), Second(t)]
  {
    var init := P.Init(1, 2);
    var s1 := P.Apply(init, P.Start(0));
    assert s1.workers == [P.Awake];
    assert P.Apply(s1, P.Submit(0, 0, t)) == Submitted(t);
    EndingLeavesATask(t, abort, end, now);
    TakeAndSubmitLeaveATask(t, abort, end, now);
    StepInFront(s1, t, Timed(t, P.Submit(0, 0, t)), TakeAndSubmit(t, abort, end), now, 0);
    StepInFront(init, 0, Timed(t, P.Start(0)), [Timed(t, P.Submit(0, 0, t))] + TakeAndSubmit(t, abort, end), now, 0);
  }

  lemma MoreAccepted<X>(executed: seq<X>, accepted: seq<X>)
    requires |executed| < |accepted|
    ensures multiset(executed) != multiset(accepted)
  {
    assert |multiset(executed)| < |multiset(accepted)|;
  }

  /** A worker that leaves just after the first deadline makes the call abort, and is joined all the same. */
  method JustLate(pool: ThreadPool, timeout: int, end: int, clock: Clock) returns (r: Outcome)
    requires pool.Valid() && pool.queue.Valid() && pool.AllRunning() && timeout > 0 && !pool.queue.abort
    requires pool.workers != [] && forall i :: 0 <= i < |pool.workers| ==> pool.workers[i].finish == Some(end)
    requires clock.now + Ms(timeout) < end <= clock.now + Ms(timeout + ABORT_GRACE - 2)
    modifies pool.queue`done, pool.queue`abort, pool.workers, clock
    ensures clock.slack == old(clock.slack) ==> r == Returned(0) && pool.queue.abort && end <= clock.now
  {
    ghost var before := pool.AbandonedFlags();
    r := pool.ShutdownWithTimeout(timeout, clock);
    NewlySetIsZeroIff(before, pool.AbandonedFlags());
    assert pool.workers[0].Settled(clock.now);
  }

  /**
    And the call itself: for every positive timeout there is a pool of one worker, in an execution
    that leaves a task queued, on which a timed shutdown without other delays aborts, abandons
    nobody and returns 0. The worker leaves a moment after the deadline.
   */
  method ZeroWithATaskLeft(timeout: int, clock: Clock) returns (r: Outcome, ghost exec: seq<Timed>)
    requires timeout > 0 && 0 <= clock.now
    modifies clock
    ensures Runs(1, 2, exec) && Finish(1, 2, exec, 0) == Some(old(clock.now) + Ms(timeout) + 1)
    ensures Stranded(1, 2, exec) != []
    ensures clock.slack == old(clock.slack) ==>
              && r == Returned(0)
              && Final(1, 2, exec, clock.now).q.abort
              && multiset(Final(1, 2, exec, clock.now).executed) != multiset(Final(1, 2, exec, clock.now).accepted)
  {
    ghost var start := clock.now;
    var end := clock.now + Ms(timeout) + 1;
    exec := Execution(start, end - 1, end);
    AbortLeavesATask(start, end - 1, end, end);
    var pool := new ThreadPool(1, 2, _ => Some(end));
    pool.Start();
    r := JustLate(pool, timeout, end, clock);
    if clock.slack == old(clock.slack) {
      AbortLeavesATask(start, end - 1, end, clock.now);
      MoreAccepted([First(start)], [First(start), Second(start)]);
    }
  }
}
