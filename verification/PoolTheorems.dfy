/** What the pool promises over every interleaving, and that a shutdown always ends. */
module PoolTheorems {
  import Q = QueueModel
  import R = QueueRuns
  import opened Sums
  import opened PoolProtocol

  ghost predicate Reachable(n: nat, capacity: nat, run: seq<Step>, s: Pool) {
    IsRun(Init(n, capacity), run) && s == End(Init(n, capacity), run)
  }

  lemma ReachableInv(n: nat, capacity: nat, run: seq<Step>, s: Pool)
    requires Reachable(n, capacity, run, s)
    ensures Inv(s)
  {
    InitInv(n, capacity);
    RunInv(Init(n, capacity), run);
  }

  /**
    No lost wake-up. In every reachable state without abort: while any worker sleeps, the
    queued tasks are covered by awake workers and notifications on their way. In particular
    a task with nobody awake and nothing on its way means nobody is asleep either.
   */
  lemma NoWakeUpIsLost(n: nat, capacity: nat, run: seq<Step>, s: Pool, w: nat)
    requires Reachable(n, capacity, run, s) && !s.q.abort
    requires w < |s.workers| && s.workers[w].Sleeping?
    ensures |s.q.pending| <= AwakeCount(s.workers) + s.notifies
    ensures s.q.pending != [] && s.notifies == 0 ==> exists v :: 0 <= v < |s.workers| && s.workers[v].Awake?
  {
    ReachableInv(n, capacity, run, s);
    if s.q.pending != [] && s.notifies == 0 {
      SumIsZero(s.workers, AwakeWeight);
    }
  }

  /** After a shutdown or abort has delivered its broadcast, nobody sleeps, now or later. */
  lemma NobodySleepsAfterBroadcast(n: nat, capacity: nat, run: seq<Step>, s: Pool, w: nat)
    requires Reachable(n, capacity, run, s)
    requires s.delivered || ((s.q.done || s.q.abort) && s.broadcasts == 0)
    requires w < |s.workers|
    ensures !s.workers[w].Sleeping?
  {
    ReachableInv(n, capacity, run, s);
  }

  lemma {:induction false} NumberedHasNoDuplicates(all: seq<Entry>, order: nat, e: Entry)
    requires Numbered(all, order)
    ensures multiset(all)[e] <= 1
    decreases |all|
  {
    if all == [] {
    } else {
      var init, last := all[..|all| - 1], all[|all| - 1];
      assert all == init + [last];
      NumberedHasNoDuplicates(init, |init|, e);
      if e == last {
        assert e !in init;
        assert e !in multiset(init);
      }
      assert multiset(all)[e] == multiset(init)[e] + multiset{last}[e];
    }
  }

  /**
    Conservation in every reachable state: each accepted submission is in exactly one of the
    three places, queued, running or executed, and nothing else is anywhere.
   */
  lemma EachTaskIsInOnePlace(n: nat, capacity: nat, run: seq<Step>, s: Pool, e: Entry)
    requires Reachable(n, capacity, run, s)
    ensures multiset(s.q.pending)[e] + InHand(s.workers)[e] + multiset(s.executed)[e]
         == (if e in s.accepted then 1 else 0)
  {
    ReachableInv(n, capacity, run, s);
    NumberedHasNoDuplicates(s.accepted, s.q.order, e);
    assert (multiset(s.q.pending) + InHand(s.workers) + multiset(s.executed))[e] == multiset(s.accepted)[e];
    assert e in s.accepted <==> e in multiset(s.accepted);
  }

  ghost predicate AllExited(ws: seq<Worker>) {
    forall i :: 0 <= i < |ws| ==> ws[i].Exited?
  }

  /**
    Graceful end: without abort, a worker that has left implies shutdown and an empty queue;
    once every worker has left, what was executed is exactly what was accepted.
   */
  lemma GracefulEndRanEverything(n: nat, capacity: nat, run: seq<Step>, s: Pool)
    requires Reachable(n, capacity, run, s)
    requires !s.q.abort && AllExited(s.workers)
    ensures s.q.done && s.q.pending == []
    ensures multiset(s.executed) == multiset(s.accepted)
  {
    ReachableInv(n, capacity, run, s);
    assert s.workers[0].Exited?;
    NothingInHand(s.workers);
    assert multiset{} + multiset{} + multiset(s.executed) == multiset(s.executed);
  }

  /** After abort no task ever leaves the queue again; only what is running can still finish. */
  lemma {:induction false} AbortKeepsTasksQueued(s: Pool, run: seq<Step>)
    requires s.q.abort && IsRun(s, run)
    ensures End(s, run).q.abort && s.q.pending <= End(s, run).q.pending
    ensures multiset(End(s, run).executed) + InHand(End(s, run).workers) == multiset(s.executed) + InHand(s.workers)
    decreases |run|
  {
    if run == [] {
    } else {
      AbortStep(s, run[0]);
      AbortKeepsTasksQueued(Apply(s, run[0]), run[1..]);
    }
  }

  lemma AbortStep(s: Pool, st: Step)
    requires s.q.abort && Enabled(s, st)
    ensures Apply(s, st).q.abort && s.q.pending <= Apply(s, st).q.pending
    ensures multiset(Apply(s, st).executed) + InHand(Apply(s, st).workers) == multiset(s.executed) + InHand(s.workers)
  {
    if st.Finish? {
      FinishMove(s.workers, st.w, s.executed);
    } else if st.NotifyAll? {
      InHandPointwise(s.workers, WakeAll(s.workers));
    } else if st.Look? {
      IdleMove(s.workers, st.w, Exited);
    } else if (st.NotifyOne? || st.Spurious? || st.Start?) && !s.workers[st.w].Running? {
      IdleMove(s.workers, st.w, Awake);
    }
  }

  lemma FinishMove(ws: seq<Worker>, i: nat, done: seq<Entry>)
    requires i < |ws| && ws[i].Running?
    ensures multiset(done + [ws[i].entry]) + InHand(ws[i := Awake]) == multiset(done) + InHand(ws)
  {
    InHandUpdate(ws, i, Awake);
    assert InHand(ws[i := Awake]) + Held(ws[i]) == InHand(ws) + Held(Awake);
    assert InHand(ws) + Held(Awake) == InHand(ws);
    Move(InHand(ws), multiset(done), multiset{}, InHand(ws[i := Awake]),
         multiset(done + [ws[i].entry]), multiset{ws[i].entry});
  }

  lemma IdleMove(ws: seq<Worker>, i: nat, w: Worker)
    requires i < |ws| && !ws[i].Running? && !w.Running?
    ensures InHand(ws[i := w]) == InHand(ws)
  {
    InHandUpdate(ws, i, w);
    assert InHand(ws[i := w]) == InHand(ws[i := w]) + Held(ws[i]);
    assert InHand(ws) == InHand(ws) + Held(w);
  }

  /** Shut down and aborted, the queue never changes again: nothing is accepted, nothing handed out. */
  lemma {:induction false} AbortedQueueIsFrozen(s: Pool, run: seq<Step>)
    requires s.q.done && s.q.abort && IsRun(s, run)
    ensures End(s, run).q == s.q
    decreases |run|
  {
    if run == [] {
    } else {
      AbortedQueueIsFrozen(Apply(s, run[0]), run[1..]);
    }
  }

  /**
    The end of an aborted shutdown, exactly: when all workers have left, everything accepted has
    been executed if and only if the queue was empty at the time of the abort.
   */
  lemma AbortedEndRanEverythingIff(s: Pool, run: seq<Step>)
    requires Inv(s) && s.q.done && s.q.abort && IsRun(s, run)
    requires AllExited(End(s, run).workers)
    ensures multiset(End(s, run).executed) == multiset(End(s, run).accepted) <==> s.q.pending == []
  {
    var s' := End(s, run);
    RunInv(s, run);
    AbortedQueueIsFrozen(s, run);
    NothingInHand(s'.workers);
    assert multiset(s'.q.pending) + multiset{} + multiset(s'.executed) == multiset(s'.accepted);
    if s.q.pending != [] {
      var e := s.q.pending[0];
      assert e in multiset(s.q.pending);
      assert multiset(s'.accepted)[e] == multiset(s.q.pending)[e] + multiset(s'.executed)[e];
    }
  }

  // ----- Shutdown terminates -----

  /** How many steps a worker still has to take on its own account. */
  function Load(w: Worker): nat {
    match w
    case Awake => 1
    case Exited => 0
    case _ => 2
  }

  function Measure(s: Pool): nat {
    2 * |s.q.pending| + Sum(s.workers, Load)
  }

  /** Some worker wakes, starts, takes a task, finishes one or leaves. */
  ghost predicate Moves(s: Pool, st: Step)
    requires Enabled(s, st)
  {
    Apply(s, st).workers != s.workers
  }

  /** After shutdown every such move uses up some of the measure, and nothing adds to it. */
  lemma MoveDecreases(s: Pool, st: Step)
    requires s.q.done && Enabled(s, st)
    ensures Apply(s, st).q.done
    ensures Measure(Apply(s, st)) + (if Moves(s, st) then 1 else 0) <= Measure(s)
  {
    var ws, ws' := s.workers, Apply(s, st).workers;
    if st.NotifyAll? {
      WakeAllLoad(ws);
    } else if (st.NotifyOne? && ws[st.w].Sleeping?) || st.Spurious? || st.Start? || st.Finish? || st.Look? {
      SumUpdate(ws, st.w, ws'[st.w], Load);
      assert ws' == ws[st.w := ws'[st.w]];
    }
  }

  lemma {:induction false} WakeAllLoad(ws: seq<Worker>)
    ensures Sum(WakeAll(ws), Load) + (if WakeAll(ws) != ws then 1 else 0) <= Sum(ws, Load)
    decreases |ws|
  {
    if ws == [] {
    } else {
      WakeAllLoad(ws[1..]);
      assert WakeAll(ws)[1..] == WakeAll(ws[1..]);
      assert ws == [ws[0]] + ws[1..] && WakeAll(ws) == [WakeAll(ws)[0]] + WakeAll(ws[1..]);
    }
  }

  function CountMoves(s: Pool, run: seq<Step>): nat
    requires IsRun(s, run)
    decreases |run|
  {
    if run == [] then 0
    else (if Apply(s, run[0]).workers != s.workers then 1 else 0) + CountMoves(Apply(s, run[0]), run[1..])
  }

  /** So after shutdown no run, however long, contains more worker moves than the measure. */
  lemma {:induction false} MovesAreBounded(s: Pool, run: seq<Step>)
    requires s.q.done && IsRun(s, run)
    ensures CountMoves(s, run) + Measure(End(s, run)) <= Measure(s)
    decreases |run|
  {
    if run == [] {
    } else {
      MoveDecreases(s, run[0]);
      MovesAreBounded(Apply(s, run[0]), run[1..]);
    }
  }

  /** The step a worker that is neither asleep nor gone can always take. */
  function OwnStep(s: Pool, w: nat): Step
    requires w < |s.workers|
  {
    match s.workers[w]
    case NotStarted => Start(w)
    case Running(_) => Finish(w)
    case Sleeping => Spurious(w)
    case _ => Look(w, s.clock)
  }

  /** Nothing blocks: after the broadcast every worker that has not left has a step to take, and it moves. */
  lemma NobodyIsStuck(s: Pool, w: nat)
    requires Inv(s) && s.q.done && s.delivered
    requires w < |s.workers| && !s.workers[w].Exited?
    ensures !s.workers[w].Sleeping?
    ensures Enabled(s, OwnStep(s, w)) && Moves(s, OwnStep(s, w))
  {
    var s' := Apply(s, OwnStep(s, w));
    assert s'.workers[w] != s.workers[w];
  }

  // ----- ... and does so in every fair infinite behaviour -----

  ghost predicate Takes(beh: nat -> Pool, sched: nat -> Step, n: nat) {
    Enabled(beh(n), sched(n)) && beh(n + 1) == Apply(beh(n), sched(n))
  }

  /** The states `beh` passes through when the steps of `sched` are taken one after the other, for ever. */
  ghost predicate Behaviour(beh: nat -> Pool, sched: nat -> Step) {
    forall n: nat :: Takes(beh, sched, n)
  }

  ghost predicate ChangesLater(beh: nat -> Pool, n: nat, m: nat) {
    n <= m && beh(m + 1).workers != beh(m).workers
  }

  ghost predicate BroadcastLater(beh: nat -> Pool, sched: nat -> Step, n: nat, m: nat) {
    n <= m && sched(m).NotifyAll?
  }

  /** A step the thread of worker `w` takes itself: its start, a look at the queue, the return of its `execute`. */
  predicate IsOwnStep(st: Step, w: nat) {
    match st
    case Start(v) => v == w
    case Look(v, _) => v == w
    case Finish(v) => v == w
    case _ => false
  }

  ghost predicate OwnStepLater(sched: nat -> Step, w: nat, n: nat, m: nat) {
    n <= m && IsOwnStep(sched(m), w)
  }

  /**
    Fair scheduling: a worker that is neither asleep nor gone takes its next step sooner or later
    (its thread runs, its `execute` returns), and an owed broadcast is delivered sooner or later.
   */
  ghost predicate Fair(beh: nat -> Pool, sched: nat -> Step) {
    && (forall n: nat, w: nat {:trigger beh(n).workers[w]} ::
          w < |beh(n).workers| && !beh(n).workers[w].Sleeping? && !beh(n).workers[w].Exited? ==>
          exists m: nat :: OwnStepLater(sched, w, n, m))
    && (forall n: nat {:trigger beh(n).broadcasts} ::
          beh(n).broadcasts > 0 ==> exists m: nat :: BroadcastLater(beh, sched, n, m))
  }

  /** After shutdown no look blocks, so a worker's own step always moves it. */
  lemma OwnStepMoves(s: Pool, st: Step, w: nat)
    requires s.q.done && Enabled(s, st) && IsOwnStep(st, w)
    ensures Moves(s, st)
  {
    assert Apply(s, st).workers[w] != s.workers[w];
  }

  lemma {:induction false} BehaviourInv(beh: nat -> Pool, sched: nat -> Step, n: nat)
    requires Behaviour(beh, sched) && Inv(beh(0)) && beh(0).q.done
    ensures Inv(beh(n)) && beh(n).q.done
  {
    if n == 0 {
    } else {
      BehaviourInv(beh, sched, n - 1);
      assert Takes(beh, sched, n - 1);
      StepInv(beh(n - 1), sched(n - 1));
      MoveDecreases(beh(n - 1), sched(n - 1));
    }
  }

  lemma {:induction false} MeasureNeverGrows(beh: nat -> Pool, sched: nat -> Step, n: nat, m: nat)
    requires Behaviour(beh, sched) && Inv(beh(0)) && beh(0).q.done && n <= m
    ensures Measure(beh(m)) <= Measure(beh(n))
    decreases m
  {
    if n == m {
    } else {
      MeasureNeverGrows(beh, sched, n, m - 1);
      BehaviourInv(beh, sched, m - 1);
      assert Takes(beh, sched, m - 1);
      MoveDecreases(beh(m - 1), sched(m - 1));
    }
  }

  /** If the workers are the same all the way from `n` to `m`, a broadcast at `m` wakes whoever slept at `n`. */
  lemma {:induction false} UnchangedUntil(beh: nat -> Pool, n: nat, m: nat)
    requires n <= m && forall k: nat :: n <= k < m ==> !ChangesLater(beh, n, k)
    ensures beh(m).workers == beh(n).workers
    decreases m
  {
    if n == m {
    } else {
      UnchangedUntil(beh, n, m - 1);
      assert !ChangesLater(beh, n, m - 1);
    }
  }

  /** A worker's own step at `m`, unless something moved before. */
  lemma OwnStepFollows(beh: nat -> Pool, sched: nat -> Step, n: nat, w: nat, m: nat) returns (k: nat)
    requires Behaviour(beh, sched) && Inv(beh(0)) && beh(0).q.done && OwnStepLater(sched, w, n, m)
    ensures ChangesLater(beh, n, k)
  {
    k := m;
    BehaviourInv(beh, sched, m);
    assert Takes(beh, sched, m);
    OwnStepMoves(beh(m), sched(m), w);
  }

  /** A broadcast at `m` moves whoever slept at `n`, unless something moved before. */
  lemma BroadcastMoves(beh: nat -> Pool, sched: nat -> Step, n: nat, w: nat, m: nat) returns (k: nat)
    requires Behaviour(beh, sched) && BroadcastLater(beh, sched, n, m)
    requires w < |beh(n).workers| && beh(n).workers[w].Sleeping?
    ensures ChangesLater(beh, n, k)
  {
    if j: nat :| n <= j < m && ChangesLater(beh, n, j) {
      k := j;
    } else {
      k := m;
      UnchangedUntil(beh, n, m);
      assert Takes(beh, sched, m);
      WokenMoves(beh(m), w);
    }
  }

  lemma WokenMoves(s: Pool, w: nat)
    requires s.broadcasts > 0 && w < |s.workers| && s.workers[w].Sleeping?
    ensures Apply(s, NotifyAll).workers != s.workers
  {
    assert WakeAll(s.workers)[w] != s.workers[w];
  }

  /** Someone asleep after shutdown is still owed a broadcast. */
  lemma SleeperIsOwed(s: Pool, w: nat)
    requires BroadcastsOwed(s) && s.q.done && w < |s.workers| && s.workers[w].Sleeping?
    ensures s.broadcasts > 0
  {
  }

  lemma SomeMoveFollows(beh: nat -> Pool, sched: nat -> Step, n: nat) returns (m: nat)
    requires Behaviour(beh, sched) && Fair(beh, sched) && Inv(beh(0)) && beh(0).q.done
    requires !AllExited(beh(n).workers)
    ensures ChangesLater(beh, n, m)
  {
    var w: nat :| w < |beh(n).workers| && !beh(n).workers[w].Exited?;
    if beh(n).workers[w].Sleeping? {
      BehaviourInv(beh, sched, n);
      SleeperIsOwed(beh(n), w);
      var b: nat :| BroadcastLater(beh, sched, n, b);
      m := BroadcastMoves(beh, sched, n, w, b);
    } else {
      var b: nat :| OwnStepLater(sched, w, n, b);
      m := OwnStepFollows(beh, sched, n, w, b);
    }
  }

  lemma {:induction false} AllExitFrom(beh: nat -> Pool, sched: nat -> Step, n: nat) returns (end: nat)
    requires Behaviour(beh, sched) && Fair(beh, sched) && Inv(beh(0)) && beh(0).q.done
    ensures AllExited(beh(end).workers)
    decreases Measure(beh(n))
  {
    if AllExited(beh(n).workers) {
      end := n;
    } else {
      var m := SomeMoveFollows(beh, sched, n);
      MeasureNeverGrows(beh, sched, n, m);
      BehaviourInv(beh, sched, m);
      assert Takes(beh, sched, m);
      MoveDecreases(beh(m), sched(m));
      end := AllExitFrom(beh, sched, m + 1);
    }
  }

  /**
    Shutdown terminates. In every fair behaviour that starts in a reachable state after
    `shutdown`, there comes a moment when all workers have left; and if nobody aborted by
    then, everything ever accepted has been executed.
   */
  lemma ShutdownTerminates(beh: nat -> Pool, sched: nat -> Step) returns (end: nat)
    requires Behaviour(beh, sched) && Fair(beh, sched) && Inv(beh(0)) && beh(0).q.done
    ensures AllExited(beh(end).workers)
    ensures !beh(end).q.abort ==> beh(end).q.pending == [] && multiset(beh(end).executed) == multiset(beh(end).accepted)
  {
    end := AllExitFrom(beh, sched, 0);
    BehaviourInv(beh, sched, end);
    var s := beh(end);
    assert s.workers[0].Exited?;
    NothingInHand(s.workers);
    if !s.q.abort {
      assert multiset{} + multiset{} + multiset(s.executed) == multiset(s.executed);
    }
  }

  // ----- The laws of the queue hold of the pool -----

  /** What a step does to the queue, if anything. */
  function QueueEvent(st: Step): seq<R.Event> {
    match st
    case Submit(task, priority, now) => [R.PushEvent(task, priority, now)]
    case Look(_, now) => [R.PopEvent(now)]
    case ShutDown => [R.ShutdownEvent]
    case AbortAll => [R.AbortEvent]
    case _ => []
  }

  function QueueEvents(run: seq<Step>): seq<R.Event> {
    if run == [] then [] else QueueEvent(run[0]) + QueueEvents(run[1..])
  }

  lemma StepIsQueueStep(s: Pool, st: Step, later: seq<R.Event>)
    requires Enabled(s, st)
    requires R.Timed(Apply(s, st).clock, later)
    ensures R.Timed(s.clock, QueueEvent(st) + later)
    ensures R.Final(s.q, QueueEvent(st) + later) == R.Final(Apply(s, st).q, later)
  {
    var evs := QueueEvent(st) + later;
    if QueueEvent(st) == [] {
      assert evs == later;
    } else {
      assert evs[1..] == later;
    }
  }

  /** Seen from the queue, an interleaving of the pool is a run of the queue under a clock that never goes back. */
  lemma {:induction false} PoolRunIsQueueRun(s: Pool, run: seq<Step>)
    requires IsRun(s, run)
    ensures R.Timed(s.clock, QueueEvents(run))
    ensures End(s, run).q == R.Final(s.q, QueueEvents(run))
    decreases |run|
  {
    if run == [] {
    } else {
      PoolRunIsQueueRun(Apply(s, run[0]), run[1..]);
      StepIsQueueStep(s, run[0], QueueEvents(run[1..]));
    }
  }

  /**
    So whatever the workers, submitters and wake-ups do, tasks start in an order in which every
    overtaking is justified, and the tasks up to an aged one are the next to start, in turn.
   */
  lemma TasksStartInOrder(s: Pool, run: seq<Step>, r: nat)
    requires Inv(s) && IsRun(s, run)
    ensures R.RunJustified(R.Log(s.q, QueueEvents(run)), End(s, run).q.pending)
    ensures r < |s.q.pending| && Q.Aged(s.q.pending[r], s.clock) ==>
              R.Agree(R.Entries(R.Log(s.q, QueueEvents(run))), s.q.pending[..r + 1])
  {
    PoolRunIsQueueRun(s, run);
    R.InversionLaw(s.q, QueueEvents(run), s.clock);
    if r < |s.q.pending| && Q.Aged(s.q.pending[r], s.clock) {
      R.AgedIsServedInTurn(s.q, QueueEvents(run), s.clock, r);
    }
  }
}
