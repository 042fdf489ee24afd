/**
  The server and its compute pool together. A parsed `POST /compute` submits a task that
  carries its session; an executed task posts its session's response. This is where the
  session's single turn passes through the pool and comes back.

  Submitting is one step with the end of the read handler that does it, and finishing a task is
  one step with the completion callback that execute makes, once.
 */
module Service {
  import Q = QueueModel
  import P = PoolProtocol
  import PT = PoolTheorems
  import S = ServerProtocol
  import M = SessionModel
  import opened Sums

  datatype State = State(server: S.Server, pool: P.Pool)

  datatype Step =
    | ServerStep(server: S.Step)   // anything that leaves the pool alone
    | PoolStep(pool: P.Step)       // anything that leaves the sessions alone
    | Compute(i: nat, priority: Q.Int32, now: int, keep: bool)  // session `i` parsed POST /compute
    | Complete(w: nat, k: nat)     // worker `w` finished and called back

  /** Events of a session that go through the pool. */
  predicate UsesPool(ev: M.Event) {
    ev.TaskDone? || (ev.ReadDone? && ev.result.Parsed? && ev.result.request.Compute?)
  }

  /** What parsing the request amounts to, given whether the pool took the task. */
  function ParsedCompute(s: State, i: nat, priority: Q.Int32, now: int, keep: bool): S.Step {
    S.Handler(i, M.ReadDone(M.Parsed(M.Compute(Q.Push(s.pool.q, i, priority, now).1, keep))))
  }

  function TaskOf(s: State, w: nat): nat
    requires P.Enabled(s.pool, P.Finish(w))
  {
    s.pool.workers[w].entry.task
  }

  predicate Enabled(s: State, st: Step) {
    match st
    case ServerStep(t) => S.Enabled(s.server, t) && (t.Handler? ==> !UsesPool(t.ev))
    case PoolStep(t) => P.Enabled(s.pool, t) && !t.Submit? && !t.Finish?
    case Compute(i, priority, now, keep) =>
      S.Enabled(s.server, ParsedCompute(s, i, priority, now, keep)) && P.Enabled(s.pool, P.Submit(i, priority, now))
    case Complete(w, k) =>
      P.Enabled(s.pool, P.Finish(w)) && S.Enabled(s.server, S.Handler(TaskOf(s, w), M.TaskDone(k)))
  }

  function Apply(s: State, cfg: S.Config, st: Step): State
    requires Enabled(s, st)
  {
    match st
    case ServerStep(t) => s.(server := S.Apply(s.server, cfg, t))
    case PoolStep(t) => s.(pool := P.Apply(s.pool, t))
    case Compute(i, priority, now, keep) =>
      State(S.Apply(s.server, cfg, ParsedCompute(s, i, priority, now, keep)),
            P.Apply(s.pool, P.Submit(i, priority, now)))
    case Complete(w, k) =>
      State(S.Apply(s.server, cfg, S.Handler(TaskOf(s, w), M.TaskDone(k))),
            P.Apply(s.pool, P.Finish(w)))
  }

  // ----- How many tasks of one session the pool holds -----

  function Carries(i: nat): P.Entry -> nat {
    (e: P.Entry) => if e.task == i then 1 else 0
  }

  function Runs(i: nat): P.Worker -> nat {
    (w: P.Worker) => if w.Running? && w.entry.task == i then 1 else 0
  }

  /** Queued or running on behalf of session `i`. */
  function InPool(p: P.Pool, i: nat): nat {
    Sum(p.q.pending, Carries(i)) + Sum(p.workers, Runs(i))
  }

  /** Tasks the session waits for; none if there is no such session. */
  function Waits(ss: seq<M.Session>, i: nat): nat {
    if i < |ss| then |ss[i].turn.tasks| else 0
  }

  /** The pool and the sessions agree about every task. */
  ghost predicate Agreed(p: P.Pool, ss: seq<M.Session>) {
    forall i: nat {:trigger InPool(p, i)} :: InPool(p, i) == Waits(ss, i)
  }

  ghost predicate Inv(s: State, cfg: S.Config) {
    S.Inv(s.server, cfg) && P.Inv(s.pool) && Agreed(s.pool, s.server.books.sessions)
  }

  // ----- What the steps do to those numbers -----

  lemma SubmitCount(p: P.Pool, st: P.Step, i: nat)
    requires st.Submit? && P.Enabled(p, st)
    ensures InPool(P.Apply(p, st), i)
         == InPool(p, i) + (if Q.Push(p.q, st.task, st.priority, st.now).1 && st.task == i then 1 else 0)
  {
    var e := Q.Entry(st.priority, p.q.order, st.task, st.now);
    assert p.q.pending + [e] == p.q.pending + [e] + [];
    assert p.q.pending == p.q.pending + [];
    SumMiddle(p.q.pending, e, [], Carries(i));
  }

  lemma LookCount(p: P.Pool, w: nat, now: int, i: nat)
    requires P.Enabled(p, P.Look(w, now))
    ensures InPool(P.Apply(p, P.Look(w, now)), i) == InPool(p, i)
  {
    var r := Q.Pop(p.q, now).1;
    SumUpdate(p.workers, w, P.AfterLook(r), Runs(i));
    if r.Taken? {
      var b := Q.Best(p.q.pending, now);
      SumRemove(p.q.pending, b, Carries(i));
    }
  }

  lemma FinishCount(p: P.Pool, w: nat, i: nat)
    requires P.Enabled(p, P.Finish(w))
    ensures InPool(P.Apply(p, P.Finish(w)), i) + (if p.workers[w].entry.task == i then 1 else 0) == InPool(p, i)
  {
    SumUpdate(p.workers, w, P.Awake, Runs(i));
  }

  lemma WakeCount(p: P.Pool, st: P.Step, i: nat)
    requires P.Enabled(p, st) && !st.Submit? && !st.Finish? && !st.Look?
    ensures InPool(P.Apply(p, st), i) == InPool(p, i)
  {
    if st.NotifyAll? {
      SumPointwise(p.workers, P.WakeAll(p.workers), Runs(i));
      SumPointwise(P.WakeAll(p.workers), p.workers, Runs(i));
    } else if st.NotifyOne? || st.Spurious? || st.Start? {
      SumUpdate(p.workers, st.w, P.Awake, Runs(i));
    }
  }

  lemma PoolStepAgrees(p: P.Pool, ss: seq<M.Session>, st: P.Step)
    requires Agreed(p, ss) && P.Enabled(p, st) && !st.Submit? && !st.Finish?
    ensures Agreed(P.Apply(p, st), ss)
  {
    forall i: nat ensures InPool(P.Apply(p, st), i) == Waits(ss, i) {
      assert InPool(p, i) == Waits(ss, i);
      if st.Look? {
        LookCount(p, st.w, st.now, i);
      } else {
        WakeCount(p, st, i);
      }
    }
  }

  /** Only the two kinds of event that use the pool change what a session waits for. */
  lemma OtherEventsWaitTheSame(x: M.Session, ev: M.Event, draining: bool, lim: M.Limits)
    requires M.Enabled(x, ev) && !UsesPool(ev)
    ensures |M.Apply(x, ev, draining, lim).turn.tasks| == |x.turn.tasks|
  {
    if ev.ReadDone? {
      OtherReadsWaitTheSame(x, ev.result, draining, lim);
    } else {
      OtherHandlersWaitTheSame(x, ev, draining, lim);
    }
  }

  lemma OtherReadsWaitTheSame(x: M.Session, result: M.ReadResult, draining: bool, lim: M.Limits)
    requires x.turn.readOps > 0 && !UsesPool(M.ReadDone(result))
    ensures |M.Apply(x, M.ReadDone(result), draining, lim).turn.tasks| == |x.turn.tasks|
  {
  }

  lemma OtherHandlersWaitTheSame(x: M.Session, ev: M.Event, draining: bool, lim: M.Limits)
    requires M.Enabled(x, ev) && !ev.ReadDone? && !ev.TaskDone?
    ensures |M.Apply(x, ev, draining, lim).turn.tasks| == |x.turn.tasks|
  {
    match ev
    case SendRun(i) => DeliveryWaitsTheSame(x.(turn := x.turn.(sends := M.Without(x.turn.sends, i))), x.turn.sends[i]);
    case WriteDone(ok) => WriteWaitsTheSame(x, ok, draining, lim);
    case _ =>
  }

  lemma DeliveryWaitsTheSame(x: M.Session, keep: bool)
    ensures |M.Deliver(x, keep).turn.tasks| == |x.turn.tasks|
  {
  }

  lemma WriteWaitsTheSame(x: M.Session, ok: bool, draining: bool, lim: M.Limits)
    requires x.turn.writeOps > 0
    ensures |M.Apply(x, M.WriteDone(ok), draining, lim).turn.tasks| == |x.turn.tasks|
  {
  }

  ghost predicate SameWaits(ss: seq<M.Session>, ss': seq<M.Session>) {
    forall i: nat {:trigger Waits(ss', i)} :: Waits(ss', i) == Waits(ss, i)
  }

  lemma WaitsPut(ss: seq<M.Session>, j: nat, x: M.Session)
    requires j < |ss| && |x.turn.tasks| == |ss[j].turn.tasks|
    ensures SameWaits(ss, ss[j := x])
  {
  }

  lemma OnSessionWaits(s: S.Server, cfg: S.Config, j: nat, ev: M.Event)
    requires j < |s.books.sessions| && M.Enabled(s.books.sessions[j], ev) && !UsesPool(ev)
    ensures SameWaits(s.books.sessions, S.OnSession(s, cfg, j, ev).books.sessions)
  {
    OtherEventsWaitTheSame(s.books.sessions[j], ev, s.draining, cfg.lim);
    WaitsPut(s.books.sessions, j, M.Apply(s.books.sessions[j], ev, s.draining, cfg.lim));
  }

  lemma ServerStepWaits(s: S.Server, cfg: S.Config, st: S.Step)
    requires S.Enabled(s, st) && (st.Handler? ==> !UsesPool(st.ev))
    ensures SameWaits(s.books.sessions, S.Apply(s, cfg, st).books.sessions)
  {
    var ss := s.books.sessions;
    match st
    case Launch(t) => OnSessionWaits(s, cfg, s.acc.threads[t].id, M.Launch);
    case Handler(j, ev) => OnSessionWaits(s, cfg, j, ev);
    case TimerCloses(j) => OnSessionWaits(s, cfg, j, M.ClosePosted);
    case Erase(j) => WaitsPut(ss, j, ss[j].(endCalls := ss[j].endCalls - 1, removed := true));
    case _ =>
  }

  /** A session's own pool events, both ways. */
  lemma PoolEventsWait(x: M.Session, ev: M.Event, draining: bool, lim: M.Limits)
    requires M.Enabled(x, ev) && UsesPool(ev)
    ensures ev.TaskDone? ==> |M.Apply(x, ev, draining, lim).turn.tasks| == |x.turn.tasks| - 1
    ensures ev.ReadDone? ==>
              |M.Apply(x, ev, draining, lim).turn.tasks|
              == |x.turn.tasks| + (if ev.result.request.accepted then 1 else 0)
  {
  }

  lemma ComputeAgrees(s: State, cfg: S.Config, st: Step)
    requires Agreed(s.pool, s.server.books.sessions) && Enabled(s, st) && st.Compute?
    ensures Agreed(Apply(s, cfg, st).pool, Apply(s, cfg, st).server.books.sessions)
  {
    var ss := s.server.books.sessions;
    var h := ParsedCompute(s, st.i, st.priority, st.now, st.keep);
    var submit := P.Submit(st.i, st.priority, st.now);
    var x := M.Apply(ss[st.i], h.ev, s.server.draining, cfg.lim);
    PoolEventsWait(ss[st.i], h.ev, s.server.draining, cfg.lim);
    forall i: nat ensures InPool(P.Apply(s.pool, submit), i) == Waits(ss[st.i := x], i) {
      assert InPool(s.pool, i) == Waits(ss, i);
      SubmitCount(s.pool, submit, i);
    }
  }

  /**
    A parsed `POST /compute` puts one entry into the queue, carrying its session and the request's
    priority, and makes the session wait for it; if the pool is shut down or full it puts none, and
    the session has a 503 on its way.
   */
  lemma ComputeQueuesItsTask(s: State, cfg: S.Config, st: Step)
    requires Enabled(s, st) && st.Compute?
    ensures var p, p' := s.pool, Apply(s, cfg, st).pool;
            var t, t' := s.server.books.sessions[st.i].turn, Apply(s, cfg, st).server.books.sessions[st.i].turn;
            if !p.q.done && |p.q.pending| < p.q.capacity
            then p'.q.pending == p.q.pending + [Q.Entry(st.priority, p.q.order, st.i, st.now)]
                 && p'.notifies == p.notifies + 1
                 && t'.tasks == t.tasks + [st.keep] && t'.posts == t.posts
            else p'.q.pending == p.q.pending && p'.notifies == p.notifies
                 && t'.tasks == t.tasks && t'.posts == t.posts + [false]
  {
  }

  lemma CompleteAgrees(s: State, cfg: S.Config, st: Step)
    requires Agreed(s.pool, s.server.books.sessions) && Enabled(s, st) && st.Complete?
    ensures Agreed(Apply(s, cfg, st).pool, Apply(s, cfg, st).server.books.sessions)
  {
    var ss := s.server.books.sessions;
    var j := TaskOf(s, st.w);
    var x := M.Apply(ss[j], M.TaskDone(st.k), s.server.draining, cfg.lim);
    PoolEventsWait(ss[j], M.TaskDone(st.k), s.server.draining, cfg.lim);
    forall i: nat ensures InPool(P.Apply(s.pool, P.Finish(st.w)), i) == Waits(ss[j := x], i) {
      assert InPool(s.pool, i) == Waits(ss, i);
      FinishCount(s.pool, st.w, i);
    }
  }

  lemma StepAgrees(s: State, cfg: S.Config, st: Step)
    requires Agreed(s.pool, s.server.books.sessions) && Enabled(s, st)
    ensures Agreed(Apply(s, cfg, st).pool, Apply(s, cfg, st).server.books.sessions)
  {
    match st
    case ServerStep(t) =>
      ServerStepWaits(s.server, cfg, t);
      KeepsAgreed(s.pool, s.server.books.sessions, S.Apply(s.server, cfg, t).books.sessions);
    case PoolStep(t) => PoolStepAgrees(s.pool, s.server.books.sessions, t);
    case Compute(_, _, _, _) => ComputeAgrees(s, cfg, st);
    case Complete(_, _) => CompleteAgrees(s, cfg, st);
  }

  lemma KeepsAgreed(p: P.Pool, ss: seq<M.Session>, ss': seq<M.Session>)
    requires Agreed(p, ss) && SameWaits(ss, ss')
    ensures Agreed(p, ss')
  {
    forall i: nat ensures InPool(p, i) == Waits(ss', i) {
      assert InPool(p, i) == Waits(ss, i);
    }
  }

  lemma StepInv(s: State, cfg: S.Config, st: Step)
    requires Inv(s, cfg) && Enabled(s, st)
    ensures Inv(Apply(s, cfg, st), cfg)
  {
    StepAgrees(s, cfg, st);
    match st
    case ServerStep(t) => S.StepInv(s.server, cfg, t);
    case PoolStep(t) => P.StepInv(s.pool, t);
    case Compute(i, priority, now, keep) =>
      S.StepInv(s.server, cfg, ParsedCompute(s, i, priority, now, keep));
      P.StepInv(s.pool, P.Submit(i, priority, now));
    case Complete(w, k) =>
      S.StepInv(s.server, cfg, S.Handler(TaskOf(s, w), M.TaskDone(k)));
      P.StepInv(s.pool, P.Finish(w));
  }

  // ----- Runs -----

  function Init(ioThreads: nat, workers: nat, capacity: nat): State {
    State(S.Init(ioThreads), P.Init(workers, capacity))
  }

  lemma InitInv(ioThreads: nat, workers: nat, capacity: nat, cfg: S.Config)
    ensures Inv(Init(ioThreads, workers, capacity), cfg)
  {
    S.InitInv(ioThreads, cfg);
    P.InitInv(workers, capacity);
    var p := P.Init(workers, capacity);
    forall i: nat ensures InPool(p, i) == 0 {
      SumIsZero(p.workers, Runs(i));
    }
  }

  ghost predicate IsRun(s: State, cfg: S.Config, run: seq<Step>)
    decreases |run|
  {
    run == [] || (Enabled(s, run[0]) && IsRun(Apply(s, cfg, run[0]), cfg, run[1..]))
  }

  function End(s: State, cfg: S.Config, run: seq<Step>): State
    requires IsRun(s, cfg, run)
    decreases |run|
  {
    if run == [] then s else End(Apply(s, cfg, run[0]), cfg, run[1..])
  }

  lemma {:induction false} RunInv(s: State, cfg: S.Config, run: seq<Step>)
    requires Inv(s, cfg) && IsRun(s, cfg, run)
    ensures Inv(End(s, cfg, run), cfg)
    decreases |run|
  {
    if run == [] {
    } else {
      StepInv(s, cfg, run[0]);
      RunInv(Apply(s, cfg, run[0]), cfg, run[1..]);
    }
  }

  ghost predicate Reaches(ioThreads: nat, workers: nat, capacity: nat, cfg: S.Config, run: seq<Step>, s: State) {
    IsRun(Init(ioThreads, workers, capacity), cfg, run) && s == End(Init(ioThreads, workers, capacity), cfg, run)
  }

  lemma ReachesInv(ioThreads: nat, workers: nat, capacity: nat, cfg: S.Config, run: seq<Step>, s: State)
    requires Reaches(ioThreads, workers, capacity, cfg, run, s)
    ensures Inv(s, cfg)
  {
    InitInv(ioThreads, workers, capacity, cfg);
    RunInv(Init(ioThreads, workers, capacity), cfg, run);
  }

  /**
    The single token through the pool. In every reachable state of the whole service a session
    has at most one task queued or running, and while it has one it has no read, no write and
    no response on the way.
   */
  lemma OneTaskPerSession(ioThreads: nat, workers: nat, capacity: nat, cfg: S.Config, run: seq<Step>, s: State, i: nat)
    requires Reaches(ioThreads, workers, capacity, cfg, run, s)
    ensures InPool(s.pool, i) <= 1
    ensures InPool(s.pool, i) == 1 ==>
              && i < |s.server.books.sessions|
              && var x := s.server.books.sessions[i].turn;
              && x.readOps == 0 && x.writeOps == 0 && x.posts == [] && x.sends == []
  {
    ReachesInv(ioThreads, workers, capacity, cfg, run, s);
    assert InPool(s.pool, i) == Waits(s.server.books.sessions, i);
    if i < |s.server.books.sessions| {
      assert M.Inv(s.server.books.sessions[i], s.server.draining, cfg.lim);
    }
  }

  /** Every completion finds its session waiting: a worker that runs a task can always finish it. */
  lemma CompletionFindsItsSession(ioThreads: nat, workers: nat, capacity: nat, cfg: S.Config, run: seq<Step>,
                                  s: State, w: nat)
    requires Reaches(ioThreads, workers, capacity, cfg, run, s)
    requires w < |s.pool.workers| && s.pool.workers[w].Running?
    ensures Enabled(s, Complete(w, 0))
  {
    ReachesInv(ioThreads, workers, capacity, cfg, run, s);
    RunningIsAwaited(s, w);
  }

  lemma RunningIsAwaited(s: State, w: nat)
    requires Agreed(s.pool, s.server.books.sessions) && w < |s.pool.workers| && s.pool.workers[w].Running?
    ensures Waits(s.server.books.sessions, s.pool.workers[w].entry.task) > 0
  {
    var i := s.pool.workers[w].entry.task;
    SumAtLeast(s.pool.workers, w, Runs(i));
    assert InPool(s.pool, i) == Waits(s.server.books.sessions, i);
  }

  /**
    Nothing is left in the pool after a graceful end: when all workers have left and nobody
    aborted, no session waits for a task, and each request and oversized body of each session
    has been answered, dropped by a close, or is a response on its way to the strand.
   */
  lemma GracefulEndAnswersEverything(ioThreads: nat, workers: nat, capacity: nat, cfg: S.Config, run: seq<Step>,
                                     s: State, i: nat)
    requires Reaches(ioThreads, workers, capacity, cfg, run, s)
    requires !s.pool.q.abort && PT.AllExited(s.pool.workers)
    requires i < |s.server.books.sessions|
    ensures var x := s.server.books.sessions[i];
            && x.turn.tasks == []
            && x.tally.answers + x.tally.dropped + |x.turn.posts| + |x.turn.sends| == x.requests + x.tally.oversized
  {
    ReachesInv(ioThreads, workers, capacity, cfg, run, s);
    assert s.pool.workers[0].Exited?;
    SumIsZero(s.pool.workers, Runs(i));
    assert InPool(s.pool, i) == Waits(s.server.books.sessions, i);
    assert M.Inv(s.server.books.sessions[i], s.server.draining, cfg.lim);
  }
}
