/**
  What the drain timer's forced close reaches, and what it misses: it closes the sessions that
  were inserted before its snapshot, and no session inserted after it.
 */
module DrainTimers {
  import M = SessionModel
  import opened ServerModel
  import opened ServerProtocol
  import T = ServerTheorems

  /** Nobody has called close() on the session. */
  ghost predicate Untouched(x: M.Session) {
    !x.closed && x.closes == 0
  }

  lemma ReadStaysSo(x: M.Session, result: M.ReadResult, draining: bool, lim: M.Limits)
    ensures M.OnRead(x, result, draining, lim).closed == x.closed
    ensures M.OnRead(x, result, draining, lim).closes == x.closes
  {
  }

  lemma ReadDoneStaysSo(x: M.Session, result: M.ReadResult, draining: bool, lim: M.Limits)
    requires x.turn.readOps > 0
    ensures Untouched(M.Apply(x, M.ReadDone(result), draining, lim)) <==> Untouched(x)
  {
    ReadStaysSo(x.(turn := x.turn.(readOps := x.turn.readOps - 1)), result, draining, lim);
  }

  lemma OtherStaysSo(x: M.Session, ev: M.Event, draining: bool, lim: M.Limits)
    requires M.Enabled(x, ev) && !ev.ReadDone? && !ev.ClosePosted?
    ensures Untouched(M.Apply(x, ev, draining, lim)) <==> Untouched(x)
  {
  }

  /** Only a call of close() makes the difference: carrying it out leaves the session closed. */
  lemma HandlersStaySo(x: M.Session, ev: M.Event, draining: bool, lim: M.Limits)
    requires M.Enabled(x, ev) && !ev.ClosePosted?
    ensures Untouched(M.Apply(x, ev, draining, lim)) <==> Untouched(x)
  {
    if ev.ReadDone? {
      ReadDoneStaysSo(x, ev.result, draining, lim);
    } else {
      OtherStaysSo(x, ev, draining, lim);
    }
  }

  /** Whom the timer still has to close. */
  function Todo(t: DrainTimer): set<nat> {
    if t.Closing? then t.todo else {}
  }

  /** From number `cut` on nobody is touched; before it everybody registered is, or will be. */
  ghost predicate SplitAt(ss: seq<M.Session>, todo: set<nat>, cut: nat) {
    && cut <= |ss|
    && (forall i :: i in todo ==> i < cut)
    && (forall i {:trigger ss[i]} :: cut <= i < |ss| ==> Untouched(ss[i]))
    && (forall i {:trigger ss[i]} :: 0 <= i < cut ==> i in todo || ss[i].removed || !Untouched(ss[i]))
  }

  lemma SplitPut(ss: seq<M.Session>, todo: set<nat>, cut: nat, i: nat, x: M.Session)
    requires SplitAt(ss, todo, cut) && i < |ss|
    requires Untouched(x) <==> Untouched(ss[i])
    requires ss[i].removed ==> x.removed
    ensures SplitAt(ss[i := x], todo, cut)
  {
  }

  lemma SplitHandler(s: Server, cfg: Config, cut: nat, i: nat, ev: M.Event)
    requires SplitAt(s.books.sessions, Todo(s.timer), cut)
    requires i < |s.books.sessions| && M.Enabled(s.books.sessions[i], ev) && !ev.ClosePosted?
    ensures SplitAt(OnSession(s, cfg, i, ev).books.sessions, Todo(s.timer), cut)
  {
    var x := s.books.sessions[i];
    HandlersStaySo(x, ev, s.draining, cfg.lim);
    M.HandlersKeepBooks(x, ev, s.draining, cfg.lim);
    SplitPut(s.books.sessions, Todo(s.timer), cut, i, M.Apply(x, ev, s.draining, cfg.lim));
  }

  lemma SplitClose(s: Server, cfg: Config, cut: nat, i: nat)
    requires SplitAt(s.books.sessions, Todo(s.timer), cut) && Enabled(s, TimerCloses(i))
    ensures SplitAt(Apply(s, cfg, TimerCloses(i)).books.sessions, Todo(s.timer) - {i}, cut)
  {
  }

  lemma SplitStep(s: Server, cfg: Config, cut: nat, st: Step)
    requires SplitAt(s.books.sessions, Todo(s.timer), cut)
    requires Enabled(s, st) && !st.TimerFires?
    ensures SplitAt(Apply(s, cfg, st).books.sessions, Todo(Apply(s, cfg, st).timer), cut)
  {
    match st
    case Launch(t) => SplitHandler(s, cfg, cut, s.acc.threads[t].id, M.Launch);
    case Handler(i, ev) => SplitHandler(s, cfg, cut, i, ev);
    case TimerCloses(i) => SplitClose(s, cfg, cut, i);
    case Erase(i) => SplitPut(s.books.sessions, Todo(s.timer), cut, i, EraseBook(s.books, i).sessions[i]);
    case _ =>
  }

  /** The snapshot holds exactly the registered sessions, so the cut moves to all there are. */
  lemma SnapshotSplits(s: Server, cfg: Config)
    requires BooksInv(s.books) && Enabled(s, TimerFires)
    ensures SplitAt(s.books.sessions, Todo(Apply(s, cfg, TimerFires).timer), |s.books.sessions|)
  {
  }

  lemma TimerFiresOnce(s: Server, cfg: Config, st: Step)
    requires Enabled(s, st)
    ensures !s.timer.Waiting? ==> !st.TimerFires? && !Apply(s, cfg, st).timer.Waiting?
    ensures st.TimerFires? ==> !Apply(s, cfg, st).timer.Waiting?
  {
  }

  /** The same cut holds all along a run after the timer fired. */
  lemma {:induction false} SplitRun(s: Server, cfg: Config, cut: nat, run: seq<Step>)
    requires SplitAt(s.books.sessions, Todo(s.timer), cut)
    requires IsRun(s, cfg, run) && !s.timer.Waiting?
    ensures SplitAt(End(s, cfg, run).books.sessions, Todo(End(s, cfg, run).timer), cut)
    decreases |run|
  {
    if run == [] {
    } else {
      TimerFiresOnce(s, cfg, run[0]);
      SplitStep(s, cfg, cut, run[0]);
      SplitRun(Apply(s, cfg, run[0]), cfg, cut, run[1..]);
    }
  }

  /**
    The reach of the forced close, exactly. Once the timer has gone through its snapshot, a
    session still on the books has had close() called on it if and only if it was inserted before
    the snapshot was taken.
   */
  lemma TimerClosesExactlyTheSnapshot(n: nat, cfg: Config, before: seq<Step>, s: Server, after: seq<Step>, i: nat)
    requires T.Reaches(n, cfg, before, s) && Enabled(s, TimerFires)
    requires IsRun(Apply(s, cfg, TimerFires), cfg, after)
    requires var s' := End(Apply(s, cfg, TimerFires), cfg, after);
             s'.timer.Fired? && i in s'.books.registered
    ensures var s' := End(Apply(s, cfg, TimerFires), cfg, after);
            i < |s'.books.sessions| && (!Untouched(s'.books.sessions[i]) <==> i < |s.books.sessions|)
  {
    T.ReachesInv(n, cfg, before, s);
    SnapshotSplits(s, cfg);
    StepInv(s, cfg, TimerFires);
    RunInv(Apply(s, cfg, TimerFires), cfg, after);
    SplitRun(Apply(s, cfg, TimerFires), cfg, |s.books.sessions|, after);
  }

  /** The timer has come and gone, and a session is on the books that it will never close. */
  ghost predicate Missed(s: Server) {
    && s.draining && !s.stopped && s.timer.Fired?
    && exists i :: 0 <= i < |s.books.sessions| && i in s.books.registered && Untouched(s.books.sessions[i])
  }

  /** From the signal to the end of the drain timer's handler, with one session on the books. */
  lemma DrainAround(n: nat, cfg: Config, s: Server) returns (s': Server)
    requires T.Reachable(n, cfg, s) && s.books.lock.Unlocked? && s.books.active == 1
    requires !s.draining && !s.stopped && s.timer.Waiting?
    ensures T.Reachable(n, cfg, s')
    ensures s'.acc == s.acc && s'.books.lock.Unlocked? && s'.draining && !s'.stopped && s'.timer.Fired?
  {
    var run :| T.Reaches(n, cfg, run, s);
    T.ReachesInv(n, cfg, run, s);
    T.Extend(n, cfg, s, Signal);
    var s1 := Apply(s, cfg, Signal);
    T.Extend(n, cfg, s1, SignalCheck);
    var s2 := Apply(s1, cfg, SignalCheck);
    T.Extend(n, cfg, s2, TimerFires);
    var s3 := Apply(s2, cfg, TimerFires);
    var i: nat :| i in s3.books.registered;
    T.Extend(n, cfg, s3, TimerCloses(i));
    var s4 := Apply(s3, cfg, TimerCloses(i));
    assert |s3.timer.todo - {i}| == 0;
    T.Extend(n, cfg, s4, TimerCheck);
    s' := Apply(s4, cfg, TimerCheck);
  }

  /** Once off the books, a session stays off them. */
  lemma {:induction false} RegisteredThroughout(s: Server, cfg: Config, run: seq<Step>, i: nat)
    requires IsRun(s, cfg, run) && i < |s.books.sessions|
    requires i in End(s, cfg, run).books.registered
    ensures i in s.books.registered
    decreases |run|
  {
    if run == [] {
    } else {
      RegisteredThroughout(Apply(s, cfg, run[0]), cfg, run[1..], i);
    }
  }

  /** No step stops the I/O context while somebody is on the books before and after it. */
  lemma StopNeedsEmptyBooks(s: Server, cfg: Config, st: Step, i: nat)
    requires BooksInv(s.books) && Enabled(s, st) && !s.stopped && i in s.books.registered
    ensures !Apply(s, cfg, st).stopped
  {
  }

  /**
    The drain lasts as long as any session does: in every run, as long as some session that is
    on the books at its beginning is still on them at its end, the I/O context has not been stopped.
   */
  lemma {:induction false} DrainWaitsForEverySession(s: Server, cfg: Config, run: seq<Step>, i: nat)
    requires Inv(s, cfg) && IsRun(s, cfg, run) && !s.stopped
    requires i < |s.books.sessions| && i in End(s, cfg, run).books.registered
    ensures !End(s, cfg, run).stopped
    decreases |run|
  {
    if run == [] {
    } else {
      RegisteredThroughout(s, cfg, run, i);
      StopNeedsEmptyBooks(s, cfg, run[0], i);
      StepInv(s, cfg, run[0]);
      DrainWaitsForEverySession(Apply(s, cfg, run[0]), cfg, run[1..], i);
    }
  }

  /**
    So a drain need not end with its timeout. For every positive limit there is a run in which
    one thread has accepted a connection before the signal and inserts the session only after the
    timer took its snapshot: the timer is spent, and the session is never told to close.
   */
  lemma TimerCanMissASession(n: nat, cfg: Config) returns (s: Server)
    requires cfg.maxConnections > 0
    ensures T.Reachable(n, cfg, s) && Missed(s)
  {
    var s0 := T.ServeUpTo(n, cfg, 0);
    var s1 := T.Arrive(n, cfg, s0, 0);
    var s2 := T.Enter(n, cfg, s1, 0);
    var s3 := T.Arrive(n, cfg, s2, 0);
    var s4 := DrainAround(n, cfg, s3);
    s := T.Enter(n, cfg, s4, 0);
    assert Untouched(s.books.sessions[|s4.books.sessions|]);
  }

  /** The drain timer can miss a session if and only if the server lets anybody in at all. */
  lemma TimerMissesIff(n: nat, cfg: Config)
    ensures (exists s :: T.Reachable(n, cfg, s) && Missed(s)) <==> cfg.maxConnections > 0
  {
    if cfg.maxConnections > 0 {
      var s := TimerCanMissASession(n, cfg);
    } else {
      forall s | T.Reachable(n, cfg, s) ensures !Missed(s) {
        T.ZeroLeavesNobody(n, cfg, s);
      }
    }
  }
}
