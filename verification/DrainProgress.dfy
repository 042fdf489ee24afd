/** That a drain ends: if everybody on the books has been told to close, the I/O context is stopped. */
module DrainProgress {
  import M = SessionModel
  import opened ServerModel
  import opened ServerProtocol
  import opened DrainTimers
  import T = ServerTheorems

  /** What happens next: nothing for a while, or a step of some thread. */
  datatype Turn = Idle | Take(step: Step)

  ghost predicate Passes(beh: nat -> Server, sched: nat -> Turn, cfg: Config, n: nat) {
    match sched(n)
    case Idle => beh(n + 1) == beh(n)
    case Take(st) => Enabled(beh(n), st) && beh(n + 1) == Apply(beh(n), cfg, st)
  }

  ghost predicate Behaviour(beh: nat -> Server, sched: nat -> Turn, cfg: Config) {
    forall n: nat :: Passes(beh, sched, cfg, n)
  }

  ghost predicate Later(sched: nat -> Turn, st: Step, n: nat, m: nat) {
    n <= m && sched(m) == Take(st)
  }

  /**
    Fair scheduling: a posted close runs sooner or later, a session that has ended gets the lock
    to leave the books sooner or later, and whoever holds the lock goes on sooner or later.
   */
  ghost predicate Fair(beh: nat -> Server, sched: nat -> Turn) {
    && (forall n: nat, i: nat {:trigger beh(n).books.sessions[i]} :: i < |beh(n).books.sessions| ==>
          && (beh(n).books.sessions[i].closes > 0 ==> exists m: nat :: Later(sched, Handler(i, M.CloseRun), n, m))
          && (beh(n).books.sessions[i].endCalls > 0 ==> exists m: nat :: Later(sched, Erase(i), n, m)))
    && (forall n: nat {:trigger beh(n).books.lock} ::
          && (beh(n).books.lock.Erased? ==> exists m: nat :: Later(sched, Decrement, n, m))
          && (beh(n).books.lock.Ended? ==> exists m: nat :: Later(sched, EndCheck, n, m)))
  }

  predicate Enters(t: Turn) {
    t.Take? && t.step.Insert?
  }

  /** No connection accepted before the signal is still to be inserted. */
  ghost predicate NobodyEnters(sched: nat -> Turn) {
    forall n: nat :: !Enters(sched(n))
  }

  /** Close has been called on everybody on the books. */
  ghost predicate AllTold(b: Books) {
    forall i :: i in b.registered ==> i < |b.sessions| && !Untouched(b.sessions[i])
  }

  ghost predicate Draining(s: Server, cfg: Config) {
    Inv(s, cfg) && s.phase.Checked? && AllTold(s.books)
  }

  /** Once the drain timer is through, everybody has been told if and only if nobody entered after its snapshot. */
  lemma AllToldIff(n: nat, cfg: Config, before: seq<Step>, s: Server, after: seq<Step>)
    requires T.Reaches(n, cfg, before, s) && Enabled(s, TimerFires)
    requires IsRun(Apply(s, cfg, TimerFires), cfg, after)
    requires End(Apply(s, cfg, TimerFires), cfg, after).timer.Fired?
    ensures var b := End(Apply(s, cfg, TimerFires), cfg, after).books;
            AllTold(b) <==> forall i :: i in b.registered ==> i < |s.books.sessions|
  {
    var b := End(Apply(s, cfg, TimerFires), cfg, after).books;
    forall i | i in b.registered
      ensures i < |b.sessions| && (!Untouched(b.sessions[i]) <==> i < |s.books.sessions|)
    {
      TimerClosesExactlyTheSnapshot(n, cfg, before, s, after, i);
    }
  }

  lemma ToldPut(b: Books, i: nat, x: M.Session)
    requires AllTold(b) && i < |b.sessions|
    requires !Untouched(b.sessions[i]) ==> !Untouched(x)
    ensures AllTold(b.(sessions := b.sessions[i := x]))
  {
  }

  lemma ToldSession(s: Server, cfg: Config, i: nat, ev: M.Event)
    requires AllTold(s.books) && i < |s.books.sessions| && M.Enabled(s.books.sessions[i], ev)
    ensures AllTold(OnSession(s, cfg, i, ev).books)
  {
    var x := s.books.sessions[i];
    if !ev.ClosePosted? {
      HandlersStaySo(x, ev, s.draining, cfg.lim);
    }
    ToldPut(s.books, i, M.Apply(x, ev, s.draining, cfg.lim));
  }

  lemma ToldErase(b: Books, i: nat)
    requires AllTold(b) && i < |b.sessions| && b.sessions[i].endCalls > 0
    ensures AllTold(EraseBook(b, i))
  {
  }

  lemma StepTold(s: Server, cfg: Config, st: Step)
    requires AllTold(s.books) && Enabled(s, st) && !st.Insert?
    ensures AllTold(Apply(s, cfg, st).books)
  {
    match st
    case Launch(t) => ToldSession(s, cfg, s.acc.threads[t].id, M.Launch);
    case Handler(i, ev) => ToldSession(s, cfg, i, ev);
    case TimerCloses(i) => ToldSession(s, cfg, i, M.ClosePosted);
    case Erase(i) => ToldErase(s.books, i);
    case _ =>
  }

  lemma StepDraining(s: Server, cfg: Config, st: Step)
    requires Draining(s, cfg) && Enabled(s, st) && !st.Insert?
    ensures Draining(Apply(s, cfg, st), cfg)
    ensures Apply(s, cfg, st).books.registered <= s.books.registered
  {
    StepInv(s, cfg, st);
    StepTold(s, cfg, st);
  }

  lemma {:induction false} StaysDraining(beh: nat -> Server, sched: nat -> Turn, cfg: Config, n: nat)
    requires Behaviour(beh, sched, cfg) && NobodyEnters(sched) && Draining(beh(0), cfg)
    ensures Draining(beh(n), cfg)
  {
    if n == 0 {
    } else {
      StaysDraining(beh, sched, cfg, n - 1);
      assert Passes(beh, sched, cfg, n - 1) && !Enters(sched(n - 1));
      if sched(n - 1).Take? {
        StepDraining(beh(n - 1), cfg, sched(n - 1).step);
      }
    }
  }

  /** Nobody comes back on the books. */
  lemma {:induction false} BooksShrink(beh: nat -> Server, sched: nat -> Turn, cfg: Config, n: nat, m: nat)
    requires Behaviour(beh, sched, cfg) && NobodyEnters(sched) && Draining(beh(0), cfg) && n <= m
    ensures beh(m).books.registered <= beh(n).books.registered
    decreases m
  {
    if n == m {
    } else {
      BooksShrink(beh, sched, cfg, n, m - 1);
      StaysDraining(beh, sched, cfg, m - 1);
      assert Passes(beh, sched, cfg, m - 1) && !Enters(sched(m - 1));
      if sched(m - 1).Take? {
        StepDraining(beh(m - 1), cfg, sched(m - 1).step);
      }
    }
  }

  /** What a step taken at `m` does there. */
  lemma TakenAt(beh: nat -> Server, sched: nat -> Turn, cfg: Config, st: Step, n: nat, m: nat)
    requires Behaviour(beh, sched, cfg) && Later(sched, st, n, m)
    ensures Enabled(beh(m), st) && beh(m + 1) == Apply(beh(m), cfg, st)
  {
    assert Passes(beh, sched, cfg, m);
  }

  lemma OnBooks(beh: nat -> Server, sched: nat -> Turn, cfg: Config, n: nat, i: nat)
    requires Behaviour(beh, sched, cfg) && NobodyEnters(sched) && Draining(beh(0), cfg)
    requires i in beh(n).books.registered
    ensures i < |beh(n).books.sessions|
    ensures beh(n).books.sessions[i].closed || beh(n).books.sessions[i].closes > 0
    ensures beh(n).books.sessions[i].closed ==> beh(n).books.sessions[i].endCalls > 0
  {
    StaysDraining(beh, sched, cfg, n);
    assert M.Inv(beh(n).books.sessions[i], beh(n).draining, cfg.lim);
  }

  lemma CloseRunCloses(s: Server, cfg: Config, i: nat)
    requires Enabled(s, Handler(i, M.CloseRun))
    ensures Apply(s, cfg, Handler(i, M.CloseRun)).books.sessions[i].closed
  {
  }

  lemma CloseRunAt(beh: nat -> Server, sched: nat -> Turn, cfg: Config, n: nat, m: nat, i: nat)
    requires Behaviour(beh, sched, cfg) && Later(sched, Handler(i, M.CloseRun), n, m)
    ensures i < |beh(m + 1).books.sessions| && beh(m + 1).books.sessions[i].closed
  {
    TakenAt(beh, sched, cfg, Handler(i, M.CloseRun), n, m);
    CloseRunCloses(beh(m), cfg, i);
  }

  /** A session that was told to close is closed sooner or later. */
  lemma Closes(beh: nat -> Server, sched: nat -> Turn, cfg: Config, n: nat, i: nat) returns (m: nat)
    requires Behaviour(beh, sched, cfg) && Fair(beh, sched) && NobodyEnters(sched) && Draining(beh(0), cfg)
    requires i in beh(n).books.registered
    ensures i < |beh(m).books.sessions| && beh(m).books.sessions[i].closed && n <= m
  {
    OnBooks(beh, sched, cfg, n, i);
    if beh(n).books.sessions[i].closed {
      m := n;
    } else {
      var b: nat :| Later(sched, Handler(i, M.CloseRun), n, b);
      CloseRunAt(beh, sched, cfg, n, b, i);
      m := b + 1;
    }
  }

  lemma EraseTakesOff(s: Server, cfg: Config, i: nat)
    requires Enabled(s, Erase(i))
    ensures i !in Apply(s, cfg, Erase(i)).books.registered
  {
  }

  /** And then it leaves the books. */
  lemma Leaves(beh: nat -> Server, sched: nat -> Turn, cfg: Config, n: nat, i: nat) returns (m: nat)
    requires Behaviour(beh, sched, cfg) && Fair(beh, sched) && NobodyEnters(sched) && Draining(beh(0), cfg)
    requires i in beh(n).books.registered
    ensures n <= m && i !in beh(m).books.registered
  {
    m := Closes(beh, sched, cfg, n, i);
    if i in beh(m).books.registered {
      OnBooks(beh, sched, cfg, m, i);
      var e: nat :| Later(sched, Erase(i), m, e);
      TakenAt(beh, sched, cfg, Erase(i), m, e);
      EraseTakesOff(beh(e), cfg, i);
      m := e + 1;
    }
  }

  lemma ProperlySmaller<X>(a: set<X>, b: set<X>, x: X)
    requires a <= b && x in b && x !in a
    ensures |a| < |b|
  {
    assert b == a + (b - a) && x in b - a;
  }

  lemma {:induction false} AllLeave(beh: nat -> Server, sched: nat -> Turn, cfg: Config, n: nat) returns (m: nat)
    requires Behaviour(beh, sched, cfg) && Fair(beh, sched) && NobodyEnters(sched) && Draining(beh(0), cfg)
    ensures beh(m).books.registered == {}
    decreases |beh(n).books.registered|
  {
    if beh(n).books.registered == {} {
      m := n;
    } else {
      var i: nat :| i in beh(n).books.registered;
      var k := Leaves(beh, sched, cfg, n, i);
      BooksShrink(beh, sched, cfg, n, k);
      ProperlySmaller(beh(k).books.registered, beh(n).books.registered, i);
      m := AllLeave(beh, sched, cfg, k);
    }
  }

  /** The last one to leave the books finds nobody counted, and stops the I/O context. */
  lemma LastCheckStops(s: Server, cfg: Config)
    requires Draining(s, cfg) && s.books.registered == {} && Enabled(s, EndCheck)
    ensures Apply(s, cfg, EndCheck).stopped
  {
  }

  lemma StopsFromEnded(beh: nat -> Server, sched: nat -> Turn, cfg: Config, n: nat) returns (end: nat)
    requires Behaviour(beh, sched, cfg) && Fair(beh, sched) && NobodyEnters(sched) && Draining(beh(0), cfg)
    requires beh(n).books.registered == {} && beh(n).books.lock.Ended?
    ensures beh(end).stopped
  {
    var e: nat :| Later(sched, EndCheck, n, e);
    TakenAt(beh, sched, cfg, EndCheck, n, e);
    BooksShrink(beh, sched, cfg, n, e);
    StaysDraining(beh, sched, cfg, e);
    LastCheckStops(beh(e), cfg);
    end := e + 1;
  }

  lemma EmptyBooks(s: Server, cfg: Config)
    requires Draining(s, cfg) && s.books.registered == {}
    ensures s.stopped || s.books.lock.Erased? || s.books.lock.Ended?
  {
  }

  /**
    The drain ends. Once the signal handler's check is done and close has been called on everybody
    on the books, every fair behaviour in which nobody enters late stops the I/O context.
   */
  lemma DrainEnds(beh: nat -> Server, sched: nat -> Turn, cfg: Config) returns (end: nat)
    requires Behaviour(beh, sched, cfg) && Fair(beh, sched) && NobodyEnters(sched) && Draining(beh(0), cfg)
    ensures beh(end).stopped
  {
    var n := AllLeave(beh, sched, cfg, 0);
    StaysDraining(beh, sched, cfg, n);
    EmptyBooks(beh(n), cfg);
    if beh(n).stopped {
      end := n;
    } else if beh(n).books.lock.Ended? {
      end := StopsFromEnded(beh, sched, cfg, n);
    } else {
      var d: nat :| Later(sched, Decrement, n, d);
      TakenAt(beh, sched, cfg, Decrement, n, d);
      BooksShrink(beh, sched, cfg, n, d);
      end := StopsFromEnded(beh, sched, cfg, d + 1);
    }
  }
}
