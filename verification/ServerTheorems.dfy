/** What the server keeps in every reachable state, and how far its connection count really goes. */
module ServerTheorems {
  import M = SessionModel
  import opened Sums
  import opened ServerModel
  import opened ServerProtocol

  ghost predicate Reaches(n: nat, cfg: Config, run: seq<Step>, s: Server) {
    IsRun(Init(n), cfg, run) && s == End(Init(n), cfg, run)
  }

  lemma {:induction false} ThreadCountStays(s: Server, cfg: Config, run: seq<Step>)
    requires IsRun(s, cfg, run)
    ensures |End(s, cfg, run).acc.threads| == |s.acc.threads|
    decreases |run|
  {
    if run == [] {
    } else {
      ThreadCountStays(Apply(s, cfg, run[0]), cfg, run[1..]);
    }
  }

  lemma ReachesInv(n: nat, cfg: Config, run: seq<Step>, s: Server)
    requires Reaches(n, cfg, run, s)
    ensures Inv(s, cfg) && |s.acc.threads| == Threads(n)
  {
    InitInv(n, cfg);
    RunInv(Init(n), cfg, run);
    ThreadCountStays(Init(n), cfg, run);
  }

  /**
    The connection bound that holds: at most one accept outstanding, and at most
    max_connections plus one session per I/O thread active.
   */
  lemma ConnectionBound(n: nat, cfg: Config, run: seq<Step>, s: Server)
    requires Reaches(n, cfg, run, s)
    ensures s.acc.admitting + s.acc.rejecting <= 1
    ensures 0 <= s.books.active <= cfg.maxConnections + (if n == 0 then 1 else n) + 1
  {
    ReachesInv(n, cfg, run, s);
  }

  /** Whenever the sessions lock is free, the count is the size of the set: inserted and not yet ended. */
  lemma CountIsExact(n: nat, cfg: Config, run: seq<Step>, s: Server)
    requires Reaches(n, cfg, run, s) && s.books.lock.Unlocked?
    ensures s.books.active == |s.books.registered|
    ensures s.books.registered == set i | 0 <= i < |s.books.sessions| && !s.books.sessions[i].removed
  {
    ReachesInv(n, cfg, run, s);
  }

  /** No decrement ever finds the count at zero, and no erase finds its session gone. */
  lemma NoUnderflow(n: nat, cfg: Config, run: seq<Step>, s: Server, st: Step)
    requires Reaches(n, cfg, run, s) && Enabled(s, st)
    ensures st.Decrement? ==> s.books.active > 0
    ensures st.Erase? ==> st.i in s.books.registered
  {
    ReachesInv(n, cfg, run, s);
    if st.Erase? {
      assert M.Inv(s.books.sessions[st.i], s.draining, cfg.lim);
    }
  }

  /**
    No drain completion is lost: after the signal handler's check, a free lock and a count of
    zero mean that the I/O context has been stopped.
   */
  lemma DrainCompletes(n: nat, cfg: Config, run: seq<Step>, s: Server)
    requires Reaches(n, cfg, run, s)
    requires s.phase.Checked? && s.books.lock.Unlocked? && s.books.active == 0
    ensures s.stopped
  {
    ReachesInv(n, cfg, run, s);
  }

  /** And it is never stopped early: only while draining, with no session counted. */
  lemma StopsOnlyWhenDrained(n: nat, cfg: Config, run: seq<Step>, s: Server, st: Step)
    requires Reaches(n, cfg, run, s) && Enabled(s, st)
    requires !s.stopped && Apply(s, cfg, st).stopped
    ensures s.draining && s.books.active == 0
  {
  }

  /**
    Every connection of every run keeps the discipline of a single one: one turn at a time,
    told of its end once, requests within the limit, and at most one of them after the drain.
   */
  lemma EverySessionBehaves(n: nat, cfg: Config, run: seq<Step>, s: Server, i: nat)
    requires Reaches(n, cfg, run, s) && i < |s.books.sessions|
    ensures var x := s.books.sessions[i];
            && M.Turns(x) <= 1
            && x.endCalls + (if x.removed then 1 else 0) == (if x.ended then 1 else 0)
            && x.requests <= (if cfg.lim.enabled && cfg.lim.maxRequests > 1 then cfg.lim.maxRequests else 1)
            && x.tally.late <= 1
            // Until its end it has exactly one operation under way, with its timer running if that is a read.
            && (x.ended || M.Turns(x) == 1)
            && (x.ended || (x.armed <==> x.turn.readOps > 0))
            // A session on the books has something under way, or owes the server its end.
            && (i in s.books.registered ==> M.Turns(x) == 1 || x.endCalls == 1)
  {
    ReachesInv(n, cfg, run, s);
    assert M.Inv(s.books.sessions[i], s.draining, cfg.lim);
  }

  // ----- The bound is attained -----

  ghost predicate Reachable(n: nat, cfg: Config, s: Server) {
    exists run :: Reaches(n, cfg, run, s)
  }

  lemma Extend(n: nat, cfg: Config, s: Server, st: Step)
    requires Reachable(n, cfg, s) && Enabled(s, st)
    ensures Reachable(n, cfg, Apply(s, cfg, st))
  {
    var run :| Reaches(n, cfg, run, s);
    RunAppend(Init(n), cfg, run, st);
    assert Reaches(n, cfg, run + [st], Apply(s, cfg, st));
  }

  /** Serving, an accept for a session outstanding, the lock free, `k` sessions counted. */
  ghost predicate Serves(s: Server, k: int) {
    && !s.draining && !s.stopped && s.timer.Waiting? && s.books.lock.Unlocked? && s.books.active == k
    && s.acc.admitting == 1 && s.acc.rejecting == 0
  }

  /** A thread decides on the next accept: from the start of doAccept to the re-armed accept. */
  lemma Decide(n: nat, cfg: Config, s: Server, t: nat) returns (s': Server)
    requires Reachable(n, cfg, s) && t < |s.acc.threads| && s.acc.threads[t].Fresh?
    requires !s.draining && !s.stopped
    ensures Reachable(n, cfg, s')
    ensures var admit := s.books.active < cfg.maxConnections;
            s' == s.(acc := Acceptor(s.acc.threads[t := AfterAccept(s.acc.threads[t].socket)],
                                     s.acc.admitting + (if admit then 1 else 0),
                                     s.acc.rejecting + (if admit then 0 else 1)))
  {
    Extend(n, cfg, s, TestFlags(t));
    var s1 := Apply(s, cfg, TestFlags(t));
    Extend(n, cfg, s1, LoadCount(t));
    var s2 := Apply(s1, cfg, LoadCount(t));
    Extend(n, cfg, s2, ArmAccept(t));
    s' := Apply(s2, cfg, ArmAccept(t));
    assert s'.acc.threads == s.acc.threads[t := AfterAccept(s.acc.threads[t].socket)];
  }

  /** A connection arrives, and its thread re-arms the accept before inserting the session. */
  lemma Arrive(n: nat, cfg: Config, s: Server, t: nat) returns (s': Server)
    requires Reachable(n, cfg, s) && Serves(s, s.books.active)
    requires t < |s.acc.threads| && s.acc.threads[t].Free?
    ensures Reachable(n, cfg, s')
    ensures var admit := s.books.active < cfg.maxConnections;
            s' == s.(acc := Acceptor(s.acc.threads[t := Inserting], if admit then 1 else 0, if admit then 0 else 1))
  {
    Extend(n, cfg, s, AdmitCompletes(t, Accepted));
    var s1 := Apply(s, cfg, AdmitCompletes(t, Accepted));
    s' := Decide(n, cfg, s1, t);
    assert s1.acc.threads[t := Inserting] == s.acc.threads[t := Inserting];
  }

  /** The thread inserts, counts and starts its session. */
  lemma Enter(n: nat, cfg: Config, s: Server, t: nat) returns (s': Server)
    requires Reachable(n, cfg, s) && t < |s.acc.threads| && s.acc.threads[t].Inserting? && s.books.lock.Unlocked?
    ensures Reachable(n, cfg, s')
    ensures s'.acc == s.acc.(threads := s.acc.threads[t := Free])
    ensures s'.books.active == s.books.active + 1 && s'.books.lock.Unlocked?
    ensures s'.draining == s.draining && s'.stopped == s.stopped && s'.timer == s.timer
    ensures s'.books.sessions == s.books.sessions + [M.Apply(M.FRESH, M.Launch, s.draining, cfg.lim)]
    ensures |s.books.sessions| in s'.books.registered
  {
    Extend(n, cfg, s, Insert(t));
    var s1 := Apply(s, cfg, Insert(t));
    Extend(n, cfg, s1, Count(t));
    var s2 := Apply(s1, cfg, Count(t));
    Extend(n, cfg, s2, Launch(t));
    s' := Apply(s2, cfg, Launch(t));
    assert s'.acc.threads == s.acc.threads[t := Free];
  }

  /** The first `j` threads are inserting, the others free. */
  ghost predicate Piled(ts: seq<Thread>, j: nat) {
    forall t :: 0 <= t < |ts| ==> ts[t] == if t < j then Inserting else Free
  }

  /** The first `j` threads are free, the others inserting. */
  ghost predicate Unpiled(ts: seq<Thread>, j: nat) {
    forall t :: 0 <= t < |ts| ==> ts[t] == if t < j then Free else Inserting
  }

  lemma {:induction false} ServeUpTo(n: nat, cfg: Config, k: nat) returns (s: Server)
    requires k < cfg.maxConnections
    ensures Reachable(n, cfg, s) && Serves(s, k) && Piled(s.acc.threads, 0) && |s.acc.threads| == Threads(n)
    ensures |s.books.sessions| == k
  {
    if k == 0 {
      assert Reaches(n, cfg, [], Init(n));
      s := Decide(n, cfg, Init(n), 0);
    } else {
      var s0 := ServeUpTo(n, cfg, k - 1);
      var s1 := Arrive(n, cfg, s0, 0);
      s := Enter(n, cfg, s1, 0);
    }
  }

  lemma {:induction false} PileUp(n: nat, cfg: Config, j: nat) returns (s: Server)
    requires cfg.maxConnections > 0 && j <= Threads(n)
    ensures Reachable(n, cfg, s) && Serves(s, cfg.maxConnections - 1)
    ensures Piled(s.acc.threads, j) && |s.acc.threads| == Threads(n)
  {
    if j == 0 {
      s := ServeUpTo(n, cfg, cfg.maxConnections - 1);
    } else {
      var s0 := PileUp(n, cfg, j - 1);
      s := Arrive(n, cfg, s0, j - 1);
    }
  }

  lemma {:induction false} Unpile(n: nat, cfg: Config, j: nat) returns (s: Server)
    requires cfg.maxConnections > 0 && j <= Threads(n)
    ensures Reachable(n, cfg, s) && Serves(s, cfg.maxConnections - 1 + j)
    ensures Unpiled(s.acc.threads, j) && |s.acc.threads| == Threads(n)
  {
    if j == 0 {
      s := PileUp(n, cfg, Threads(n));
    } else {
      var s0 := Unpile(n, cfg, j - 1);
      s := Enter(n, cfg, s0, j - 1);
    }
  }

  /**
    The limit itself is not kept: for every positive max_connections and every number of I/O
    threads there is a run in which the count reaches max_connections plus one per thread. All
    threads re-arm while the count is one short of the limit, and insert afterwards; the
    accept armed by the last of them lets one more in.
   */
  lemma BoundIsAttained(n: nat, cfg: Config) returns (s: Server)
    requires cfg.maxConnections > 0
    ensures Reachable(n, cfg, s) && s.books.active == cfg.maxConnections + (if n == 0 then 1 else n) + 1
  {
    var s0 := Unpile(n, cfg, Threads(n));
    var s1 := Arrive(n, cfg, s0, 0);
    s := Enter(n, cfg, s1, 0);
  }

  ghost predicate Harmless(t: Thread) {
    HasSocket(t) == 0 && ArmsAdmission(t) == 0 && !t.Launching?
  }

  /** Nothing admitted, and nothing on its way in. */
  ghost predicate NobodyIn(s: Server) {
    && s.books.active == 0 && s.books.sessions == [] && s.acc.admitting == 0
    && forall t :: 0 <= t < |s.acc.threads| ==> Harmless(s.acc.threads[t])
  }

  lemma NobodyInStays(s: Server, cfg: Config, st: Step)
    requires NobodyIn(s) && cfg.maxConnections == 0 && Enabled(s, st) && !s.books.lock.Erased?
    ensures NobodyIn(Apply(s, cfg, st)) && !Apply(s, cfg, st).books.lock.Erased?
  {
  }

  /** With a limit of zero, and only then, nobody is ever let in. */
  lemma {:induction false} ZeroAdmitsNobody(s: Server, cfg: Config, run: seq<Step>)
    requires NobodyIn(s) && cfg.maxConnections == 0 && IsRun(s, cfg, run) && !s.books.lock.Erased?
    ensures End(s, cfg, run).books.active == 0 && End(s, cfg, run).books.sessions == []
    decreases |run|
  {
    if run == [] {
    } else {
      NobodyInStays(s, cfg, run[0]);
      ZeroAdmitsNobody(Apply(s, cfg, run[0]), cfg, run[1..]);
    }
  }

  /** So the count stays within the configured limit over all runs if and only if that is zero. */
  lemma CountLimitKeptIffZero(n: nat, cfg: Config)
    ensures (forall s :: Reachable(n, cfg, s) ==> s.books.active <= cfg.maxConnections) <==> cfg.maxConnections == 0
  {
    if cfg.maxConnections > 0 {
      var s := BoundIsAttained(n, cfg);
      assert Reachable(n, cfg, s) && s.books.active > cfg.maxConnections;
    } else {
      forall s | Reachable(n, cfg, s) ensures s.books.active <= cfg.maxConnections {
        ZeroLeavesNobody(n, cfg, s);
      }
    }
  }

  lemma ZeroLeavesNobody(n: nat, cfg: Config, s: Server)
    requires cfg.maxConnections == 0 && Reachable(n, cfg, s)
    ensures s.books.active == 0 && s.books.sessions == []
  {
    var run :| Reaches(n, cfg, run, s);
    ZeroAdmitsNobody(Init(n), cfg, run);
  }
}
