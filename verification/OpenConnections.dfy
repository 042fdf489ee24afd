/**
  How many connections are open, as against how many are counted: a session that its read timeout
  has ended leaves the count, and keeps its socket and its read.
 */
module OpenConnections {
  import M = SessionModel
  import opened ServerModel
  import opened ServerProtocol
  import T = ServerTheorems

  /** The socket has not been closed, and a handler that will use it is still to run. */
  predicate IsOpen(x: M.Session) {
    !x.closed && M.Turns(x) > 0
  }

  /** The open connections, by the numbers of their sessions. */
  function Open(s: Server): set<nat> {
    set i: nat | i < |s.books.sessions| && IsOpen(s.books.sessions[i])
  }

  /** Those of them whose session the server has not been told the end of. */
  function OpenNotEnded(s: Server): set<nat> {
    set i: nat | i < |s.books.sessions| && IsOpen(s.books.sessions[i]) && !s.books.sessions[i].ended
  }

  lemma SubsetIsNoLarger<X>(a: set<X>, b: set<X>)
    requires a <= b
    ensures |a| <= |b|
  {
    assert b == a + (b - a);
  }

  /**
    What the limit does bound: with the lock free, the open connections whose sessions have not
    ended are all counted, so there are at most max_connections plus one per I/O thread of them.
   */
  lemma OpenAndNotEndedIsBounded(n: nat, cfg: Config, run: seq<Step>, s: Server)
    requires T.Reaches(n, cfg, run, s) && s.books.lock.Unlocked?
    ensures |OpenNotEnded(s)| <= s.books.active <= cfg.maxConnections + (if n == 0 then 1 else n) + 1
  {
    T.ReachesInv(n, cfg, run, s);
    forall i | i in OpenNotEnded(s) ensures i in s.books.registered {
      assert M.Inv(s.books.sessions[i], s.draining, cfg.lim);
    }
    SubsetIsNoLarger(OpenNotEnded(s), s.books.registered);
    T.ConnectionBound(n, cfg, run, s);
  }

  /** Told of its end by the timeout and off the books, with its socket open and its read pending. */
  predicate LeftOpen(x: M.Session) {
    x.ended && x.removed && !x.closed && x.turn.readOps == 1
  }

  ghost predicate AllLeftOpen(ss: seq<M.Session>) {
    forall i :: 0 <= i < |ss| ==> LeftOpen(ss[i])
  }

  /** Two handlers of one session: it reads, and the read times out. */
  lemma TimesOut(n: nat, cfg: Config, s: Server, k: nat) returns (s': Server)
    requires T.Reachable(n, cfg, s) && k < |s.books.sessions|
    requires s.books.sessions[k] == M.Apply(M.FRESH, M.Launch, s.draining, cfg.lim)
    ensures T.Reachable(n, cfg, s') && |s'.books.sessions| == |s.books.sessions|
    ensures var x := s'.books.sessions[k];
            && s' == s.(books := s.books.(sessions := s.books.sessions[k := x]))
            && x.ended && x.endCalls == 1 && !x.closed && x.turn.readOps == 1
  {
    T.Extend(n, cfg, s, Handler(k, M.Started));
    var s1 := Apply(s, cfg, Handler(k, M.Started));
    T.Extend(n, cfg, s1, Handler(k, M.Expired));
    s' := Apply(s1, cfg, Handler(k, M.Expired));
    assert s'.books.sessions == s.books.sessions[k := s'.books.sessions[k]];
  }

  /** The server carries out the end of one session. */
  lemma LeavesBooks(n: nat, cfg: Config, s: Server, k: nat) returns (s': Server)
    requires T.Reachable(n, cfg, s) && T.Serves(s, s.books.active)
    requires k < |s.books.sessions| && s.books.sessions[k].endCalls > 0
    ensures T.Reachable(n, cfg, s') && T.Serves(s', s.books.active - 1) && s'.acc == s.acc
    ensures s'.books.sessions
         == s.books.sessions[k := s.books.sessions[k].(endCalls := s.books.sessions[k].endCalls - 1, removed := true)]
  {
    T.Extend(n, cfg, s, Erase(k));
    var s1 := Apply(s, cfg, Erase(k));
    T.Extend(n, cfg, s1, Decrement);
    var s2 := Apply(s1, cfg, Decrement);
    T.Extend(n, cfg, s2, EndCheck);
    s' := Apply(s2, cfg, EndCheck);
  }

  /** One connection after the other arrives, times out and stays open; the count is back at zero each time. */
  lemma {:induction false} TimeOutOneByOne(n: nat, cfg: Config, k: nat) returns (s: Server)
    requires cfg.maxConnections > 0
    ensures T.Reachable(n, cfg, s) && T.Serves(s, 0) && T.Piled(s.acc.threads, 0) && |s.acc.threads| == Threads(n)
    ensures |s.books.sessions| == k && AllLeftOpen(s.books.sessions)
  {
    if k == 0 {
      s := T.ServeUpTo(n, cfg, 0);
    } else {
      var s0 := TimeOutOneByOne(n, cfg, k - 1);
      var s1 := T.Arrive(n, cfg, s0, 0);
      var s2 := T.Enter(n, cfg, s1, 0);
      var s3 := TimesOut(n, cfg, s2, k - 1);
      s := LeavesBooks(n, cfg, s3, k - 1);
    }
  }

  function Below(k: nat): (r: set<nat>)
    ensures |r| == k
    ensures forall i: nat :: i in r <==> i < k
  {
    if k == 0 then {} else Below(k - 1) + {k - 1}
  }

  /**
    The open connections have no bound at all: for every positive limit and every `k` there is a
    run after which `k` connections are open and waiting for a request, nobody is counted, and
    the server is about to admit the next one.
   */
  lemma OpenIsUnbounded(n: nat, cfg: Config, k: nat) returns (s: Server)
    requires cfg.maxConnections > 0
    ensures T.Reachable(n, cfg, s) && s.books.active == 0 && s.acc.admitting == 1
    ensures |Open(s)| == k
  {
    s := TimeOutOneByOne(n, cfg, k);
    assert Open(s) == Below(k);
  }

  /** So the documented limit on open connections is kept over all runs if and only if it is zero. */
  lemma LimitKeptIffZero(n: nat, cfg: Config)
    ensures (forall s :: T.Reachable(n, cfg, s) ==> |Open(s)| <= cfg.maxConnections) <==> cfg.maxConnections == 0
  {
    if cfg.maxConnections > 0 {
      var s := OpenIsUnbounded(n, cfg, cfg.maxConnections + 1);
      assert T.Reachable(n, cfg, s) && |Open(s)| > cfg.maxConnections;
    } else {
      forall s | T.Reachable(n, cfg, s) ensures |Open(s)| <= 0 {
        T.ZeroLeavesNobody(n, cfg, s);
        assert Open(s) == {};
      }
    }
  }
}
