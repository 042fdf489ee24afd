/** What accepting goes on to do: one accept after the other while serving, and hardly any more once draining. */
module LateSessions {
  import M = SessionModel
  import opened Sums
  import opened ServerModel
  import opened ServerProtocol
  import T = ServerTheorems

  // ----- Draining lets hardly anybody in -----

  /** How many sessions a thread may still insert, or let in by the accept it is about to arm. */
  function Prospect(t: Thread): nat {
    match t
    case Fresh(b) => if b then 1 else 0
    case Loading(b) => 1 + if b then 1 else 0
    case Arming(b, admit) => (if admit then 1 else 0) + if b then 1 else 0
    case Inserting => 1
    case _ => 0
  }

  function Prospects(a: Acceptor): nat {
    a.admitting + Sum(a.threads, Prospect)
  }

  lemma PutProspect(a: Acceptor, t: nat, x: Thread)
    requires t < |a.threads|
    ensures Prospects(Put(a, t, x)) + Prospect(a.threads[t]) == Prospects(a) + Prospect(x)
  {
    SumUpdate(a.threads, t, x, Prospect);
  }

  /** An accept handler, up to its doAccept. */
  lemma DoneProspects(a: Acceptor, t: nat, result: AcceptResult)
    requires t < |a.threads| && a.threads[t].Free?
    ensures a.admitting > 0 ==> Prospects(AdmitDone(a, t, result)) <= Prospects(a)
    ensures a.rejecting > 0 ==> Prospects(RejectDone(a, t)) <= Prospects(a)
  {
    SumUpdate(a.threads, t, if result.Aborted? then Free else Fresh(result.Accepted?), Prospect);
    SumUpdate(a.threads, t, Fresh(false), Prospect);
  }

  /** A doAccept, if it finds the server draining or stopped, or has not noticed. */
  lemma DecideProspects(a: Acceptor, t: nat, active: int, max: nat)
    requires t < |a.threads|
    ensures a.threads[t].Fresh? ==> Prospects(Test(a, t, true)) <= Prospects(a)
    ensures a.threads[t].Loading? ==> Prospects(Load(a, t, active, max)) <= Prospects(a)
    ensures a.threads[t].Arming? ==> Prospects(Arm(a, t)) <= Prospects(a)
  {
    if a.threads[t].Fresh? {
      SumUpdate(a.threads, t, Test(a, t, true).threads[t], Prospect);
    } else if a.threads[t].Loading? {
      SumUpdate(a.threads, t, Load(a, t, active, max).threads[t], Prospect);
    } else if a.threads[t].Arming? {
      SumUpdate(a.threads, t, Arm(a, t).threads[t], Prospect);
    }
  }

  /** While draining, no step adds to the sessions there are and the sessions there may still be. */
  lemma DrainingStep(s: Server, cfg: Config, st: Step)
    requires s.draining && Enabled(s, st)
    ensures |Apply(s, cfg, st).books.sessions| + Prospects(Apply(s, cfg, st).acc)
         <= |s.books.sessions| + Prospects(s.acc)
  {
    match st
    case AdmitCompletes(t, result) => DoneProspects(s.acc, t, result);
    case RejectCompletes(t) => DoneProspects(s.acc, t, Failed);
    case TestFlags(t) => DecideProspects(s.acc, t, 0, 0);
    case LoadCount(t) => DecideProspects(s.acc, t, s.books.active, cfg.maxConnections);
    case ArmAccept(t) => DecideProspects(s.acc, t, 0, 0);
    case Insert(t) => PutProspect(s.acc, t, Counting(|s.books.sessions|));
    case Count(t) => PutProspect(s.acc, t, Launching(s.acc.threads[t].id));
    case Launch(t) => PutProspect(s.acc, t, Free);
    case _ =>
  }

  lemma DrainingStays(s: Server, cfg: Config, st: Step)
    requires s.draining && Enabled(s, st)
    ensures Apply(s, cfg, st).draining
  {
  }

  /**
    From any moment of the drain on, the sessions inserted are at most those the threads and the
    outstanding accept hold in prospect at that moment, however long the drain lasts.
   */
  lemma {:induction false} FewEnterLate(s: Server, cfg: Config, run: seq<Step>)
    requires s.draining && IsRun(s, cfg, run)
    ensures |End(s, cfg, run).books.sessions| + Prospects(End(s, cfg, run).acc)
         <= |s.books.sessions| + Prospects(s.acc)
    decreases |run|
  {
    if run == [] {
    } else {
      DrainingStep(s, cfg, run[0]);
      DrainingStays(s, cfg, run[0]);
      FewEnterLate(Apply(s, cfg, run[0]), cfg, run[1..]);
    }
  }

  lemma {:induction false} ProspectsAreFew(ts: seq<Thread>)
    ensures Sum(ts, Prospect) <= |ts| + Sum(ts, Decides)
    decreases |ts|
  {
    if ts == [] {
    } else {
      ProspectsAreFew(ts[1..]);
    }
  }

  /** In numbers: after the signal at most one session per I/O thread, and one more, is still inserted. */
  lemma LateSessionsAreFew(n: nat, cfg: Config, before: seq<Step>, s: Server, run: seq<Step>)
    requires T.Reaches(n, cfg, before, s) && s.draining && IsRun(s, cfg, run)
    ensures |End(s, cfg, run).books.sessions| <= |s.books.sessions| + (if n == 0 then 1 else n) + 2
  {
    T.ReachesInv(n, cfg, before, s);
    FewEnterLate(s, cfg, run);
    ProspectsAreFew(s.acc.threads);
  }

  /** No accept is armed by a doAccept that begins while draining, nor after the I/O context was stopped. */
  lemma DrainingArmsNothing(s: Server, cfg: Config, t: nat)
    requires Enabled(s, TestFlags(t)) && (s.draining || s.stopped)
    ensures var s' := Apply(s, cfg, TestFlags(t));
            && s'.acc.admitting == s.acc.admitting && s'.acc.rejecting == s.acc.rejecting
            && !Enabled(s', LoadCount(t)) && !Enabled(s', ArmAccept(t))
  {
  }

  // ----- Serving accepts for ever -----

  /** Exactly one accept is outstanding or being decided on. */
  ghost predicate Listens(s: Server) {
    s.acc.admitting + s.acc.rejecting + Sum(s.acc.threads, Decides) == 1
  }

  predicate IsAbort(st: Step) {
    st.AdmitCompletes? && st.result.Aborted?
  }

  ghost predicate NoAbort(run: seq<Step>) {
    forall st :: st in run ==> !IsAbort(st)
  }

  lemma ServingStep(s: Server, cfg: Config, st: Step)
    requires Listens(s) && Enabled(s, st) && !IsAbort(st) && !s.draining && !s.stopped
    ensures Listens(Apply(s, cfg, st))
  {
    var ts, ts' := s.acc.threads, Apply(s, cfg, st).acc.threads;
    match st
    case AdmitCompletes(t, _) => SumUpdate(ts, t, ts'[t], Decides);
    case RejectCompletes(t) => SumUpdate(ts, t, ts'[t], Decides);
    case TestFlags(t) => SumUpdate(ts, t, ts'[t], Decides);
    case LoadCount(t) => SumUpdate(ts, t, ts'[t], Decides);
    case ArmAccept(t) => SumUpdate(ts, t, ts'[t], Decides);
    case Insert(t) => SumUpdate(ts, t, ts'[t], Decides);
    case Count(t) => SumUpdate(ts, t, ts'[t], Decides);
    case Launch(t) => SumUpdate(ts, t, ts'[t], Decides);
    case _ =>
  }

  lemma {:induction false} DrainingThroughout(s: Server, cfg: Config, run: seq<Step>)
    requires IsRun(s, cfg, run) && s.draining
    ensures End(s, cfg, run).draining
    decreases |run|
  {
    if run == [] {
    } else {
      DrainingStays(s, cfg, run[0]);
      DrainingThroughout(Apply(s, cfg, run[0]), cfg, run[1..]);
    }
  }

  lemma {:induction false} ServingRun(s: Server, cfg: Config, run: seq<Step>)
    requires Listens(s) && Inv(s, cfg) && IsRun(s, cfg, run) && NoAbort(run)
    requires !End(s, cfg, run).draining
    ensures Listens(End(s, cfg, run))
    decreases |run|
  {
    if run == [] {
    } else {
      var s' := Apply(s, cfg, run[0]);
      if s.draining {
        DrainingThroughout(s, cfg, run);
      }
      assert !IsAbort(run[0]);
      ServingStep(s, cfg, run[0]);
      StepInv(s, cfg, run[0]);
      ServingRun(s', cfg, run[1..]);
    }
  }

  /**
    The server goes on accepting: over every run, as long as no accept is aborted and no signal
    has come, whatever accepts failed or were turned away, exactly one accept is outstanding
    whenever no thread is deciding on one.
   */
  lemma ServerGoesOnAccepting(n: nat, cfg: Config, run: seq<Step>, s: Server)
    requires T.Reaches(n, cfg, run, s) && NoAbort(run) && !s.draining
    requires forall t :: 0 <= t < |s.acc.threads| ==> Decides(s.acc.threads[t]) == 0
    ensures s.acc.admitting + s.acc.rejecting == 1
  {
    InitInv(n, cfg);
    SumIsZero(Init(n).acc.threads[1..], Decides);
    ServingRun(Init(n), cfg, run);
    SumIsZero(s.acc.threads, Decides);
  }
}
