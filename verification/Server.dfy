/**
  The server object: the handlers that touch its shared fields, written as the in-place updates
  they are. Each is proved to be the sequence of steps of `ServerProtocol` that it takes when
  no other thread comes between; the protocol is what says what happens when one does.
 */
module HttpServers {
  import M = SessionModel
  import opened ServerModel
  import P = ServerProtocol

  /** The steps of one undisturbed doAccept. */
  ghost function AfterDoAccept(s: P.Server, cfg: P.Config, t: nat): P.Server
    requires P.Enabled(s, P.TestFlags(t))
  {
    var s1 := P.Apply(s, cfg, P.TestFlags(t));
    if s1.acc.threads[t].Loading? then P.Apply(P.Apply(s1, cfg, P.LoadCount(t)), cfg, P.ArmAccept(t)) else s1
  }

  /** The steps of one undisturbed insertion. */
  ghost function AfterInsert(s: P.Server, cfg: P.Config, t: nat): P.Server
    requires P.Enabled(s, P.Insert(t))
  {
    P.Apply(P.Apply(P.Apply(s, cfg, P.Insert(t)), cfg, P.Count(t)), cfg, P.Launch(t))
  }

  lemma DoAcceptInv(s: P.Server, cfg: P.Config, t: nat)
    requires P.Enabled(s, P.TestFlags(t)) && P.Inv(s, cfg)
    ensures P.Inv(AfterDoAccept(s, cfg, t), cfg)
  {
    P.StepInv(s, cfg, P.TestFlags(t));
    var s1 := P.Apply(s, cfg, P.TestFlags(t));
    if s1.acc.threads[t].Loading? {
      P.StepInv(s1, cfg, P.LoadCount(t));
      P.StepInv(P.Apply(s1, cfg, P.LoadCount(t)), cfg, P.ArmAccept(t));
    }
  }

  lemma InsertInv(s: P.Server, cfg: P.Config, t: nat)
    requires P.Enabled(s, P.Insert(t)) && P.Inv(s, cfg)
    ensures P.Inv(AfterInsert(s, cfg, t), cfg)
  {
    P.StepInv(s, cfg, P.Insert(t));
    var s1 := P.Apply(s, cfg, P.Insert(t));
    P.StepInv(s1, cfg, P.Count(t));
    P.StepInv(P.Apply(s1, cfg, P.Count(t)), cfg, P.Launch(t));
  }

  /** The steps of one undisturbed accept handler. */
  ghost function AfterOnAccept(s: P.Server, cfg: P.Config, t: nat, result: AcceptResult): P.Server
    requires P.Enabled(s, P.AdmitCompletes(t, result)) && s.books.lock.Unlocked?
  {
    var s1 := P.Apply(s, cfg, P.AdmitCompletes(t, result));
    match result
    case Aborted => s1
    case Failed => AfterDoAccept(s1, cfg, t)
    case Accepted => AfterInsert(AfterDoAccept(s1, cfg, t), cfg, t)
  }

  lemma OnAcceptInv(s: P.Server, cfg: P.Config, t: nat, result: AcceptResult)
    requires P.Enabled(s, P.AdmitCompletes(t, result)) && s.books.lock.Unlocked? && P.Inv(s, cfg)
    ensures P.Inv(AfterOnAccept(s, cfg, t, result), cfg)
  {
    P.StepInv(s, cfg, P.AdmitCompletes(t, result));
    var s1 := P.Apply(s, cfg, P.AdmitCompletes(t, result));
    if !result.Aborted? {
      DoAcceptInv(s1, cfg, t);
    }
    if result.Accepted? {
      InsertInv(AfterDoAccept(s1, cfg, t), cfg, t);
    }
  }

  /** The steps of one undisturbed handler of a rejecting accept. */
  ghost function AfterOnReject(s: P.Server, cfg: P.Config, t: nat): P.Server
    requires P.Enabled(s, P.RejectCompletes(t))
  {
    AfterDoAccept(P.Apply(s, cfg, P.RejectCompletes(t)), cfg, t)
  }

  lemma OnRejectInv(s: P.Server, cfg: P.Config, t: nat)
    requires P.Enabled(s, P.RejectCompletes(t)) && P.Inv(s, cfg)
    ensures P.Inv(AfterOnReject(s, cfg, t), cfg)
  {
    P.StepInv(s, cfg, P.RejectCompletes(t));
    DoAcceptInv(P.Apply(s, cfg, P.RejectCompletes(t)), cfg, t);
  }

  /** The steps of one end of a session: erase, decrement and check, under one lock. */
  ghost function AfterEnd(s: P.Server, cfg: P.Config, i: nat): P.Server
    requires P.Enabled(s, P.Erase(i))
  {
    P.Apply(P.Apply(P.Apply(s, cfg, P.Erase(i)), cfg, P.Decrement), cfg, P.EndCheck)
  }

  lemma EndInv(s: P.Server, cfg: P.Config, i: nat)
    requires P.Enabled(s, P.Erase(i)) && P.Inv(s, cfg)
    ensures P.Inv(AfterEnd(s, cfg, i), cfg)
  {
    P.StepInv(s, cfg, P.Erase(i));
    var s1 := P.Apply(s, cfg, P.Erase(i));
    P.StepInv(s1, cfg, P.Decrement);
    P.StepInv(P.Apply(s1, cfg, P.Decrement), cfg, P.EndCheck);
  }

  /** The steps of the signal handler. */
  ghost function AfterSignal(s: P.Server, cfg: P.Config): P.Server
    requires s.phase.Serving? && s.books.lock.Unlocked?
  {
    P.Apply(P.Apply(s, cfg, P.Signal), cfg, P.SignalCheck)
  }

  lemma SignalInv(s: P.Server, cfg: P.Config)
    requires s.phase.Serving? && s.books.lock.Unlocked? && P.Inv(s, cfg)
    ensures P.Inv(AfterSignal(s, cfg), cfg)
  {
    P.StepInv(s, cfg, P.Signal);
    P.StepInv(P.Apply(s, cfg, P.Signal), cfg, P.SignalCheck);
  }

  /** close() called on one session: a handler is posted to its strand. */
  function Closed(x: M.Session): M.Session {
    M.Apply(x, M.ClosePosted, false, M.Limits(0, false))
  }

  /** close() called on every session of the snapshot. */
  ghost function CloseAll(sessions: seq<M.Session>, snapshot: set<nat>): (r: seq<M.Session>)
    ensures |r| == |sessions|
    ensures forall i :: 0 <= i < |sessions| ==> r[i] == if i in snapshot then Closed(sessions[i]) else sessions[i]
  {
    seq(|sessions|, i requires 0 <= i < |sessions| => if i in snapshot then Closed(sessions[i]) else sessions[i])
  }

  /** close() called once on each session of the snapshot, the others as they were. */
  ghost predicate ClosedOnce(before: seq<M.Session>, snapshot: set<nat>, after: seq<M.Session>) {
    && |after| == |before|
    && forall i :: 0 <= i < |before| ==>
         after[i] == if i in snapshot then before[i].(closes := before[i].closes + 1) else before[i]
  }

  lemma CloseAllClosesOnce(ss: seq<M.Session>, snapshot: set<nat>)
    ensures ClosedOnce(ss, snapshot, CloseAll(ss, snapshot))
  {
  }

  lemma CloseOneMore(sessions: seq<M.Session>, done: set<nat>, i: nat)
    requires i < |sessions| && i !in done
    ensures CloseAll(sessions, done)[i := Closed(sessions[i])] == CloseAll(sessions, done + {i})
  {
  }

  /** What the drain timer's handler leaves: everybody told to close, and the check made. */
  ghost function AfterTimer(s: P.Server): P.Server {
    P.CheckDrain(s.(books := s.books.(sessions := CloseAll(s.books.sessions, s.books.registered)), timer := P.Fired))
  }

  /** The forced close as the protocol takes it: one call of close() after the other. */
  lemma {:induction false} CloseThem(s: P.Server, cfg: P.Config) returns (run: seq<P.Step>)
    requires s.timer.Closing? && forall i :: i in s.timer.todo ==> i < |s.books.sessions|
    ensures P.IsRun(s, cfg, run) && |run| == |s.timer.todo|
    ensures forall i: nat :: i in s.timer.todo <==> P.TimerCloses(i) in run
    ensures forall st :: st in run ==> st.TimerCloses?
    ensures P.End(s, cfg, run)
         == s.(books := s.books.(sessions := CloseAll(s.books.sessions, s.timer.todo)), timer := P.Closing({}))
    decreases |s.timer.todo|
  {
    if s.timer.todo == {} {
      run := [];
      assert CloseAll(s.books.sessions, {}) == s.books.sessions;
    } else {
      var i: nat :| i in s.timer.todo;
      var s' := P.Apply(s, cfg, P.TimerCloses(i));
      CloseOneFirst(s, cfg, i);
      var later := CloseThem(s', cfg);
      run := [P.TimerCloses(i)] + later;
      assert run[1..] == later;
    }
  }

  lemma CloseOneFirst(s: P.Server, cfg: P.Config, i: nat)
    requires s.timer.Closing? && i in s.timer.todo && i < |s.books.sessions|
    ensures var s' := P.Apply(s, cfg, P.TimerCloses(i));
            && s' == s.(books := s.books.(sessions := s'.books.sessions), timer := P.Closing(s.timer.todo - {i}))
            && |s'.books.sessions| == |s.books.sessions|
            && CloseAll(s'.books.sessions, s.timer.todo - {i}) == CloseAll(s.books.sessions, s.timer.todo)
  {
    var s' := P.Apply(s, cfg, P.TimerCloses(i));
    assert s'.books.sessions == s.books.sessions[i := Closed(s.books.sessions[i])];
  }

  lemma RunInFront(s: P.Server, cfg: P.Config, st: P.Step, later: seq<P.Step>)
    requires P.Enabled(s, st) && P.IsRun(P.Apply(s, cfg, st), cfg, later)
    ensures P.IsRun(s, cfg, [st] + later)
    ensures P.End(s, cfg, [st] + later) == P.End(P.Apply(s, cfg, st), cfg, later)
  {
    assert ([st] + later)[1..] == later;
  }

  lemma SnapshotTaken(s: P.Server, cfg: P.Config)
    requires P.Enabled(s, P.TimerFires) && BooksInv(s.books)
    ensures P.Apply(s, cfg, P.TimerFires) == s.(timer := P.Closing(s.books.registered))
    ensures forall i :: i in s.books.registered ==> i < |s.books.sessions|
  {
  }

  /** With everybody told to close, the check is all that is left. */
  lemma CheckIsLast(s: P.Server, cfg: P.Config)
    requires P.Enabled(s, P.TimerFires)
    ensures var s' := s.(books := s.books.(sessions := CloseAll(s.books.sessions, s.books.registered)),
                         timer := P.Closing({}));
            P.Enabled(s', P.TimerCheck) && P.Apply(s', cfg, P.TimerCheck) == AfterTimer(s)
  {
  }

  /**
    The drain timer's handler is a run of the protocol: the snapshot, close() on each of its
    sessions, once, and the check.
   */
  lemma AfterTimerIsARun(s: P.Server, cfg: P.Config) returns (closes: seq<P.Step>, run: seq<P.Step>)
    requires P.Enabled(s, P.TimerFires) && BooksInv(s.books)
    ensures run == [P.TimerFires] + (closes + [P.TimerCheck])
    ensures |closes| == |s.books.registered|
    ensures forall i: nat :: i in s.books.registered <==> P.TimerCloses(i) in closes
    ensures P.IsRun(s, cfg, run) && P.End(s, cfg, run) == AfterTimer(s)
    ensures ClosedOnce(s.books.sessions, s.books.registered, AfterTimer(s).books.sessions)
  {
    SnapshotTaken(s, cfg);
    var s1 := s.(timer := P.Closing(s.books.registered));
    closes := CloseThem(s1, cfg);
    CheckIsLast(s, cfg);
    P.RunAppend(s1, cfg, closes, P.TimerCheck);
    RunInFront(s, cfg, P.TimerFires, closes + [P.TimerCheck]);
    run := [P.TimerFires] + (closes + [P.TimerCheck]);
    CloseAllClosesOnce(s.books.sessions, s.books.registered);
  }

  lemma ClosedInv(x: M.Session, draining: bool, lim: M.Limits)
    requires M.Inv(x, draining, lim)
    ensures M.Inv(Closed(x), draining, lim)
    ensures Closed(x).removed == x.removed && Closed(x).turn == x.turn
  {
  }

  lemma CloseAllInv(ss: seq<M.Session>, snapshot: set<nat>, draining: bool, lim: M.Limits)
    requires P.SessionsInv(ss, draining, lim)
    ensures P.SessionsInv(CloseAll(ss, snapshot), draining, lim)
    ensures forall i :: 0 <= i < |ss| ==>
              CloseAll(ss, snapshot)[i].removed == ss[i].removed && CloseAll(ss, snapshot)[i].turn == ss[i].turn
  {
    forall i | 0 <= i < |ss|
      ensures M.Inv(CloseAll(ss, snapshot)[i], draining, lim)
      ensures CloseAll(ss, snapshot)[i].removed == ss[i].removed && CloseAll(ss, snapshot)[i].turn == ss[i].turn
    {
      assert M.Inv(ss[i], draining, lim);
      ClosedInv(ss[i], draining, lim);
    }
  }

  lemma TimerInv(s: P.Server, cfg: P.Config)
    requires s.books.lock.Unlocked? && P.Inv(s, cfg)
    ensures P.Inv(AfterTimer(s), cfg)
  {
    CloseAllInv(s.books.sessions, s.books.registered, s.draining, cfg.lim);
    SameBooksInv(s.acc.threads, s.books, CloseAll(s.books.sessions, s.books.registered));
  }

  lemma SameBooksInv(ts: seq<Thread>, b: Books, ss: seq<M.Session>)
    requires BooksInv(b) && P.LaunchInv(ts, b) && |ss| == |b.sessions|
    requires forall i :: 0 <= i < |ss| ==> ss[i].removed == b.sessions[i].removed && ss[i].turn == b.sessions[i].turn
    ensures BooksInv(b.(sessions := ss)) && P.LaunchInv(ts, b.(sessions := ss))
  {
  }

  class HttpServer {
    const cfg: P.Config
    // What the threads and the acceptor are doing.
    var threads: seq<Thread>
    var admitting: nat
    var rejecting: nat
    // Guarded by the sessions lock.
    var sessions: seq<M.Session>
    var registered: set<nat>
    var active: int
    ghost var inserters: seq<nat>
    ghost var lock: Lock
    // Flags.
    var draining: bool
    var stopped: bool
    ghost var phase: P.Phase
    ghost var timer: P.DrainTimer

    ghost function View(): P.Server
      reads this
    {
      P.Server(Acceptor(threads, admitting, rejecting), Books(sessions, inserters, registered, active, lock),
               draining, stopped, phase, timer)
    }

    /** What holds whenever no thread is in the middle of a handler, and in fact also when one is. */
    ghost predicate Valid()
      reads this
    {
      P.Inv(View(), cfg)
    }

    /** The flags are as they were. */
    ghost predicate SameFlags(before: P.Server)
      reads this
    {
      draining == before.draining && stopped == before.stopped && phase == before.phase && timer == before.timer
    }

    /** One session more: in the set, counted, and with its first read posted; the others as they were. */
    ghost predicate OneMore(before: P.Server)
      reads this
    {
      var k := |before.books.sessions|;
      && |sessions| == k + 1 && sessions[..k] == before.books.sessions
      && registered == before.books.registered + {k} && active == before.books.active + 1 && lock.Unlocked?
      && sessions[k].turn.launched && sessions[k].turn.starts == 1 && !sessions[k].closed && !sessions[k].ended
    }

    // A handler that has taken the protocol's steps has kept its invariant.

    lemma KeepsDoAccept(before: P.Server, t: nat)
      requires P.Enabled(before, P.TestFlags(t)) && View() == AfterDoAccept(before, cfg, t)
      ensures P.Inv(before, cfg) ==> Valid()
    {
      if P.Inv(before, cfg) {
        DoAcceptInv(before, cfg, t);
      }
    }

    lemma KeepsInsert(before: P.Server, t: nat)
      requires P.Enabled(before, P.Insert(t)) && View() == AfterInsert(before, cfg, t)
      ensures P.Inv(before, cfg) ==> Valid()
    {
      if P.Inv(before, cfg) {
        InsertInv(before, cfg, t);
      }
    }

    lemma KeepsOnAccept(before: P.Server, t: nat, result: AcceptResult)
      requires P.Enabled(before, P.AdmitCompletes(t, result)) && before.books.lock.Unlocked?
      requires View() == AfterOnAccept(before, cfg, t, result)
      ensures P.Inv(before, cfg) ==> Valid()
    {
      if P.Inv(before, cfg) {
        OnAcceptInv(before, cfg, t, result);
      }
    }

    lemma KeepsOnReject(before: P.Server, t: nat)
      requires P.Enabled(before, P.RejectCompletes(t)) && View() == AfterOnReject(before, cfg, t)
      ensures P.Inv(before, cfg) ==> Valid()
    {
      if P.Inv(before, cfg) {
        OnRejectInv(before, cfg, t);
      }
    }

    lemma KeepsEnd(before: P.Server, i: nat)
      requires P.Enabled(before, P.Erase(i)) && View() == AfterEnd(before, cfg, i)
      ensures P.Inv(before, cfg) ==> Valid()
    {
      if P.Inv(before, cfg) {
        EndInv(before, cfg, i);
      }
    }

    lemma KeepsSignal(before: P.Server)
      requires before.phase.Serving? && before.books.lock.Unlocked? && View() == AfterSignal(before, cfg)
      ensures P.Inv(before, cfg) ==> Valid()
    {
      if P.Inv(before, cfg) {
        SignalInv(before, cfg);
      }
    }

    lemma KeepsTimer(before: P.Server)
      requires before.books.lock.Unlocked? && View() == AfterTimer(before)
      ensures P.Inv(before, cfg) ==> Valid()
    {
      if P.Inv(before, cfg) {
        TimerInv(before, cfg);
      }
    }

    constructor (cfg: P.Config, ioThreads: nat)
      ensures View() == P.Init(ioThreads) && this.cfg == cfg
      ensures |threads| == (if ioThreads == 0 then 1 else ioThreads) + 1
      ensures threads[0].Fresh? && forall t :: 1 <= t < |threads| ==> threads[t].Free?
      ensures Valid()
    {
      this.cfg := cfg;
      var numIoThreads := if ioThreads == 0 then 1 else ioThreads;
      threads := [Fresh(false)] + seq(numIoThreads, _ => Free);
      admitting, rejecting := 0, 0;
      sessions, registered, active, inserters, lock := [], {}, 0, [], Unlocked;
      draining, stopped, phase, timer := false, false, P.Serving, P.Waiting;
      new;
      P.InitInv(ioThreads, cfg);
    }

    /** doAccept on thread `t`, to the end: give up, or arm an accept that admits or one that rejects. */
    method DoAccept(t: nat)
      requires t < |threads| && threads[t].Fresh?
      modifies this
      ensures View() == AfterDoAccept(old(View()), cfg, t)
      ensures old(draining || stopped) ==> admitting == old(admitting) && rejecting == old(rejecting)
      ensures !old(draining || stopped) ==>
                if old(active) < cfg.maxConnections
                then admitting == old(admitting) + 1 && rejecting == old(rejecting)
                else admitting == old(admitting) && rejecting == old(rejecting) + 1
      ensures threads == old(threads)[t := if old(threads[t].socket) then Inserting else Free]
      ensures SameFlags(old(View())) && View().books == old(View()).books
      ensures old(Valid()) ==> Valid()
    {
      AcceptTurn(t);
      KeepsDoAccept(old(View()), t);
    }

    method AcceptTurn(t: nat)
      requires t < |threads| && threads[t].Fresh?
      modifies this
      ensures View() == AfterDoAccept(old(View()), cfg, t)
      ensures old(draining || stopped) ==> admitting == old(admitting) && rejecting == old(rejecting)
      ensures !old(draining || stopped) ==>
                if old(active) < cfg.maxConnections
                then admitting == old(admitting) + 1 && rejecting == old(rejecting)
                else admitting == old(admitting) && rejecting == old(rejecting) + 1
      ensures threads == old(threads)[t := if old(threads[t].socket) then Inserting else Free]
      ensures SameFlags(old(View())) && View().books == old(View()).books
    {
      ghost var before := threads;
      var next := if threads[t].socket then Inserting else Free;
      if stopped || draining {
        threads := threads[t := next];
        return;
      }
      ghost var admit := active < cfg.maxConnections;
      if active >= cfg.maxConnections {
        rejecting := rejecting + 1;
      } else {
        admitting := admitting + 1;
      }
      threads := threads[t := next];
      assert threads == before[t := Loading(before[t].socket)][t := Arming(before[t].socket, admit)][t := next];
    }

    /** The handler of an accept that may admit: re-arm first, and only then insert the session. */
    method OnAccept(t: nat, result: AcceptResult)
      requires P.Enabled(View(), P.AdmitCompletes(t, result)) && lock.Unlocked?
      modifies this
      ensures View() == AfterOnAccept(old(View()), cfg, t, result)
      // An aborted accept ends the chain, and so does draining; otherwise one more is armed.
      ensures if result.Aborted? || old(draining || stopped)
              then admitting == old(admitting) - 1 && rejecting == old(rejecting)
              else if old(active) < cfg.maxConnections
              then admitting == old(admitting) && rejecting == old(rejecting)
              else admitting == old(admitting) - 1 && rejecting == old(rejecting) + 1
      // An accepted connection becomes a session whether or not the server drains.
      ensures result.Accepted? ==> OneMore(old(View()))
      ensures !result.Accepted? ==> View().books == old(View()).books
      ensures SameFlags(old(View())) && threads == old(threads)[t := Free]
      ensures old(Valid()) ==> Valid()
    {
      CompleteAdmission(t, result);
      if !result.Aborted? {
        AcceptTurn(t);
        if result.Accepted? {
          EnterSession(t);
        }
      }
      KeepsOnAccept(old(View()), t, result);
    }

    method CompleteAdmission(t: nat, result: AcceptResult)
      requires P.Enabled(View(), P.AdmitCompletes(t, result))
      modifies this
      ensures View() == P.Apply(old(View()), cfg, P.AdmitCompletes(t, result))
    {
      admitting := admitting - 1;
      threads := threads[t := if result.Aborted? then Free else Fresh(result.Accepted?)];
    }

    /** The handler of an accept that rejects: the socket is closed, whatever the result. */
    method OnReject(t: nat)
      requires P.Enabled(View(), P.RejectCompletes(t))
      modifies this
      ensures View() == AfterOnReject(old(View()), cfg, t)
      ensures if old(draining || stopped) then admitting == old(admitting) && rejecting == old(rejecting) - 1
              else if old(active) < cfg.maxConnections
              then admitting == old(admitting) + 1 && rejecting == old(rejecting) - 1
              else admitting == old(admitting) && rejecting == old(rejecting)
      ensures View().books == old(View()).books && SameFlags(old(View())) && threads == old(threads)[t := Free]
      ensures old(Valid()) ==> Valid()
    {
      rejecting := rejecting - 1;
      threads := threads[t := Fresh(false)];
      AcceptTurn(t);
      KeepsOnReject(old(View()), t);
    }

    /** The rest of the accept handler: insert the session under the lock, count it, start it. */
    method InsertSession(t: nat)
      requires t < |threads| && threads[t].Inserting? && lock.Unlocked?
      modifies this
      ensures View() == AfterInsert(old(View()), cfg, t)
      ensures OneMore(old(View())) && SameFlags(old(View())) && threads == old(threads)[t := Free]
      ensures admitting == old(admitting) && rejecting == old(rejecting)
      ensures old(Valid()) ==> Valid()
    {
      EnterSession(t);
      KeepsInsert(old(View()), t);
    }

    method EnterSession(t: nat)
      requires t < |threads| && threads[t].Inserting? && lock.Unlocked?
      modifies this
      ensures View() == AfterInsert(old(View()), cfg, t)
      ensures OneMore(old(View())) && SameFlags(old(View())) && threads == old(threads)[t := Free]
      ensures admitting == old(admitting) && rejecting == old(rejecting)
    {
      EnterBooks(t);
      CountSession(t);
      StartSession(t);
    }

    /** m_sessions.insert, with the lock taken. */
    method EnterBooks(t: nat)
      requires P.Enabled(View(), P.Insert(t))
      modifies this
      ensures View() == P.Apply(old(View()), cfg, P.Insert(t))
    {
      threads := threads[t := Counting(|sessions|)];
      registered := registered + {|sessions|};
      sessions, inserters := sessions + [M.FRESH], inserters + [t];
      lock := Adding(t);
    }

    /** ++m_activeSessions, and the end of the locked block. */
    method CountSession(t: nat)
      requires P.Enabled(View(), P.Count(t))
      modifies this
      ensures View() == P.Apply(old(View()), cfg, P.Count(t))
    {
      threads := threads[t := Launching(threads[t].id)];
      active := active + 1;
      lock := Unlocked;
    }

    /** session->start(). */
    method StartSession(t: nat)
      requires P.Enabled(View(), P.Launch(t))
      modifies this
      ensures View() == P.Apply(old(View()), cfg, P.Launch(t))
    {
      var id := threads[t].id;
      sessions := sessions[id := M.Apply(sessions[id], M.Launch, draining, cfg.lim)];
      threads := threads[t := Free];
    }

    /** endSession for session `i`, whose strand has called it. */
    method EndSession(i: nat)
      requires i < |sessions| && sessions[i].endCalls > 0 && lock.Unlocked?
      modifies this
      ensures View() == AfterEnd(old(View()), cfg, i)
      ensures registered == old(registered) - {i} && active == old(active) - 1
      ensures sessions == old(sessions)[i := sessions[i]] && sessions[i].removed
      ensures stopped <==> old(stopped) || (draining && active == 0)
      ensures draining == old(draining) && lock.Unlocked? && View().acc == old(View()).acc
      ensures old(Valid()) ==> Valid()
    {
      TakeOffBooks(i);
      KeepsEnd(old(View()), i);
    }

    /** The locked block of endSession. */
    method TakeOffBooks(i: nat)
      requires i < |sessions| && sessions[i].endCalls > 0 && lock.Unlocked?
      modifies this
      ensures View() == AfterEnd(old(View()), cfg, i)
      ensures registered == old(registered) - {i} && active == old(active) - 1
      ensures sessions == old(sessions)[i := sessions[i]] && sessions[i].removed
      ensures stopped <==> old(stopped) || (draining && active == 0)
      ensures draining == old(draining) && lock.Unlocked? && View().acc == old(View()).acc
    {
      EraseSession(i);
      active := active - 1;
      lock := Ended;
      if draining {
        CheckDrainComplete();
      }
      lock := Unlocked;
    }

    /** m_sessions.erase, with the lock taken. */
    method EraseSession(i: nat)
      requires P.Enabled(View(), P.Erase(i))
      modifies this
      ensures View() == P.Apply(old(View()), cfg, P.Erase(i))
    {
      registered := registered - {i};
      sessions := sessions[i := sessions[i].(endCalls := sessions[i].endCalls - 1, removed := true)];
      lock := Erased;
    }

    method CheckDrainComplete()
      modifies this`stopped
      ensures View() == P.CheckDrain(old(View()))
      ensures stopped <==> old(stopped) || (draining && active == 0)
    {
      if draining && active == 0 {
        stopped := true;
      }
    }

    /** The signal handler: set the flag, arm the drain timer, then check under the lock. */
    method OnSignal()
      requires phase.Serving? && lock.Unlocked?
      modifies this
      ensures View() == AfterSignal(old(View()), cfg)
      ensures draining && (stopped <==> old(stopped) || active == 0)
      ensures View().books == old(View()).books && View().acc == old(View()).acc
      ensures old(Valid()) ==> Valid()
    {
      StartDraining();
      KeepsSignal(old(View()));
    }

    method StartDraining()
      requires phase.Serving? && lock.Unlocked?
      modifies this
      ensures View() == AfterSignal(old(View()), cfg)
      ensures draining && (stopped <==> old(stopped) || active == 0)
      ensures View().books == old(View()).books && View().acc == old(View()).acc
    {
      draining := true;
      phase := P.Signalled;
      CheckDrainComplete();
      phase := P.Checked;
    }

    /** The drain timer: snapshot the sessions under the lock, close them, and check again. */
    method OnDrainTimer(aborted: bool)
      requires lock.Unlocked? && forall i :: i in registered ==> i < |sessions|
      modifies this
      ensures aborted ==> View() == old(View())
      ensures !aborted ==> View() == AfterTimer(old(View()))
      ensures !aborted ==> timer == P.Fired && ClosedOnce(old(sessions), old(registered), sessions)
      ensures !aborted ==> (stopped <==> old(stopped) || (draining && active == 0))
      ensures registered == old(registered) && active == old(active) && draining == old(draining)
      ensures old(Valid()) ==> Valid()
    {
      if aborted {
        return;
      }
      timer := P.Fired;
      CloseSessions(registered);
      CheckDrainComplete();
      KeepsTimer(old(View()));
    }

    /** The loop over a snapshot, here and in shutdown(). */
    method CloseSessions(snapshot: set<nat>)
      requires forall i :: i in snapshot ==> i < |sessions|
      modifies this`sessions
      ensures sessions == CloseAll(old(sessions), snapshot)
      ensures ClosedOnce(old(sessions), snapshot, sessions)
    {
      var remaining := snapshot;
      assert sessions == CloseAll(sessions, {});
      while remaining != {}
        invariant remaining <= snapshot
        invariant sessions == CloseAll(old(sessions), snapshot - remaining)
        decreases |remaining|
      {
        var i :| i in remaining;
        CloseOneMore(old(sessions), snapshot - remaining, i);
        sessions := sessions[i := Closed(sessions[i])];
        assert snapshot - (remaining - {i}) == (snapshot - remaining) + {i};
        remaining := remaining - {i};
      }
      assert snapshot - remaining == snapshot;
      CloseAllClosesOnce(old(sessions), snapshot);
    }
  }
}
