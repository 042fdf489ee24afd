/** The whole server as a step system, its invariant, and what follows for every run. */
module ServerProtocol {
  import M = SessionModel
  import opened Sums
  import opened ServerModel

  /** max_connections and the session limits. */
  datatype Config = Config(maxConnections: nat, lim: M.Limits)

  datatype Phase =
    | Serving
    | Signalled   // m_draining is set; the locked check is still to come
    | Checked     // the signal handler's locked check is done

  datatype DrainTimer =
    | Waiting
    | Closing(todo: set<nat>)   // snapshot taken, close() called on the rest of it
    | Fired

  datatype Server = Server(
    acc: Acceptor,
    books: Books,
    draining: bool,   // m_draining
    stopped: bool,    // m_ioc.stop() has been called
    phase: Phase,
    timer: DrainTimer
  )

  datatype Step =
    | AdmitCompletes(t: nat, result: AcceptResult)
    | RejectCompletes(t: nat)
    | TestFlags(t: nat)
    | LoadCount(t: nat)
    | ArmAccept(t: nat)
    | Insert(t: nat)
    | Count(t: nat)
    | Launch(t: nat)
    | Handler(i: nat, ev: M.Event)
    | Erase(i: nat)
    | Decrement
    | EndCheck
    | Signal
    | SignalCheck
    | TimerFires
    | TimerCloses(i: nat)
    | TimerCheck

  /** `n` I/O threads are asked for; the main thread, which is calling doAccept, runs too. */
  function Threads(n: nat): nat {
    (if n == 0 then 1 else n) + 1
  }

  function Init(n: nat): Server {
    Server(Acceptor([Fresh(false)] + seq(Threads(n) - 1, _ => Free), 0, 0),
           Books([], [], {}, 0, Unlocked), false, false, Serving, Waiting)
  }

  predicate At(s: Server, t: nat, th: Thread) {
    t < |s.acc.threads| && s.acc.threads[t] == th
  }

  predicate Enabled(s: Server, st: Step) {
    var ts := s.acc.threads;
    match st
    case AdmitCompletes(t, _) => s.acc.admitting > 0 && At(s, t, Free)
    case RejectCompletes(t) => s.acc.rejecting > 0 && At(s, t, Free)
    case TestFlags(t) => t < |ts| && ts[t].Fresh?
    case LoadCount(t) => t < |ts| && ts[t].Loading?
    case ArmAccept(t) => t < |ts| && ts[t].Arming?
    case Insert(t) => At(s, t, Inserting) && s.books.lock.Unlocked?
    case Count(t) => t < |ts| && ts[t].Counting? && s.books.lock == Adding(t)
    case Launch(t) => t < |ts| && ts[t].Launching? && ts[t].id < |s.books.sessions|
    case Handler(i, ev) =>
      i < |s.books.sessions| && M.Enabled(s.books.sessions[i], ev) && !ev.Launch? && !ev.ClosePosted?
    case Erase(i) => s.books.lock.Unlocked? && i < |s.books.sessions| && s.books.sessions[i].endCalls > 0
    case Decrement => s.books.lock.Erased?
    case EndCheck => s.books.lock.Ended?
    case Signal => s.phase.Serving?
    case SignalCheck => s.phase.Signalled? && s.books.lock.Unlocked?
    case TimerFires => !s.phase.Serving? && s.timer.Waiting? && s.books.lock.Unlocked?
    case TimerCloses(i) => s.timer.Closing? && i in s.timer.todo && i < |s.books.sessions|
    case TimerCheck => s.timer == Closing({}) && s.books.lock.Unlocked?
  }

  /** checkDrainComplete, with the lock held. */
  function CheckDrain(s: Server): Server {
    if s.draining && s.books.active == 0 then s.(stopped := true) else s
  }

  function OnSession(s: Server, cfg: Config, i: nat, ev: M.Event): Server
    requires i < |s.books.sessions| && M.Enabled(s.books.sessions[i], ev)
  {
    var x := M.Apply(s.books.sessions[i], ev, s.draining, cfg.lim);
    s.(books := s.books.(sessions := s.books.sessions[i := x]))
  }

  function Apply(s: Server, cfg: Config, st: Step): Server
    requires Enabled(s, st)
  {
    match st
    case AdmitCompletes(t, result) => s.(acc := AdmitDone(s.acc, t, result))
    case RejectCompletes(t) => s.(acc := RejectDone(s.acc, t))
    case TestFlags(t) => s.(acc := Test(s.acc, t, s.stopped || s.draining))
    case LoadCount(t) => s.(acc := Load(s.acc, t, s.books.active, cfg.maxConnections))
    case ArmAccept(t) => s.(acc := Arm(s.acc, t))
    case Insert(t) => s.(acc := Put(s.acc, t, Counting(|s.books.sessions|)), books := InsertBook(s.books, t))
    case Count(t) => s.(acc := Put(s.acc, t, Launching(s.acc.threads[t].id)), books := CountBook(s.books))
    case Launch(t) => OnSession(s, cfg, s.acc.threads[t].id, M.Launch).(acc := Put(s.acc, t, Free))
    case Handler(i, ev) => OnSession(s, cfg, i, ev)
    case Erase(i) => s.(books := EraseBook(s.books, i))
    case Decrement => s.(books := DecrementBook(s.books))
    case EndCheck => CheckDrain(s).(books := s.books.(lock := Unlocked))
    case Signal => s.(draining := true, phase := Signalled)
    case SignalCheck => CheckDrain(s).(phase := Checked)
    case TimerFires => s.(timer := Closing(s.books.registered))
    case TimerCloses(i) => OnSession(s, cfg, i, M.ClosePosted).(timer := Closing(s.timer.todo - {i}))
    case TimerCheck => CheckDrain(s).(timer := Fired)
  }

  // ----- Launching: every session is started once, by the thread that inserted it -----

  ghost predicate LaunchInv(ts: seq<Thread>, b: Books) {
    forall t {:trigger ts[t]} :: 0 <= t < |ts| && (ts[t].Counting? || ts[t].Launching?) ==>
      ts[t].id < |b.sessions| && ts[t].id < |b.inserters|
      && b.inserters[ts[t].id] == t && !b.sessions[ts[t].id].turn.launched
  }

  // ----- Draining -----

  /**
    Draining is set exactly from the signal on; stop is only called while draining; and once
    the handler's check is done, a count of zero outside an unfinished end means stopped.
   */
  ghost predicate DrainInv(s: Server) {
    && (s.draining <==> !s.phase.Serving?)
    && (s.stopped ==> s.draining)
    && (s.phase.Checked? && s.books.active == 0 && !s.books.lock.Ended? ==> s.stopped)
  }

  ghost predicate SessionsInv(ss: seq<M.Session>, draining: bool, lim: M.Limits) {
    forall i {:trigger ss[i]} :: 0 <= i < |ss| ==> M.Inv(ss[i], draining, lim)
  }

  ghost predicate Inv(s: Server, cfg: Config) {
    && AcceptInv(s.acc, s.books.active, cfg.maxConnections)
    && BooksInv(s.books)
    && LaunchInv(s.acc.threads, s.books)
    && DrainInv(s)
    && SessionsInv(s.books.sessions, s.draining, cfg.lim)
  }

  lemma InitInv(n: nat, cfg: Config)
    ensures Inv(Init(n), cfg)
  {
    var ts := Init(n).acc.threads;
    SumIsZero(ts[1..], HasSocket);
    SumIsZero(ts[1..], Decides);
    SumIsZero(ts[1..], ArmsAdmission);
  }

  // ----- One lemma per part of the invariant -----

  lemma StepAccept(s: Server, cfg: Config, st: Step)
    requires Inv(s, cfg) && Enabled(s, st)
    ensures AcceptInv(Apply(s, cfg, st).acc, Apply(s, cfg, st).books.active, cfg.maxConnections)
  {
    var a, n, max := s.acc, s.books.active, cfg.maxConnections;
    match st
    case AdmitCompletes(t, result) => AdmitDoneInv(a, t, result, n, max);
    case RejectCompletes(t) => RejectDoneInv(a, t, n, max);
    case TestFlags(t) => TestInv(a, t, s.stopped || s.draining, n, max);
    case LoadCount(t) => LoadInv(a, t, n, max);
    case ArmAccept(t) => ArmInv(a, t, n, max);
    case Insert(t) => InsertMoves(a, t, |s.books.sessions|, n, max);
    case Count(t) => InsertMoves(a, t, a.threads[t].id, n, max);
    case Launch(t) => InsertMoves(a, t, 0, n, max);
    case _ =>
  }

  /** A handler only touches its own session, and keeps it on or off the books as it was. */
  lemma OnSessionBooks(s: Server, cfg: Config, i: nat, ev: M.Event)
    requires BooksInv(s.books) && i < |s.books.sessions| && M.Enabled(s.books.sessions[i], ev)
    ensures BooksInv(OnSession(s, cfg, i, ev).books)
  {
    M.HandlersKeepBooks(s.books.sessions[i], ev, s.draining, cfg.lim);
  }

  lemma StepBooks(s: Server, cfg: Config, st: Step)
    requires Inv(s, cfg) && Enabled(s, st)
    ensures BooksInv(Apply(s, cfg, st).books)
  {
    match st
    case Insert(t) => InsertBookInv(s.books, t);
    case Launch(t) => OnSessionBooks(s, cfg, s.acc.threads[t].id, M.Launch);
    case Handler(i, ev) => OnSessionBooks(s, cfg, i, ev);
    case TimerCloses(i) => OnSessionBooks(s, cfg, i, M.ClosePosted);
    case Erase(i) =>
      assert M.Inv(s.books.sessions[i], s.draining, cfg.lim);
      EraseBookInv(s.books, i);
    case _ =>
  }

  lemma StepDrain(s: Server, cfg: Config, st: Step)
    requires Inv(s, cfg) && Enabled(s, st)
    ensures DrainInv(Apply(s, cfg, st))
  {
  }

  lemma LaunchPut(ts: seq<Thread>, b: Books, t: nat, x: Thread)
    requires LaunchInv(ts, b) && t < |ts|
    requires (x.Counting? || x.Launching?) ==> (ts[t].Counting? || ts[t].Launching?) && x.id == ts[t].id
    ensures LaunchInv(ts[t := x], b)
  {
  }

  lemma LaunchInsert(ts: seq<Thread>, b: Books, t: nat)
    requires LaunchInv(ts, b) && t < |ts| && |b.inserters| == |b.sessions|
    ensures LaunchInv(ts[t := Counting(|b.sessions|)], InsertBook(b, t))
  {
  }

  /** A session may change as long as it is not started, or started by the thread that leaves it. */
  lemma LaunchSession(ts: seq<Thread>, b: Books, i: nat, x: M.Session)
    requires LaunchInv(ts, b) && i < |b.sessions| && i < |b.inserters|
    requires x.turn.launched == b.sessions[i].turn.launched || b.inserters[i] >= |ts| ||
             !(ts[b.inserters[i]].Counting? || ts[b.inserters[i]].Launching?)
    ensures LaunchInv(ts, b.(sessions := b.sessions[i := x]))
  {
  }

  lemma LaunchStarts(ts: seq<Thread>, b: Books, t: nat, x: M.Session)
    requires LaunchInv(ts, b) && t < |ts| && ts[t].Launching?
    ensures LaunchInv(ts[t := Free], b.(sessions := b.sessions[ts[t].id := x]))
  {
    assert b.inserters[ts[t].id] == t;
    LaunchPut(ts, b, t, Free);
    LaunchSession(ts[t := Free], b, ts[t].id, x);
  }

  lemma OnSessionLaunch(s: Server, cfg: Config, i: nat, ev: M.Event)
    requires LaunchInv(s.acc.threads, s.books) && BooksInv(s.books)
    requires i < |s.books.sessions| && M.Enabled(s.books.sessions[i], ev) && !ev.Launch?
    ensures LaunchInv(s.acc.threads, OnSession(s, cfg, i, ev).books)
  {
    M.HandlersKeepBooks(s.books.sessions[i], ev, s.draining, cfg.lim);
    LaunchSession(s.acc.threads, s.books, i, M.Apply(s.books.sessions[i], ev, s.draining, cfg.lim));
  }

  lemma EraseLaunch(ts: seq<Thread>, b: Books, i: nat)
    requires LaunchInv(ts, b) && BooksInv(b) && i < |b.sessions| && b.sessions[i].endCalls > 0
    ensures LaunchInv(ts, EraseBook(b, i))
  {
    LaunchSession(ts, b, i, EraseBook(b, i).sessions[i]);
  }

  lemma StepLaunch(s: Server, cfg: Config, st: Step)
    requires Inv(s, cfg) && Enabled(s, st)
    ensures LaunchInv(Apply(s, cfg, st).acc.threads, Apply(s, cfg, st).books)
  {
    var ts, b := s.acc.threads, s.books;
    match st
    case AdmitCompletes(t, result) => LaunchPut(ts, b, t, AdmitDone(s.acc, t, result).threads[t]);
    case RejectCompletes(t) => LaunchPut(ts, b, t, Fresh(false));
    case TestFlags(t) => LaunchPut(ts, b, t, Test(s.acc, t, s.stopped || s.draining).threads[t]);
    case LoadCount(t) => LaunchPut(ts, b, t, Load(s.acc, t, b.active, cfg.maxConnections).threads[t]);
    case ArmAccept(t) => LaunchPut(ts, b, t, AfterAccept(ts[t].socket));
    case Insert(t) => LaunchInsert(ts, b, t);
    case Count(t) => LaunchPut(ts, b, t, Launching(ts[t].id));
    case Launch(t) => LaunchStarts(ts, b, t, M.Apply(b.sessions[ts[t].id], M.Launch, s.draining, cfg.lim));
    case Handler(i, ev) => OnSessionLaunch(s, cfg, i, ev);
    case TimerCloses(i) => OnSessionLaunch(s, cfg, i, M.ClosePosted);
    case Erase(i) => EraseLaunch(ts, b, i);
    case _ =>
  }

  lemma SessionsPut(ss: seq<M.Session>, i: nat, x: M.Session, draining: bool, lim: M.Limits)
    requires SessionsInv(ss, draining, lim) && i < |ss| && M.Inv(x, draining, lim)
    ensures SessionsInv(ss[i := x], draining, lim)
  {
  }

  lemma SessionsAdd(ss: seq<M.Session>, draining: bool, lim: M.Limits)
    requires SessionsInv(ss, draining, lim)
    ensures SessionsInv(ss + [M.FRESH], draining, lim)
  {
    M.FreshInv(draining, lim);
  }

  lemma SessionsDrain(ss: seq<M.Session>, lim: M.Limits)
    requires SessionsInv(ss, false, lim)
    ensures SessionsInv(ss, true, lim)
  {
    forall i | 0 <= i < |ss| ensures M.Inv(ss[i], true, lim) {
      M.DrainInv(ss[i], lim);
    }
  }

  lemma SessionErased(x: M.Session, draining: bool, lim: M.Limits)
    requires M.Inv(x, draining, lim) && x.endCalls > 0
    ensures M.Inv(x.(endCalls := x.endCalls - 1, removed := true), draining, lim)
  {
  }

  lemma OnSessionInv(s: Server, cfg: Config, i: nat, ev: M.Event)
    requires SessionsInv(s.books.sessions, s.draining, cfg.lim)
    requires i < |s.books.sessions| && M.Enabled(s.books.sessions[i], ev)
    requires ev.Launch? ==> !s.books.sessions[i].turn.launched
    ensures SessionsInv(OnSession(s, cfg, i, ev).books.sessions, s.draining, cfg.lim)
  {
    var x := s.books.sessions[i];
    M.EventInv(x, ev, s.draining, cfg.lim);
    SessionsPut(s.books.sessions, i, M.Apply(x, ev, s.draining, cfg.lim), s.draining, cfg.lim);
  }

  lemma EraseSessions(s: Server, cfg: Config, i: nat)
    requires SessionsInv(s.books.sessions, s.draining, cfg.lim)
    requires i < |s.books.sessions| && s.books.sessions[i].endCalls > 0
    ensures SessionsInv(EraseBook(s.books, i).sessions, s.draining, cfg.lim)
  {
    SessionErased(s.books.sessions[i], s.draining, cfg.lim);
    SessionsPut(s.books.sessions, i, EraseBook(s.books, i).sessions[i], s.draining, cfg.lim);
  }

  lemma StepSessions(s: Server, cfg: Config, st: Step)
    requires Inv(s, cfg) && Enabled(s, st)
    ensures SessionsInv(Apply(s, cfg, st).books.sessions, Apply(s, cfg, st).draining, cfg.lim)
  {
    match st
    case Insert(_) => SessionsAdd(s.books.sessions, s.draining, cfg.lim);
    case Launch(t) => OnSessionInv(s, cfg, s.acc.threads[t].id, M.Launch);
    case Handler(i, ev) => OnSessionInv(s, cfg, i, ev);
    case TimerCloses(i) => OnSessionInv(s, cfg, i, M.ClosePosted);
    case Erase(i) => EraseSessions(s, cfg, i);
    case Signal => SessionsDrain(s.books.sessions, cfg.lim);
    case _ =>
  }

  lemma StepInv(s: Server, cfg: Config, st: Step)
    requires Inv(s, cfg) && Enabled(s, st)
    ensures Inv(Apply(s, cfg, st), cfg)
  {
    StepAccept(s, cfg, st);
    StepBooks(s, cfg, st);
    StepDrain(s, cfg, st);
    StepLaunch(s, cfg, st);
    StepSessions(s, cfg, st);
  }

  // ----- Runs -----

  ghost predicate IsRun(s: Server, cfg: Config, run: seq<Step>)
    decreases |run|
  {
    run == [] || (Enabled(s, run[0]) && IsRun(Apply(s, cfg, run[0]), cfg, run[1..]))
  }

  function End(s: Server, cfg: Config, run: seq<Step>): Server
    requires IsRun(s, cfg, run)
    decreases |run|
  {
    if run == [] then s else End(Apply(s, cfg, run[0]), cfg, run[1..])
  }

  /** Every state any interleaving can reach satisfies the invariant. */
  lemma {:induction false} RunInv(s: Server, cfg: Config, run: seq<Step>)
    requires Inv(s, cfg) && IsRun(s, cfg, run)
    ensures Inv(End(s, cfg, run), cfg)
    decreases |run|
  {
    if run == [] {
    } else {
      StepInv(s, cfg, run[0]);
      RunInv(Apply(s, cfg, run[0]), cfg, run[1..]);
    }
  }

  lemma {:induction false} RunAppend(s: Server, cfg: Config, run: seq<Step>, st: Step)
    requires IsRun(s, cfg, run) && Enabled(End(s, cfg, run), st)
    ensures IsRun(s, cfg, run + [st])
    ensures End(s, cfg, run + [st]) == Apply(End(s, cfg, run), cfg, st)
    decreases |run|
  {
    if run == [] {
      assert run + [st] == [st];
    } else {
      assert (run + [st])[1..] == run[1..] + [st];
      RunAppend(Apply(s, cfg, run[0]), cfg, run[1..], st);
    }
  }
}
