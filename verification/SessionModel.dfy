/**
  One connection as a state machine. The strand runs its handlers one at a time; what the
  handlers leave behind (a read, a write, a timer, a task in the pool, a response posted to
  the I/O context or dispatched to the strand) completes later, in any order, with any result.

  Operations in flight are counted, so that "at most one" is a theorem and not a typing rule.
 */
module SessionModel {

  /** max_keepalive_requests and enable_keepalive. */
  datatype Limits = Limits(maxRequests: nat, enabled: bool)

  /** Where the session's turn is. */
  datatype Turn = Turn(
    launched: bool,     // start() has been called
    starts: nat,        // doRead posted by start(), not yet run
    readOps: nat,       // async_read outstanding
    resuming: nat,      // onWrite decided to go on, doRead not yet run
    tasks: seq<bool>,   // in the pool; whether the request wants the connection kept
    posts: seq<bool>,   // responses posted to the I/O context; whether their request wants it kept
    sends: seq<bool>,   // responses dispatched to the strand; whether to keep the connection
    writeOps: nat       // async_write outstanding
  )

  /** What happened so far. */
  datatype Tally = Tally(
    oversized: nat,     // bodies over the limit
    answers: nat,       // responses whose write was started
    dropped: nat,       // responses discarded because the session was closed
    late: nat           // requests parsed while the server was draining
  )

  datatype Session = Session(
    closed: bool,       // m_closed
    ended: bool,        // m_ended
    keepAlive: bool,    // m_keepAlive
    requests: nat,      // m_requestCount
    turn: Turn,
    armed: bool,        // the wait of the timer is running
    stale: nat,         // waits that were cancelled and have not completed yet
    closes: nat,        // close() posted, not yet run
    endCalls: nat,      // server.endSession called, not yet carried out
    removed: bool,      // the server has taken the session off its books
    tally: Tally
  )

  datatype Request =
    | Compute(accepted: bool, keep: bool)  // POST /compute, and whether the pool took the task
    | Fast(keep: bool)                     // anything else; `keep`: no "Connection: close"

  datatype ReadResult =
    | Failed             // end of stream, abort, reset, any other error
    | TooLarge           // body_limit
    | Parsed(request: Request)

  datatype Event =
    | Launch
    | Started
    | ReadDone(result: ReadResult)
    | Resume
    | TaskDone(i: nat)
    | PostRun(i: nat)
    | SendRun(i: nat)
    | WriteDone(ok: bool)
    | Expired                    // the running wait is over
    | TimerDone(aborted: bool)   // a cancelled wait completes; not as aborted if it was over just before
    | ClosePosted
    | CloseRun

  /** A session as it is inserted into the server's books, before `start`. */
  const FRESH := Session(false, false, false, 0, Turn(false, 0, 0, 0, [], [], [], 0),
                         false, 0, 0, 0, false, Tally(0, 0, 0, 0))

  predicate Enabled(s: Session, ev: Event) {
    match ev
    case Launch => true
    case Started => s.turn.starts > 0
    case ReadDone(_) => s.turn.readOps > 0
    case Resume => s.turn.resuming > 0
    case TaskDone(i) => i < |s.turn.tasks|
    case PostRun(i) => i < |s.turn.posts|
    case SendRun(i) => i < |s.turn.sends|
    case WriteDone(_) => s.turn.writeOps > 0
    case Expired => s.armed
    case TimerDone(_) => s.stale > 0
    case ClosePosted => true
    case CloseRun => s.closes > 0
  }

  function Without<T>(s: seq<T>, i: nat): (r: seq<T>)
    requires i < |s|
    ensures |r| == |s| - 1
    ensures forall x :: x in r ==> x in s
  {
    s[..i] + s[i + 1..]
  }

  /** Cancels the wait of the timer, if it is running. */
  function Cancel(s: Session): Session {
    if s.armed then s.(armed := false, stale := s.stale + 1) else s
  }

  /** Sets the timer, which cancels what it was set to before, and starts a read. */
  function DoRead(s: Session): Session {
    if s.closed then s else Cancel(s).(armed := true, turn := s.turn.(readOps := s.turn.readOps + 1))
  }

  function EndSession(s: Session): Session {
    if s.ended then s else s.(ended := true, endCalls := s.endCalls + 1)
  }

  /** The strand part of sendResponse. */
  function Deliver(s: Session, keep: bool): Session {
    if s.closed then s.(tally := s.tally.(dropped := s.tally.dropped + 1))
    else s.(keepAlive := keep, turn := s.turn.(writeOps := s.turn.writeOps + 1),
            tally := s.tally.(answers := s.tally.answers + 1))
  }

  /** RequestProcessor::process, called inside the strand. */
  function Process(s: Session, request: Request, lim: Limits): Session {
    match request
    case Compute(accepted, keep) =>
      if accepted then s.(turn := s.turn.(tasks := s.turn.tasks + [keep]))
      else s.(turn := s.turn.(posts := s.turn.posts + [false]))  // the 503 carries no request, hence no keep-alive
    case Fast(keep) => Deliver(s, keep && lim.enabled)
  }

  function Oversized(s: Session): Session {
    s.(tally := s.tally.(oversized := s.tally.oversized + 1))
  }

  /** One more request parsed. */
  function Counted(s: Session, draining: bool): Session {
    s.(requests := s.requests + 1, tally := s.tally.(late := if draining then s.tally.late + 1 else s.tally.late))
  }

  function OnRead(s: Session, result: ReadResult, draining: bool, lim: Limits): Session {
    match result
    case Failed => EndSession(s)
    case TooLarge => Deliver(Oversized(s), false)
    case Parsed(request) =>
      Process(Counted(s, draining), request, lim)
  }

  /** The completion of a read, up to its result: the handler first cancels the timer. */
  function TakeRead(s: Session): Session
    requires s.turn.readOps > 0
  {
    Cancel(s).(turn := s.turn.(readOps := s.turn.readOps - 1))
  }

  function OnWrite(s: Session, ok: bool, draining: bool, lim: Limits): Session {
    if !ok then EndSession(s)
    else if !(s.keepAlive && lim.enabled && s.requests < lim.maxRequests) || draining then EndSession(s)
    else s.(turn := s.turn.(resuming := s.turn.resuming + 1))
  }

  function OnTimeout(s: Session, aborted: bool): Session {
    if aborted then s else EndSession(s)
  }

  function OnClose(s: Session): Session {
    if s.closed then s else EndSession(Cancel(s).(closed := true))
  }

  function Apply(s: Session, ev: Event, draining: bool, lim: Limits): Session
    requires Enabled(s, ev)
  {
    match ev
    case Launch => s.(turn := s.turn.(launched := true, starts := s.turn.starts + 1))
    case Started => DoRead(s.(turn := s.turn.(starts := s.turn.starts - 1)))
    case ReadDone(result) => OnRead(TakeRead(s), result, draining, lim)
    case Resume => DoRead(s.(turn := s.turn.(resuming := s.turn.resuming - 1)))
    case TaskDone(i) =>
      s.(turn := s.turn.(tasks := Without(s.turn.tasks, i), posts := s.turn.posts + [s.turn.tasks[i]]))
    case PostRun(i) =>
      s.(turn := s.turn.(posts := Without(s.turn.posts, i), sends := s.turn.sends + [s.turn.posts[i] && lim.enabled]))
    case SendRun(i) => Deliver(s.(turn := s.turn.(sends := Without(s.turn.sends, i))), s.turn.sends[i])
    case WriteDone(ok) => OnWrite(s.(turn := s.turn.(writeOps := s.turn.writeOps - 1)), ok, draining, lim)
    case Expired => OnTimeout(s.(armed := false), false)
    case TimerDone(aborted) => OnTimeout(s.(stale := s.stale - 1), aborted)
    case ClosePosted => s.(closes := s.closes + 1)
    case CloseRun => OnClose(s.(closes := s.closes - 1))
  }

  // ----- What holds in every state -----

  /** Places from which a request may still be read. */
  function Reading(s: Session): nat {
    (if s.turn.launched then 0 else 1) + s.turn.starts + s.turn.readOps + s.turn.resuming
  }

  /** Responses on their way to the strand. */
  function InFlight(s: Session): nat {
    |s.turn.tasks| + |s.turn.posts| + |s.turn.sends|
  }

  /** All places the session's turn can be in. */
  function Turns(s: Session): nat {
    Reading(s) + InFlight(s) + s.turn.writeOps
  }

  /** The most requests one connection may carry. */
  function Cap(lim: Limits): nat {
    if lim.enabled && lim.maxRequests > 1 then lim.maxRequests else 1
  }

  /** The turn a running handler holds itself. */
  datatype Held = Nothing | ARead | AResponse | AWrite

  /** The invariant while a handler runs that took its turn off the counters. */
  ghost predicate Holding(s: Session, held: Held, draining: bool, lim: Limits) {
    var aRead, aResponse := if held.ARead? then 1 else 0, if held.AResponse? then 1 else 0;
    // One turn: never two reads, two writes, or a read beside a write, a task or a response.
    && Turns(s) + (if held.Nothing? then 0 else 1) <= 1
    // The server is told exactly once.
    && s.endCalls + (if s.removed then 1 else 0) == (if s.ended then 1 else 0)
    && (s.closed ==> s.ended)
    // Nobody is left with nothing under way and the server not told.
    && (s.ended || Turns(s) + (if held.Nothing? then 0 else 1) == 1)
    // The timer runs while a read is pending, and only then; ending does not restart it.
    && (s.armed ==> s.turn.readOps > 0)
    && (s.turn.readOps > 0 && !s.ended ==> s.armed)
    // Every request, and every oversized body, has exactly one response: in flight, written or dropped.
    && s.tally.answers + s.tally.dropped + InFlight(s) + aResponse == s.requests + s.tally.oversized
    && s.turn.writeOps <= s.tally.answers
    && (s.tally.dropped > 0 ==> s.closed)
    // Keep-alive and drain limits.
    && s.requests + Reading(s) + aRead <= Cap(lim)
    && s.tally.late + (if draining then Reading(s) + aRead else 0) <= 1
    && (!draining ==> s.tally.late == 0)
  }

  ghost predicate Inv(s: Session, draining: bool, lim: Limits) {
    Holding(s, Nothing, draining, lim)
  }

  lemma FreshInv(draining: bool, lim: Limits)
    ensures Inv(FRESH, draining, lim)
  {
  }

  lemma DoReadInv(s: Session, draining: bool, lim: Limits)
    requires Holding(s, ARead, draining, lim)
    ensures Inv(DoRead(s), draining, lim)
  {
  }

  lemma EndSessionInv(s: Session, held: Held, draining: bool, lim: Limits)
    requires Holding(s, held, draining, lim) && !held.AResponse?
    ensures Inv(EndSession(s), draining, lim)
  {
  }

  lemma DeliverInv(s: Session, keep: bool, draining: bool, lim: Limits)
    requires Holding(s, AResponse, draining, lim)
    ensures Inv(Deliver(s, keep), draining, lim)
  {
  }

  lemma ProcessInv(s: Session, request: Request, draining: bool, lim: Limits)
    requires Holding(s, AResponse, draining, lim)
    ensures Inv(Process(s, request, lim), draining, lim)
  {
    match request
    case Compute(accepted, keep) =>
    case Fast(keep) => DeliverInv(s, keep && lim.enabled, draining, lim);
  }

  lemma OnReadInv(s: Session, result: ReadResult, draining: bool, lim: Limits)
    requires Holding(s, ARead, draining, lim)
    ensures Inv(OnRead(s, result, draining, lim), draining, lim)
  {
    match result
    case Failed => EndSessionInv(s, ARead, draining, lim);
    case TooLarge => DeliverInv(Oversized(s), false, draining, lim);
    case Parsed(request) => ParsedInv(s, request, draining, lim);
  }

  lemma CountedInv(s: Session, draining: bool, lim: Limits)
    requires Holding(s, ARead, draining, lim)
    ensures Holding(Counted(s, draining), AResponse, draining, lim)
  {
  }

  lemma ParsedInv(s: Session, request: Request, draining: bool, lim: Limits)
    requires Holding(s, ARead, draining, lim)
    ensures Inv(OnRead(s, Parsed(request), draining, lim), draining, lim)
  {
    CountedInv(s, draining, lim);
    ProcessInv(Counted(s, draining), request, draining, lim);
  }

  lemma OnWriteInv(s: Session, ok: bool, draining: bool, lim: Limits)
    requires Holding(s, AWrite, draining, lim)
    ensures Inv(OnWrite(s, ok, draining, lim), draining, lim)
  {
    EndSessionInv(s, AWrite, draining, lim);
  }

  lemma OnCloseInv(s: Session, draining: bool, lim: Limits)
    requires Inv(s, draining, lim)
    ensures Inv(OnClose(s), draining, lim)
  {
  }

  // The same, event by event.

  lemma BeginInv(s: Session, ev: Event, draining: bool, lim: Limits)
    requires Inv(s, draining, lim) && Enabled(s, ev)
    requires (ev.Launch? && !s.turn.launched) || ev.Started? || ev.Resume?
    ensures Inv(Apply(s, ev, draining, lim), draining, lim)
  {
    if ev.Started? {
      DoReadInv(s.(turn := s.turn.(starts := s.turn.starts - 1)), draining, lim);
    } else if ev.Resume? {
      DoReadInv(s.(turn := s.turn.(resuming := s.turn.resuming - 1)), draining, lim);
    }
  }

  lemma ReadDoneInv(s: Session, result: ReadResult, draining: bool, lim: Limits)
    requires Inv(s, draining, lim) && s.turn.readOps > 0
    ensures Inv(Apply(s, ReadDone(result), draining, lim), draining, lim)
  {
    OnReadInv(TakeRead(s), result, draining, lim);
  }

  lemma MoveInv(s: Session, ev: Event, draining: bool, lim: Limits)
    requires Inv(s, draining, lim) && Enabled(s, ev) && (ev.TaskDone? || ev.PostRun?)
    ensures Inv(Apply(s, ev, draining, lim), draining, lim)
  {
  }

  lemma SendRunInv(s: Session, i: nat, draining: bool, lim: Limits)
    requires Inv(s, draining, lim) && i < |s.turn.sends|
    ensures Inv(Apply(s, SendRun(i), draining, lim), draining, lim)
  {
    DeliverInv(s.(turn := s.turn.(sends := Without(s.turn.sends, i))), s.turn.sends[i], draining, lim);
  }

  lemma WriteDoneInv(s: Session, ok: bool, draining: bool, lim: Limits)
    requires Inv(s, draining, lim) && s.turn.writeOps > 0
    ensures Inv(Apply(s, WriteDone(ok), draining, lim), draining, lim)
  {
    OnWriteInv(s.(turn := s.turn.(writeOps := s.turn.writeOps - 1)), ok, draining, lim);
  }

  lemma ExpiredInv(s: Session, draining: bool, lim: Limits)
    requires Inv(s, draining, lim) && s.armed
    ensures Inv(Apply(s, Expired, draining, lim), draining, lim)
  {
  }

  lemma TimerInv(s: Session, aborted: bool, draining: bool, lim: Limits)
    requires Inv(s, draining, lim) && s.stale > 0
    ensures Inv(Apply(s, TimerDone(aborted), draining, lim), draining, lim)
  {
    EndSessionInv(s.(stale := s.stale - 1), Nothing, draining, lim);
  }

  lemma CloseInv(s: Session, ev: Event, draining: bool, lim: Limits)
    requires Inv(s, draining, lim) && Enabled(s, ev) && (ev.ClosePosted? || ev.CloseRun?)
    ensures Inv(Apply(s, ev, draining, lim), draining, lim)
  {
    if ev.CloseRun? {
      OnCloseInv(s.(closes := s.closes - 1), draining, lim);
    }
  }

  /** Every handler keeps the invariant; that `start` is called only once is the server's part. */
  lemma EventInv(s: Session, ev: Event, draining: bool, lim: Limits)
    requires Inv(s, draining, lim) && Enabled(s, ev)
    requires ev.Launch? ==> !s.turn.launched
    ensures Inv(Apply(s, ev, draining, lim), draining, lim)
  {
    match ev
    case ReadDone(result) => ReadDoneInv(s, result, draining, lim);
    case TaskDone(_) => MoveInv(s, ev, draining, lim);
    case PostRun(_) => MoveInv(s, ev, draining, lim);
    case SendRun(i) => SendRunInv(s, i, draining, lim);
    case WriteDone(ok) => WriteDoneInv(s, ok, draining, lim);
    case Expired => ExpiredInv(s, draining, lim);
    case TimerDone(aborted) => TimerInv(s, aborted, draining, lim);
    case ClosePosted => CloseInv(s, ev, draining, lim);
    case CloseRun => CloseInv(s, ev, draining, lim);
    case _ => BeginInv(s, ev, draining, lim);
  }

  /** Draining may begin at any moment. */
  lemma DrainInv(s: Session, lim: Limits)
    requires Inv(s, false, lim)
    ensures Inv(s, true, lim)
  {
  }

  // ----- Runs of one session in an arbitrary environment -----

  /** A handler together with what it saw of the server's draining flag. */
  datatype Step = Step(ev: Event, draining: bool)

  /** Handlers run when they can; `start` only once; draining never ends. */
  ghost predicate IsRun(s: Session, draining: bool, run: seq<Step>, lim: Limits)
    decreases |run|
  {
    run == [] || (
      && Enabled(s, run[0].ev)
      && (run[0].ev.Launch? ==> !s.turn.launched)
      && (draining ==> run[0].draining)
      && IsRun(Apply(s, run[0].ev, run[0].draining, lim), run[0].draining, run[1..], lim)
    )
  }

  function End(s: Session, draining: bool, run: seq<Step>, lim: Limits): Session
    requires IsRun(s, draining, run, lim)
    decreases |run|
  {
    if run == [] then s
    else End(Apply(s, run[0].ev, run[0].draining, lim), run[0].draining, run[1..], lim)
  }

  lemma {:induction false} RunInv(s: Session, draining: bool, run: seq<Step>, lim: Limits)
    requires Inv(s, draining, lim) && IsRun(s, draining, run, lim)
    ensures Inv(End(s, draining, run, lim), true, lim)
    decreases |run|
  {
    if run == [] {
      if !draining {
        DrainInv(s, lim);
      }
    } else {
      var d := run[0].draining;
      if d && !draining {
        DrainInv(s, lim);
      }
      EventInv(s, run[0].ev, d, lim);
      RunInv(Apply(s, run[0].ev, d, lim), d, run[1..], lim);
    }
  }

  /**
    The single turn over every life of a connection: never two reads or two writes at once,
    no response while a read is pending, at most one response per request or oversized body.
   */
  lemma OneTurnAtATime(run: seq<Step>, lim: Limits)
    requires IsRun(FRESH, false, run, lim)
    ensures var s := End(FRESH, false, run, lim);
            && s.turn.readOps + |s.turn.tasks| + |s.turn.posts| + |s.turn.sends| + s.turn.writeOps <= 1
            && s.tally.answers + s.tally.dropped <= s.requests + s.tally.oversized
  {
    RunInv(FRESH, false, run, lim);
  }

  /** No connection carries more requests than allowed, and at most one after draining began. */
  lemma RequestsAreLimited(run: seq<Step>, lim: Limits)
    requires IsRun(FRESH, false, run, lim)
    ensures End(FRESH, false, run, lim).requests <= (if lim.enabled && lim.maxRequests > 1 then lim.maxRequests else 1)
    ensures End(FRESH, false, run, lim).tally.late <= 1
  {
    RunInv(FRESH, false, run, lim);
  }

  /** The server is told of the end at most once: by an error, the end of a write, the timer or a close. */
  lemma EndsAtMostOnce(run: seq<Step>, lim: Limits)
    requires IsRun(FRESH, false, run, lim)
    ensures End(FRESH, false, run, lim).endCalls == (if End(FRESH, false, run, lim).ended then 1 else 0)
  {
    RunInv(FRESH, false, run, lim);
    NeverRemoved(FRESH, false, run, lim);
  }

  /**
    Nobody is forgotten: over every life of a connection, until it has ended exactly one of its
    operations is under way, and ending is what tells the server.
   */
  lemma NobodyIsForgotten(run: seq<Step>, lim: Limits)
    requires IsRun(FRESH, false, run, lim)
    ensures End(FRESH, false, run, lim).ended || Turns(End(FRESH, false, run, lim)) == 1
  {
    RunInv(FRESH, false, run, lim);
  }

  /** And nobody waits for ever: until the session has ended, its timer runs exactly while a read is pending. */
  lemma IdleConnectionsAreTimed(run: seq<Step>, lim: Limits)
    requires IsRun(FRESH, false, run, lim) && !End(FRESH, false, run, lim).ended
    ensures End(FRESH, false, run, lim).armed <==> End(FRESH, false, run, lim).turn.readOps > 0
  {
    RunInv(FRESH, false, run, lim);
  }

  /** What only the server changes. */
  ghost predicate SameBooks(s': Session, s: Session) {
    s'.removed == s.removed && s'.turn.launched == s.turn.launched
  }

  lemma ReadDoneKeepsBooks(s: Session, result: ReadResult, draining: bool, lim: Limits)
    requires s.turn.readOps > 0
    ensures SameBooks(Apply(s, ReadDone(result), draining, lim), s)
  {
    ReadKeepsBooks(TakeRead(s), result, draining, lim);
  }

  lemma OtherKeepsBooks(s: Session, ev: Event, draining: bool, lim: Limits)
    requires Enabled(s, ev) && !ev.ReadDone? && !ev.Launch?
    ensures SameBooks(Apply(s, ev, draining, lim), s)
  {
  }

  lemma HandlersKeepBooks(s: Session, ev: Event, draining: bool, lim: Limits)
    requires Enabled(s, ev)
    ensures Apply(s, ev, draining, lim).removed == s.removed
    ensures !ev.Launch? ==> SameBooks(Apply(s, ev, draining, lim), s)
  {
    if ev.ReadDone? {
      ReadDoneKeepsBooks(s, ev.result, draining, lim);
    } else if !ev.Launch? {
      OtherKeepsBooks(s, ev, draining, lim);
    }
  }

  lemma ReadKeepsBooks(s: Session, result: ReadResult, draining: bool, lim: Limits)
    ensures SameBooks(OnRead(s, result, draining, lim), s)
  {
  }

  /** Only the server takes a session off its books. */
  lemma {:induction false} NeverRemoved(s: Session, draining: bool, run: seq<Step>, lim: Limits)
    requires IsRun(s, draining, run, lim) && !s.removed
    ensures !End(s, draining, run, lim).removed
    decreases |run|
  {
    if run == [] {
    } else {
      HandlersKeepBooks(s, run[0].ev, run[0].draining, lim);
      NeverRemoved(Apply(s, run[0].ev, run[0].draining, lim), run[0].draining, run[1..], lim);
    }
  }

  // ----- The 503, and what ended or closed sessions still do -----

  ghost predicate AllFalse(s: seq<bool>) {
    forall k :: k in s ==> !k
  }

  /** Whatever is still to come on this connection ends it. */
  ghost predicate LastResponse(s: Session) {
    && Reading(s) == 0
    && AllFalse(s.turn.tasks) && AllFalse(s.turn.posts) && AllFalse(s.turn.sends)
    && (s.turn.writeOps > 0 ==> !s.keepAlive)
  }

  lemma LastResponseStays(s: Session, ev: Event, draining: bool, lim: Limits)
    requires LastResponse(s) && Enabled(s, ev) && (ev.Launch? ==> !s.turn.launched)
    ensures LastResponse(Apply(s, ev, draining, lim))
    ensures Apply(s, ev, draining, lim).requests == s.requests
    ensures ev.WriteDone? ==> Apply(s, ev, draining, lim).ended
  {
    assert ev.TaskDone? ==> s.turn.tasks[ev.i] in s.turn.tasks;
    assert ev.PostRun? ==> s.turn.posts[ev.i] in s.turn.posts;
    assert ev.SendRun? ==> s.turn.sends[ev.i] in s.turn.sends;
  }

  lemma {:induction false} NothingFollows(s: Session, draining: bool, run: seq<Step>, lim: Limits)
    requires LastResponse(s) && IsRun(s, draining, run, lim)
    ensures LastResponse(End(s, draining, run, lim)) && End(s, draining, run, lim).requests == s.requests
    decreases |run|
  {
    if run == [] {
    } else {
      LastResponseStays(s, run[0].ev, run[0].draining, lim);
      NothingFollows(Apply(s, run[0].ev, run[0].draining, lim), run[0].draining, run[1..], lim);
    }
  }

  /**
    A rejected submit is the end of the connection: the 503 is posted, and whatever happens
    from then on no further request is parsed, and the write that completes ends the session.
   */
  lemma RejectionIsFinal(s: Session, keep: bool, draining: bool, run: seq<Step>, lim: Limits)
    requires Inv(s, draining, lim) && s.turn.readOps > 0
    requires var s' := Apply(s, ReadDone(Parsed(Compute(false, keep))), draining, lim);
             IsRun(s', draining, run, lim)
    ensures var s' := Apply(s, ReadDone(Parsed(Compute(false, keep))), draining, lim);
            && s'.turn.posts == [false]
            && End(s', draining, run, lim).requests == s'.requests
            && LastResponse(End(s', draining, run, lim))
    ensures var t := End(Apply(s, ReadDone(Parsed(Compute(false, keep))), draining, lim), draining, run, lim);
            t.turn.writeOps > 0 ==> forall ok: bool, d: bool :: Apply(t, WriteDone(ok), d, lim).ended
  {
    var s' := Apply(s, ReadDone(Parsed(Compute(false, keep))), draining, lim);
    assert s.turn.posts == [] && s.turn.tasks == [] && s.turn.sends == [];
    NothingFollows(s', draining, run, lim);
    var t := End(s', draining, run, lim);
    if t.turn.writeOps > 0 {
      forall ok: bool, d: bool ensures Apply(t, WriteDone(ok), d, lim).ended {
        LastResponseStays(t, WriteDone(ok), d, lim);
      }
    }
  }

  /**
    So is a body over the limit: its 413 is written or, if the session is closed, dropped; no
    further request is parsed, and the write that completes ends the session.
   */
  lemma OversizedIsFinal(s: Session, draining: bool, run: seq<Step>, lim: Limits)
    requires Inv(s, draining, lim) && s.turn.readOps > 0
    requires IsRun(Apply(s, ReadDone(TooLarge), draining, lim), draining, run, lim)
    ensures var s' := Apply(s, ReadDone(TooLarge), draining, lim);
            var t := End(s', draining, run, lim);
            && s'.turn.writeOps == (if s.closed then 0 else 1) && s'.requests == s.requests
            && t.requests == s.requests && LastResponse(t)
    ensures var t := End(Apply(s, ReadDone(TooLarge), draining, lim), draining, run, lim);
            t.turn.writeOps > 0 ==> forall ok: bool, d: bool :: Apply(t, WriteDone(ok), d, lim).ended
  {
    var s' := Apply(s, ReadDone(TooLarge), draining, lim);
    assert s.turn.posts == [] && s.turn.tasks == [] && s.turn.sends == [];
    NothingFollows(s', draining, run, lim);
    var t := End(s', draining, run, lim);
    if t.turn.writeOps > 0 {
      forall ok: bool, d: bool ensures Apply(t, WriteDone(ok), d, lim).ended {
        LastResponseStays(t, WriteDone(ok), d, lim);
      }
    }
  }

  /** What the expiry of a timer does. */
  function Expire(s: Session): Session
    requires s.stale > 0
  {
    EndSession(s.(stale := s.stale - 1))
  }

  lemma EndBeforeDeliver(s: Session, keep: bool)
    ensures Deliver(EndSession(s), keep) == EndSession(Deliver(s, keep))
  {
  }

  lemma DeliverLeavesTimers(s: Session, keep: bool, stale: nat)
    ensures Deliver(s.(stale := stale), keep) == Deliver(s, keep).(stale := stale)
    ensures Deliver(s, keep).stale == s.stale
  {
  }

  lemma ExpireBeforeDeliver(s: Session, keep: bool)
    requires s.stale > 0
    ensures Deliver(s, keep).stale == s.stale
    ensures Deliver(Expire(s), keep) == Expire(Deliver(s, keep))
  {
    DeliverLeavesTimers(s, keep, s.stale - 1);
    EndBeforeDeliver(s.(stale := s.stale - 1), keep);
  }

  lemma ExpireBeforeTurn(s: Session, turn: Turn)
    requires s.stale > 0
    ensures Expire(s).turn == s.turn
    ensures Expire(s).(turn := turn) == Expire(s.(turn := turn))
  {
  }

  lemma ExpireBeforeCompute(s: Session, accepted: bool, keep: bool, lim: Limits)
    requires s.stale > 0
    ensures Process(s, Compute(accepted, keep), lim).stale == s.stale
    ensures Process(Expire(s), Compute(accepted, keep), lim) == Expire(Process(s, Compute(accepted, keep), lim))
  {
    ExpireBeforeTurn(s, Process(s, Compute(accepted, keep), lim).turn);
  }

  lemma ExpireBeforeProcess(s: Session, request: Request, lim: Limits)
    requires s.stale > 0
    ensures Process(s, request, lim).stale == s.stale
    ensures Process(Expire(s), request, lim) == Expire(Process(s, request, lim))
  {
    match request
    case Compute(accepted, keep) => ExpireBeforeCompute(s, accepted, keep, lim);
    case Fast(keep) => ExpireBeforeDeliver(s, keep && lim.enabled);
  }

  lemma ExpireBeforeCount(s: Session, draining: bool)
    requires s.stale > 0
    ensures Counted(Expire(s), draining) == Expire(Counted(s, draining))
    ensures Oversized(Expire(s)) == Expire(Oversized(s))
    ensures EndSession(Expire(s)) == Expire(EndSession(s))
  {
  }

  lemma ExpireBeforeRead(s: Session, result: ReadResult, draining: bool, lim: Limits)
    requires s.stale > 0
    ensures OnRead(s, result, draining, lim).stale == s.stale
    ensures OnRead(Expire(s), result, draining, lim) == Expire(OnRead(s, result, draining, lim))
  {
    ExpireBeforeCount(s, draining);
    match result
    case Failed =>
    case TooLarge => ExpireBeforeDeliver(Oversized(s), false);
    case Parsed(request) => ExpireBeforeProcess(Counted(s, draining), request, lim);
  }

  lemma ProcessCounts(s: Session, request: Request, lim: Limits)
    ensures Process(s, request, lim).requests == s.requests
  {
  }

  lemma ReadCounts(s: Session, result: ReadResult, draining: bool, lim: Limits)
    ensures OnRead(s, result, draining, lim).requests == s.requests + (if result.Parsed? then 1 else 0)
  {
    if result.Parsed? {
      ProcessCounts(Counted(s, draining), result.request, lim);
    }
  }

  /** Running out before the read and being cancelled by it, too late, come to the same. */
  lemma ExpireBeforeTakeRead(s: Session)
    requires s.turn.readOps > 0 && s.armed
    ensures Apply(s, Expired, false, Limits(0, false)).turn == s.turn
    ensures TakeRead(Apply(s, Expired, false, Limits(0, false))) == Expire(TakeRead(s))
  {
  }

  /**
    Ending is not closing. The read timeout ends the session and leaves its socket and its read
    alone: whatever the read then brings, a request among them, is treated exactly as if it had
    come first and the timer had run out just before it could be cancelled.
   */
  lemma TimeoutLeavesReadPending(s: Session, result: ReadResult, draining: bool, lim: Limits)
    requires s.turn.readOps > 0 && s.armed
    ensures var s', r := Apply(s, Expired, draining, lim), Apply(s, ReadDone(result), draining, lim);
            && s'.ended && Enabled(s', ReadDone(result)) && Enabled(r, TimerDone(false))
            && Apply(s', ReadDone(result), draining, lim) == Apply(r, TimerDone(false), draining, lim)
            && (result.Parsed? ==> Apply(s', ReadDone(result), draining, lim).requests == s.requests + 1)
  {
    ReadCounts(TakeRead(s), result, draining, lim);
    ExpireBeforeTakeRead(s);
    ExpireBeforeRead(TakeRead(s), result, draining, lim);
  }

  /** At least as little in flight, and nothing more written. */
  ghost predicate Quieter(s': Session, s: Session) {
    && s'.closed && s'.tally.answers == s.tally.answers
    && s'.turn.readOps <= s.turn.readOps && s'.turn.writeOps <= s.turn.writeOps
  }

  lemma ClosedReadStep(s: Session, result: ReadResult, draining: bool, lim: Limits)
    requires s.closed
    ensures Quieter(OnRead(s, result, draining, lim), s)
  {
    if result.Parsed? {
      assert Quieter(Process(Counted(s, draining), result.request, lim), Counted(s, draining));
    }
  }

  lemma ClosedReadDone(s: Session, result: ReadResult, draining: bool, lim: Limits)
    requires s.closed && s.turn.readOps > 0
    ensures Quieter(Apply(s, ReadDone(result), draining, lim), s)
  {
    ClosedReadStep(TakeRead(s), result, draining, lim);
  }

  lemma ClosedStep(s: Session, ev: Event, draining: bool, lim: Limits)
    requires s.closed && Enabled(s, ev)
    ensures Quieter(Apply(s, ev, draining, lim), s)
  {
    if ev.ReadDone? {
      ClosedReadDone(s, ev.result, draining, lim);
    } else {
      ClosedOtherStep(s, ev, draining, lim);
    }
  }

  lemma ClosedOtherStep(s: Session, ev: Event, draining: bool, lim: Limits)
    requires s.closed && Enabled(s, ev) && !ev.ReadDone?
    ensures Quieter(Apply(s, ev, draining, lim), s)
  {
  }

  /** A closed session, on the other hand, never starts another read or write. */
  lemma {:induction false} ClosedIsQuiet(s: Session, draining: bool, run: seq<Step>, lim: Limits)
    requires s.closed && IsRun(s, draining, run, lim)
    ensures Quieter(End(s, draining, run, lim), s)
    decreases |run|
  {
    if run == [] {
    } else {
      ClosedStep(s, run[0].ev, run[0].draining, lim);
      ClosedIsQuiet(Apply(s, run[0].ev, run[0].draining, lim), run[0].draining, run[1..], lim);
    }
  }
}
