/**
  The session object: its handlers as they update its fields in place, each proved to do what the
  state machine in `SessionModel` says and to keep its invariant. The asynchronous operations a
  handler starts are counted in fields of their own; the strand makes every handler run undisturbed.
 */
module Sessions {
  import M = SessionModel
  import Q = QueueModel
  import K = KeepAlives
  import opened TaskQueues

  /** What the completion of a read brings; whether the pool takes a task is still open. */
  datatype Incoming =
    | Failed
    | TooLarge
    | PostCompute(priority: Q.Int32, keep: bool)
    | Other(keep: bool)

  /** The request as the state machine sees it, given the queue it finds. */
  function Judged(r: Incoming, q: Q.QState, id: nat, now: int): M.ReadResult {
    match r
    case Failed => M.Failed
    case TooLarge => M.TooLarge
    case PostCompute(priority, keep) => M.Parsed(M.Compute(Q.Push(q, id, priority, now).1, keep))
    case Other(keep) => M.Parsed(M.Fast(keep))
  }

  /** Only `POST /compute` goes to the pool, as a task of this session with the request's priority. */
  function Queued(r: Incoming, q: Q.QState, id: nat, now: int): Q.QState {
    if r.PostCompute? then Q.Push(q, id, r.priority, now).0 else q
  }

  /** The completion of a write, up to its handler. */
  function TakenWrite(s: M.Session): M.Session
    requires s.turn.writeOps > 0
  {
    s.(turn := s.turn.(writeOps := s.turn.writeOps - 1))
  }

  lemma WrittenInv(s: M.Session, ok: bool, draining: bool, lim: M.Limits)
    requires M.Inv(s, draining, lim) && s.turn.writeOps > 0
    ensures M.Inv(K.Written(s, ok, draining, lim), draining, lim)
  {
    var s' := M.Apply(s, M.WriteDone(ok), draining, lim);
    M.EventInv(s, M.WriteDone(ok), draining, lim);
    if s'.turn.resuming > s.turn.resuming {
      M.EventInv(s', M.Resume, draining, lim);
    }
  }

  class Session {
    const id: nat
    const lim: M.Limits   // m_maxKeepaliveRequests, m_enableKeepalive
    var closed: bool
    var ended: bool
    var keepAlive: bool
    var requestCount: nat
    // Operations started and not yet completed.
    var turn: M.Turn
    var armed: bool
    var stale: nat
    var closes: nat
    var endCalls: nat
    ghost var removed: bool
    ghost var tally: M.Tally

    ghost function View(): M.Session
      reads this
    {
      M.Session(closed, ended, keepAlive, requestCount, turn, armed, stale, closes, endCalls, removed, tally)
    }

    /** One turn, one end, one response for each request, and the request limits. */
    ghost predicate Valid(draining: bool)
      reads this
    {
      M.Inv(View(), draining, lim)
    }

    /** A handler that has done what the state machine says has kept the invariant. */
    lemma Keeps(before: M.Session, ev: M.Event, draining: bool)
      requires M.Enabled(before, ev) && (ev.Launch? ==> !before.turn.launched)
      requires View() == M.Apply(before, ev, draining, lim)
      ensures M.Inv(before, draining, lim) ==> Valid(draining)
    {
      if M.Inv(before, draining, lim) {
        M.EventInv(before, ev, draining, lim);
      }
    }

    lemma KeepsWritten(before: M.Session, ok: bool, draining: bool)
      requires before.turn.writeOps > 0 && View() == K.Written(before, ok, draining, lim)
      ensures M.Inv(before, draining, lim) ==> Valid(draining)
    {
      if M.Inv(before, draining, lim) {
        WrittenInv(before, ok, draining, lim);
      }
    }

    constructor (id: nat, lim: M.Limits)
      ensures View() == M.FRESH && this.id == id && this.lim == lim
      ensures forall d :: Valid(d)
    {
      this.id, this.lim := id, lim;
      closed, ended, keepAlive, requestCount := false, false, false, 0;
      turn := M.Turn(false, 0, 0, 0, [], [], [], 0);
      armed, stale, closes, endCalls := false, 0, 0, 0;
      removed, tally := false, M.Tally(0, 0, 0, 0);
      new;
      forall d ensures Valid(d) {
        M.FreshInv(d, lim);
      }
    }

    method Start()
      modifies this
      ensures View() == M.Apply(old(View()), M.Launch, false, lim)
      ensures forall d :: old(Valid(d)) && !old(turn.launched) ==> Valid(d)
    {
      turn := turn.(launched := true, starts := turn.starts + 1);
      if !old(turn.launched) {
        forall d ensures old(Valid(d)) ==> Valid(d) {
          Keeps(old(View()), M.Launch, d);
        }
      }
    }

    /** The posted first read. */
    method OnStart(ghost draining: bool)
      requires turn.starts > 0
      modifies this
      ensures View() == M.Apply(old(View()), M.Started, draining, lim)
      ensures old(Valid(draining)) ==> Valid(draining)
    {
      turn := turn.(starts := turn.starts - 1);
      DoRead();
      Keeps(old(View()), M.Started, draining);
    }

    method DoRead()
      modifies this
      ensures View() == M.DoRead(old(View()))
      ensures closed ==> View() == old(View())
      ensures !closed ==> armed && turn == old(turn).(readOps := old(turn.readOps) + 1)
    {
      if closed {
        return;
      }
      CancelTimer();
      armed := true;
      turn := turn.(readOps := turn.readOps + 1);
    }

    /** m_timer.cancel(), and what expires_after does to a wait that is still running. */
    method CancelTimer()
      modifies this
      ensures View() == M.Cancel(old(View())) && !armed
    {
      if armed {
        armed, stale := false, stale + 1;
      }
    }

    method EndSession()
      modifies this
      ensures View() == M.EndSession(old(View()))
      ensures ended && endCalls == old(endCalls) + if old(ended) then 0 else 1
    {
      if ended {
        return;
      }
      ended := true;
      endCalls := endCalls + 1;
    }

    /** The part of sendResponse that runs in the strand. */
    method Deliver(keep: bool)
      modifies this
      ensures View() == M.Deliver(old(View()), keep)
      ensures !closed ==> keepAlive == keep && turn == old(turn).(writeOps := old(turn.writeOps) + 1)
      ensures closed ==> keepAlive == old(keepAlive) && turn == old(turn)
    {
      if closed {
        tally := tally.(dropped := tally.dropped + 1);
        return;
      }
      keepAlive := keep;
      turn := turn.(writeOps := turn.writeOps + 1);
      tally := tally.(answers := tally.answers + 1);
    }

    /** The dispatched response `i`. */
    method OnSend(i: nat, ghost draining: bool)
      requires i < |turn.sends|
      modifies this
      ensures View() == M.Apply(old(View()), M.SendRun(i), draining, lim)
      ensures old(Valid(draining)) ==> Valid(draining)
    {
      var keep := turn.sends[i];
      turn := turn.(sends := M.Without(turn.sends, i));
      Deliver(keep);
      Keeps(old(View()), M.SendRun(i), draining);
    }

    /** RequestProcessor::process: to the pool, to a posted 503 if the pool refuses, or to an immediate response. */
    method Process(r: Incoming, queue: TaskQueue, now: int)
      requires r.PostCompute? || r.Other?
      requires queue.Valid() && queue.clock <= now
      modifies this, queue, queue.data
      ensures View() == M.Process(old(View()), Judged(r, old(queue.View()), id, now).request, lim)
      ensures queue.Valid() && queue.View() == Queued(r, old(queue.View()), id, now)
      ensures queue.pending == old(queue.pending)
           + (if r.PostCompute? && !old(queue.done) && old(|queue.pending|) < queue.data.Length
              then [Q.Entry(r.priority, old(queue.order), id, now)] else [])
      ensures !r.PostCompute? ==> queue.View() == old(queue.View())
      ensures r.PostCompute? ==>
                if !old(queue.done) && old(|queue.pending|) < queue.data.Length
                then turn == old(turn).(tasks := old(turn.tasks) + [r.keep])
                else turn == old(turn).(posts := old(turn.posts) + [false])
      ensures r.Other? && !closed ==>
                keepAlive == (r.keep && lim.enabled) && turn == old(turn).(writeOps := old(turn.writeOps) + 1)
    {
      if r.PostCompute? {
        var accepted := queue.Push(id, r.priority, now);
        if accepted {
          turn := turn.(tasks := turn.tasks + [r.keep]);
        } else {
          turn := turn.(posts := turn.posts + [false]);
        }
      } else {
        Deliver(r.keep && lim.enabled);
      }
    }

    /** The completion of a read; `draining` is what the server's flag says while it runs. */
    method OnRead(r: Incoming, draining: bool, queue: TaskQueue, now: int)
      requires turn.readOps > 0
      requires queue.Valid() && queue.clock <= now
      modifies this, queue, queue.data
      ensures View() == M.Apply(old(View()), M.ReadDone(Judged(r, old(queue.View()), id, now)), draining, lim)
      ensures queue.Valid() && queue.View() == Queued(r, old(queue.View()), id, now)
      ensures queue.pending == old(queue.pending)
           + (if r.PostCompute? && !old(queue.done) && old(|queue.pending|) < queue.data.Length
              then [Q.Entry(r.priority, old(queue.order), id, now)] else [])
      ensures !r.PostCompute? ==> queue.View() == old(queue.View())
      ensures !armed && requestCount == old(requestCount) + if r.PostCompute? || r.Other? then 1 else 0
      ensures r.Failed? ==> ended && endCalls == old(endCalls) + (if old(ended) then 0 else 1)
      ensures r.TooLarge? && !closed ==> !keepAlive && turn.writeOps == old(turn.writeOps) + 1
      ensures old(Valid(draining)) ==> Valid(draining)
    {
      ghost var result := Judged(r, queue.View(), id, now);
      TakeRead();
      AfterRead(r, draining, queue, now);
      Keeps(old(View()), M.ReadDone(result), draining);
    }

    method TakeRead()
      requires turn.readOps > 0
      modifies this
      ensures View() == M.TakeRead(old(View()))
      ensures !armed && closed == old(closed) && ended == old(ended) && endCalls == old(endCalls)
      ensures requestCount == old(requestCount) && turn.writeOps == old(turn.writeOps)
    {
      CancelTimer();
      turn := turn.(readOps := turn.readOps - 1);
    }

    method AfterRead(r: Incoming, draining: bool, queue: TaskQueue, now: int)
      requires queue.Valid() && queue.clock <= now
      modifies this, queue, queue.data
      ensures View() == M.OnRead(old(View()), Judged(r, old(queue.View()), id, now), draining, lim)
      ensures queue.Valid() && queue.View() == Queued(r, old(queue.View()), id, now)
      ensures closed == old(closed) && armed == old(armed)
      ensures requestCount == old(requestCount) + if r.PostCompute? || r.Other? then 1 else 0
      ensures r.Failed? ==> ended && endCalls == old(endCalls) + (if old(ended) then 0 else 1)
      ensures r.TooLarge? && !closed ==> !keepAlive && turn.writeOps == old(turn.writeOps) + 1
    {
      if r.Failed? {
        EndSession();
      } else if r.TooLarge? {
        Refuse();
      } else {
        Count(draining);
        Process(r, queue, now);
      }
    }

    /** The 413. */
    method Refuse()
      modifies this
      ensures View() == M.Deliver(M.Oversized(old(View())), false)
      ensures !closed ==> !keepAlive && turn.writeOps == old(turn.writeOps) + 1
      ensures closed == old(closed) && armed == old(armed) && requestCount == old(requestCount)
    {
      tally := tally.(oversized := tally.oversized + 1);
      assert View() == M.Oversized(old(View()));
      Deliver(false);
    }

    method Count(draining: bool)
      modifies this
      ensures View() == M.Counted(old(View()), draining)
    {
      requestCount := requestCount + 1;
      tally := tally.(late := if draining then tally.late + 1 else tally.late);
    }

    /** The completion of a write: the end of the session, or the next read at once. */
    method OnWrite(ok: bool, draining: bool)
      requires turn.writeOps > 0
      modifies this
      ensures View() == K.Written(old(View()), ok, draining, lim)
      ensures if ok && old(keepAlive) && lim.enabled && old(requestCount) < lim.maxRequests && !draining
              then ended == old(ended) && turn.readOps == old(turn.readOps) + (if closed then 0 else 1)
              else ended && turn.readOps == old(turn.readOps)
      ensures old(Valid(draining)) ==> Valid(draining)
    {
      TakeWrite();
      AfterWrite(ok, draining);
      KeepsWritten(old(View()), ok, draining);
    }

    method TakeWrite()
      requires turn.writeOps > 0
      modifies this
      ensures View() == TakenWrite(old(View()))
    {
      turn := turn.(writeOps := turn.writeOps - 1);
    }

    method AfterWrite(ok: bool, draining: bool)
      modifies this
      ensures var s := M.OnWrite(old(View()), ok, draining, lim);
              View() == if s.turn.resuming > old(turn.resuming) then M.DoRead(old(View())) else s
    {
      if !ok {
        EndSession();
        return;
      }
      var shouldKeepAlive := keepAlive && lim.enabled && requestCount < lim.maxRequests;
      if !shouldKeepAlive || draining {
        EndSession();
        return;
      }
      DoRead();
    }

    /** A wait completes: the running one because its time is up, or one that was cancelled. */
    method OnTimeout(running: bool, aborted: bool)
      requires if running then armed && !aborted else stale > 0
      modifies this
      ensures View() == M.Apply(old(View()), if running then M.Expired else M.TimerDone(aborted), false, lim)
      ensures aborted ==> ended == old(ended) && endCalls == old(endCalls)
      ensures !aborted ==> ended && closed == old(closed) && turn == old(turn)
      ensures forall d :: old(Valid(d)) ==> Valid(d)
    {
      if running {
        armed := false;
      } else {
        stale := stale - 1;
      }
      if !aborted {
        EndSession();
      }
      forall d ensures old(Valid(d)) ==> Valid(d) {
        Keeps(old(View()), if running then M.Expired else M.TimerDone(aborted), d);
      }
    }

    /** The handler that close() posts to the strand. */
    method OnClose()
      requires closes > 0
      modifies this
      ensures View() == M.Apply(old(View()), M.CloseRun, false, lim)
      ensures closed && (!old(closed) ==> ended && !armed) && closes == old(closes) - 1
      ensures forall d :: old(Valid(d)) ==> Valid(d)
    {
      closes := closes - 1;
      CloseNow();
      forall d ensures old(Valid(d)) ==> Valid(d) {
        Keeps(old(View()), M.CloseRun, d);
      }
    }

    method CloseNow()
      modifies this
      ensures View() == M.OnClose(old(View()))
      ensures closed && (!old(closed) ==> ended && !armed)
    {
      if closed {
        return;
      }
      CancelTimer();
      closed := true;
      EndSession();
    }
  }
}
