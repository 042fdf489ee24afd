/** One request from its read to the end of its write, and when the connection is kept for another. */
module KeepAlives {
  import opened SessionModel

  /** The way of a response that went through the pool or was posted, to the strand and to the write. */
  function Delivered(s: Session, draining: bool, lim: Limits): Session
    requires s.turn.posts != []
  {
    var s1 := Apply(s, PostRun(|s.turn.posts| - 1), draining, lim);
    Apply(s1, SendRun(|s1.turn.sends| - 1), draining, lim)
  }

  /** The steps of one request up to the start of its write: at once, through the pool, or by a posted 503. */
  function Responded(s: Session, request: Request, draining: bool, lim: Limits): Session
    requires s.turn.readOps > 0
  {
    var s1 := Apply(s, ReadDone(Parsed(request)), draining, lim);
    match request
    case Fast(_) => s1
    case Compute(accepted, _) =>
      if accepted then Delivered(Apply(s1, TaskDone(|s1.turn.tasks| - 1), draining, lim), draining, lim)
      else Delivered(s1, draining, lim)
  }

  /** What the request asked for: to keep the connection, and not to be turned away. */
  predicate WantsMore(request: Request) {
    request.keep && (request.Compute? ==> request.accepted)
  }

  lemma LastOut<T>(s: seq<T>, x: T)
    ensures Without(s + [x], |s|) == s
  {
  }

  /** A request answered and not yet written. */
  ghost predicate Writes(s: Session, t: Session, keep: bool) {
    && s.turn.readOps > 0
    && t.keepAlive == keep && t.requests == s.requests + 1
    && t.closed == s.closed && t.ended == s.ended && t.endCalls == s.endCalls && !t.armed
    && t.turn == s.turn.(readOps := s.turn.readOps - 1, writeOps := s.turn.writeOps + 1)
  }

  lemma FastWrites(s: Session, keep: bool, draining: bool, lim: Limits)
    requires !s.closed && s.turn.readOps > 0
    ensures Writes(s, Responded(s, Fast(keep), draining, lim), keep && lim.enabled)
  {
  }

  /** The response that was posted last. */
  lemma DeliveredWrites(s: Session, posts: seq<bool>, keep: bool, draining: bool, lim: Limits)
    requires !s.closed && s.turn.posts == posts + [keep]
    ensures var t := Delivered(s, draining, lim);
            && t.keepAlive == (keep && lim.enabled) && t.requests == s.requests
            && t.closed == s.closed && t.ended == s.ended && t.endCalls == s.endCalls && t.armed == s.armed
            && t.turn == s.turn.(posts := posts, writeOps := s.turn.writeOps + 1)
  {
    LastOut(posts, keep);
    LastOut(s.turn.sends, keep && lim.enabled);
  }

  /** What a read of `POST /compute` leaves, whatever the pool said. */
  lemma ComputeReads(s: Session, accepted: bool, keep: bool, draining: bool, lim: Limits)
    requires !s.closed && s.turn.readOps > 0
    ensures var t := Apply(s, ReadDone(Parsed(Compute(accepted, keep))), draining, lim);
            && t.requests == s.requests + 1
            && t.closed == s.closed && t.ended == s.ended && t.endCalls == s.endCalls && !t.armed
            && t.turn == s.turn.(readOps := s.turn.readOps - 1,
                                 tasks := if accepted then s.turn.tasks + [keep] else s.turn.tasks,
                                 posts := if accepted then s.turn.posts else s.turn.posts + [false])
  {
  }

  lemma ComputeWrites(s: Session, accepted: bool, keep: bool, draining: bool, lim: Limits)
    requires !s.closed && s.turn.readOps > 0
    ensures Writes(s, Responded(s, Compute(accepted, keep), draining, lim), accepted && keep && lim.enabled)
  {
    var s1 := Apply(s, ReadDone(Parsed(Compute(accepted, keep))), draining, lim);
    ComputeReads(s, accepted, keep, draining, lim);
    if accepted {
      LastOut(s.turn.tasks, keep);
      DeliveredWrites(Apply(s1, TaskDone(|s1.turn.tasks| - 1), draining, lim), s.turn.posts, keep, draining, lim);
    } else {
      DeliveredWrites(s1, s.turn.posts, false, draining, lim);
    }
  }

  lemma RequestWrites(s: Session, request: Request, draining: bool, lim: Limits)
    requires !s.closed && s.turn.readOps > 0
    ensures Writes(s, Responded(s, request, draining, lim), WantsMore(request) && lim.enabled)
  {
    match request
    case Fast(keep) => FastWrites(s, keep, draining, lim);
    case Compute(accepted, keep) => ComputeWrites(s, accepted, keep, draining, lim);
  }

  /** The end of the write, with the read that follows it in the same handler. */
  function Written(s: Session, ok: bool, draining: bool, lim: Limits): Session
    requires s.turn.writeOps > 0
  {
    var s' := Apply(s, WriteDone(ok), draining, lim);
    if s'.turn.resuming > s.turn.resuming then Apply(s', Resume, draining, lim) else s'
  }

  /** The limits let the connection carry another request after this one. */
  predicate MoreAllowed(s: Session, draining: bool, lim: Limits) {
    lim.enabled && s.requests + 1 < lim.maxRequests && !draining
  }

  /**
    Keep-alive, exactly. A request on an open connection, answered on whichever way and written,
    leads to the next read, with its timer set and the session not ended by any of this, if and
    only if the request wanted that, was not turned away, keep-alive is enabled, the limit is not
    reached and the server does not drain when the write completes. Otherwise the session ends,
    and nothing is read any more. `later` is what the draining flag says by then.
   */
  lemma KeptAliveIff(s: Session, request: Request, draining: bool, later: bool, lim: Limits)
    requires !s.closed && s.turn.readOps > 0
    ensures Responded(s, request, draining, lim).turn.writeOps > 0
    ensures var t := Written(Responded(s, request, draining, lim), true, later, lim);
            && t.requests == s.requests + 1 && !t.closed
            && if WantsMore(request) && MoreAllowed(s, later, lim)
               then t.turn == s.turn && t.armed && t.ended == s.ended && t.endCalls == s.endCalls
               else t.turn == s.turn.(readOps := s.turn.readOps - 1) && !t.armed && t.ended
  {
    RequestWrites(s, request, draining, lim);
    WriteSucceeds(s, Responded(s, request, draining, lim), WantsMore(request) && lim.enabled, later, lim);
  }

  lemma WriteSucceeds(s: Session, w: Session, keep: bool, later: bool, lim: Limits)
    requires Writes(s, w, keep) && !s.closed
    ensures var t := Written(w, true, later, lim);
            && t.requests == s.requests + 1 && !t.closed
            && if keep && MoreAllowed(s, later, lim)
               then t.turn == s.turn && t.armed && t.ended == s.ended && t.endCalls == s.endCalls
               else t.turn == s.turn.(readOps := s.turn.readOps - 1) && !t.armed && t.ended
  {
  }

  lemma WriteFails(s: Session, w: Session, keep: bool, later: bool, lim: Limits)
    requires Writes(s, w, keep)
    ensures Written(w, false, later, lim).ended
    ensures Written(w, false, later, lim).turn == s.turn.(readOps := s.turn.readOps - 1)
  {
  }

  /** A write that fails ends the session in any case. */
  lemma FailedWriteEnds(s: Session, request: Request, draining: bool, later: bool, lim: Limits)
    requires !s.closed && s.turn.readOps > 0
    ensures Responded(s, request, draining, lim).turn.writeOps > 0
    ensures var t := Written(Responded(s, request, draining, lim), false, later, lim);
            t.ended && t.turn == s.turn.(readOps := s.turn.readOps - 1)
  {
    RequestWrites(s, request, draining, lim);
    WriteFails(s, Responded(s, request, draining, lim), WantsMore(request) && lim.enabled, later, lim);
  }
}
