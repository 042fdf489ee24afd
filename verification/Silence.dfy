/** Which sessions can still answer a request, and so what a read timeout does and does not end. */
module Silences {
  import opened SessionModel

  /** After a completed write the session reads on. */
  predicate KeepsReading(s: Session, draining: bool, lim: Limits) {
    s.keepAlive && lim.enabled && s.requests < lim.maxRequests && !draining
  }

  /** Closed, or without a turn from which a response could still come. */
  ghost predicate Silent(s: Session, draining: bool, lim: Limits) {
    s.closed || (Reading(s) == 0 && InFlight(s) == 0 && (s.turn.writeOps == 0 || !KeepsReading(s, draining, lim)))
  }

  /** Some run of handlers starts another response. */
  ghost predicate CanAnswer(s: Session, draining: bool, lim: Limits) {
    exists run :: Answers(s, draining, run, lim)
  }

  ghost predicate Answers(s: Session, draining: bool, run: seq<Step>, lim: Limits) {
    IsRun(s, draining, run, lim) && End(s, draining, run, lim).tally.answers > s.tally.answers
  }

  // ----- A silent session stays silent -----

  lemma SilentStep(s: Session, st: Step, draining: bool, lim: Limits)
    requires Silent(s, draining, lim) && Enabled(s, st.ev)
    requires (st.ev.Launch? ==> !s.turn.launched) && (draining ==> st.draining)
    ensures Silent(Apply(s, st.ev, st.draining, lim), st.draining, lim)
    ensures Apply(s, st.ev, st.draining, lim).tally.answers == s.tally.answers
  {
    if s.closed {
      ClosedStep(s, st.ev, st.draining, lim);
    }
  }

  lemma {:induction false} SilentRun(s: Session, draining: bool, run: seq<Step>, lim: Limits)
    requires Silent(s, draining, lim) && IsRun(s, draining, run, lim)
    ensures End(s, draining, run, lim).tally.answers == s.tally.answers
    decreases |run|
  {
    if run == [] {
    } else {
      SilentStep(s, run[0], draining, lim);
      SilentRun(Apply(s, run[0].ev, run[0].draining, lim), run[0].draining, run[1..], lim);
    }
  }

  // ----- Any other session can answer -----

  /** One handler in front of a run. */
  lemma RunAfter(s: Session, ev: Event, draining: bool, later: seq<Step>, lim: Limits)
    requires Enabled(s, ev) && (ev.Launch? ==> !s.turn.launched)
    requires IsRun(Apply(s, ev, draining, lim), draining, later, lim)
    ensures IsRun(s, draining, [Step(ev, draining)] + later, lim)
    ensures End(s, draining, [Step(ev, draining)] + later, lim)
         == End(Apply(s, ev, draining, lim), draining, later, lim)
  {
    assert ([Step(ev, draining)] + later)[1..] == later;
  }

  /** One handler that starts a response. */
  lemma AnswersNow(s: Session, ev: Event, draining: bool, lim: Limits)
    requires Enabled(s, ev) && !ev.Launch?
    requires Apply(s, ev, draining, lim).tally.answers > s.tally.answers
    ensures CanAnswer(s, draining, lim)
  {
    RunAfter(s, ev, draining, [], lim);
    assert Answers(s, draining, [Step(ev, draining)] + [], lim);
  }

  /** One handler in front of a run that does. */
  lemma AnswersAfter(s: Session, ev: Event, draining: bool, lim: Limits)
    requires Enabled(s, ev) && (ev.Launch? ==> !s.turn.launched)
    requires Apply(s, ev, draining, lim).tally.answers == s.tally.answers
    requires CanAnswer(Apply(s, ev, draining, lim), draining, lim)
    ensures CanAnswer(s, draining, lim)
  {
    var later :| Answers(Apply(s, ev, draining, lim), draining, later, lim);
    RunAfter(s, ev, draining, later, lim);
    assert Answers(s, draining, [Step(ev, draining)] + later, lim);
  }

  lemma ReaderCanAnswer(s: Session, draining: bool, lim: Limits)
    requires !s.closed && Reading(s) > 0
    ensures CanAnswer(s, draining, lim)
    decreases if s.turn.readOps > 0 then 0 else if s.turn.starts + s.turn.resuming > 0 then 1 else 2
  {
    if s.turn.readOps > 0 {
      AnswersNow(s, ReadDone(Parsed(Fast(true))), draining, lim);
    } else {
      var ev := if s.turn.starts > 0 then Started else if s.turn.resuming > 0 then Resume else Launch;
      ReaderCanAnswer(Apply(s, ev, draining, lim), draining, lim);
      AnswersAfter(s, ev, draining, lim);
    }
  }

  lemma ResponderCanAnswer(s: Session, draining: bool, lim: Limits)
    requires !s.closed && InFlight(s) > 0
    ensures CanAnswer(s, draining, lim)
    decreases if s.turn.sends != [] then 0 else if s.turn.posts != [] then 1 else 2
  {
    if s.turn.sends != [] {
      AnswersNow(s, SendRun(0), draining, lim);
    } else {
      var ev := if s.turn.posts != [] then PostRun(0) else TaskDone(0);
      ResponderCanAnswer(Apply(s, ev, draining, lim), draining, lim);
      AnswersAfter(s, ev, draining, lim);
    }
  }

  lemma WriterCanAnswer(s: Session, draining: bool, lim: Limits)
    requires !s.closed && s.turn.writeOps > 0 && KeepsReading(s, draining, lim)
    ensures CanAnswer(s, draining, lim)
  {
    ReaderCanAnswer(Apply(s, WriteDone(true), draining, lim), draining, lim);
    AnswersAfter(s, WriteDone(true), draining, lim);
  }

  /** No run starts another response if and only if the session is closed or has no such turn left. */
  lemma SilentIff(s: Session, draining: bool, lim: Limits)
    ensures !CanAnswer(s, draining, lim) <==> Silent(s, draining, lim)
  {
    if Silent(s, draining, lim) {
      forall run | IsRun(s, draining, run, lim) ensures !Answers(s, draining, run, lim) {
        SilentRun(s, draining, run, lim);
      }
    } else if Reading(s) > 0 {
      ReaderCanAnswer(s, draining, lim);
    } else if InFlight(s) > 0 {
      ResponderCanAnswer(s, draining, lim);
    } else {
      WriterCanAnswer(s, draining, lim);
    }
  }

  // ----- The read timeout -----

  /** A wait of the timer is over: the running one, or one that was cancelled too late. */
  predicate IsTimeout(ev: Event) {
    ev == Expired || ev == TimerDone(false)
  }

  /**
    When the timeout does what it says. After it, no run whatever starts another response if
    and only if the session was closed already, or had neither a read nor a response nor a
    write to be followed by a read under way when the timer expired.
   */
  lemma TimeoutSilencesIff(s: Session, timeout: Event, draining: bool, lim: Limits)
    requires IsTimeout(timeout) && Enabled(s, timeout)
    ensures var s' := Apply(s, timeout, draining, lim);
            && s'.ended
            && (!CanAnswer(s', draining, lim) <==> Silent(s, draining, lim))
  {
    SilentIff(Apply(s, timeout, draining, lim), draining, lim);
  }

  /** What the timer is set for: while its read is pending, the timeout never silences an open session. */
  lemma TimeoutOfReadNeverSilences(s: Session, draining: bool, lim: Limits)
    requires s.armed && s.turn.readOps > 0
    ensures !CanAnswer(Apply(s, Expired, draining, lim), draining, lim) <==> s.closed
  {
    TimeoutSilencesIff(s, Expired, draining, lim);
  }

  /**
    It happens from the very first state, on every server: the first read times out, the server is
    told of the end, and a request that arrives afterwards is parsed and its answer written.
   */
  lemma TimedOutSessionAnswers(lim: Limits, keep: bool) returns (run: seq<Step>, s: Session)
    ensures IsRun(FRESH, false, run, lim) && s == End(FRESH, false, run, lim)
    ensures s.ended && s.endCalls == 1 && !s.closed && s.requests == 0 && s.tally.answers == 0
    ensures Enabled(s, ReadDone(Parsed(Fast(keep))))
    ensures var s' := Apply(s, ReadDone(Parsed(Fast(keep))), false, lim);
            s'.requests == 1 && s'.tally.answers == 1 && s'.turn.writeOps == 1
  {
    var s1 := Apply(FRESH, Launch, false, lim);
    var s2 := Apply(s1, Started, false, lim);
    s := Apply(s2, Expired, false, lim);
    RunAfter(s2, Expired, false, [], lim);
    RunAfter(s1, Started, false, [Step(Expired, false)], lim);
    run := [Step(Started, false)] + [Step(Expired, false)];
    RunAfter(FRESH, Launch, false, run, lim);
    run := [Step(Launch, false)] + run;
  }
}
