/**
  The thread pool as a monitor: workers, submitters and shutdown calls interleaving at the
  points where the queue lock is taken or released, with one condition variable.

  A step is what one thread does between two such points. A submitter that has unlocked but
  not yet called `notify_one` is an undelivered notification; a `shutdown` or `abort` that
  has not yet called `notify_all` is an undelivered broadcast. Sleeping workers may wake for
  no reason at all.
 */
module PoolProtocol {
  import Q = QueueModel
  import opened Sums

  type Entry = Q.Entry

  datatype Worker =
    | NotStarted
    | Awake                  // about to take the lock and look at the queue
    | Sleeping               // inside the condition variable
    | Running(entry: Entry)  // executing a task
    | Exited                 // left its loop

  datatype Pool = Pool(
    q: Q.QState,
    clock: int,            // the last time read under the lock
    workers: seq<Worker>,
    notifies: nat,         // notify_one calls not yet delivered
    broadcasts: nat,       // notify_all calls not yet delivered
    delivered: bool,       // whether any notify_all has been delivered
    accepted: seq<Entry>,  // history: every submission that was accepted
    executed: seq<Entry>   // history: every submission whose execution has ended
  )

  datatype Step =
    | Submit(task: nat, priority: Q.Int32, now: int)
    | NotifyOne(w: nat)
    | Spurious(w: nat)
    | Start(w: nat)
    | Look(w: nat, now: int)
    | Finish(w: nat)
    | ShutDown
    | AbortAll
    | NotifyAll

  /** A pool of `n` workers; asking for none gives one. */
  function Init(n: nat, capacity: nat): Pool {
    Pool(Q.QState([], 0, capacity, false, false), 0,
         seq(if n == 0 then 1 else n, _ => NotStarted), 0, 0, false, [], [])
  }

  function WakeAll(ws: seq<Worker>): (r: seq<Worker>)
    ensures |r| == |ws|
    ensures forall i :: 0 <= i < |ws| ==> r[i] == if ws[i].Sleeping? then Awake else ws[i]
  {
    seq(|ws|, i requires 0 <= i < |ws| => if ws[i].Sleeping? then Awake else ws[i])
  }

  predicate Enabled(s: Pool, st: Step) {
    match st
    case Submit(_, _, now) => s.clock <= now
    case NotifyOne(w) =>
      && s.notifies > 0 && w < |s.workers|
      && (s.workers[w].Sleeping? || forall v :: 0 <= v < |s.workers| ==> !s.workers[v].Sleeping?)
    case Spurious(w) => w < |s.workers| && s.workers[w].Sleeping?
    case Start(w) => w < |s.workers| && s.workers[w].NotStarted?
    case Look(w, now) => w < |s.workers| && s.workers[w].Awake? && s.clock <= now
    case Finish(w) => w < |s.workers| && s.workers[w].Running?
    case ShutDown => true
    case AbortAll => true
    case NotifyAll => s.broadcasts > 0
  }

  /** What a worker does next, given what it found in the queue. */
  function AfterLook(r: Q.PopResult): Worker {
    match r
    case Blocked => Sleeping
    case Null => Exited
    case Taken(e) => Running(e)
  }

  function Apply(s: Pool, st: Step): Pool
    requires Enabled(s, st)
  {
    match st
    case Submit(task, priority, now) =>
      var (q, ok) := Q.Push(s.q, task, priority, now);
      if ok then s.(q := q, clock := now, notifies := s.notifies + 1,
                    accepted := s.accepted + [Q.Entry(priority, s.q.order, task, now)])
      else s.(q := q, clock := now)
    case NotifyOne(w) =>
      s.(notifies := s.notifies - 1,
         workers := if s.workers[w].Sleeping? then s.workers[w := Awake] else s.workers)
    case Spurious(w) => s.(workers := s.workers[w := Awake])
    case Start(w) => s.(workers := s.workers[w := Awake])
    case Look(w, now) =>
      var (q, r) := Q.Pop(s.q, now);
      s.(q := q, clock := now, workers := s.workers[w := AfterLook(r)])
    case Finish(w) =>
      s.(workers := s.workers[w := Awake], executed := s.executed + [s.workers[w].entry])
    case ShutDown => s.(q := Q.Shutdown(s.q), broadcasts := s.broadcasts + 1)
    case AbortAll => s.(q := Q.Abort(s.q), broadcasts := s.broadcasts + 1)
    case NotifyAll => s.(broadcasts := s.broadcasts - 1, delivered := true, workers := WakeAll(s.workers))
  }

  /** Every step of the sequence is enabled where it is taken. */
  ghost predicate IsRun(s: Pool, run: seq<Step>)
    decreases |run|
  {
    run == [] || (Enabled(s, run[0]) && IsRun(Apply(s, run[0]), run[1..]))
  }

  function End(s: Pool, run: seq<Step>): Pool
    requires IsRun(s, run)
    decreases |run|
  {
    if run == [] then s else End(Apply(s, run[0]), run[1..])
  }

  // ----- Conservation of tasks -----

  function Held(w: Worker): multiset<Entry> {
    if w.Running? then multiset{w.entry} else multiset{}
  }

  /** The submissions being executed. */
  function InHand(ws: seq<Worker>): multiset<Entry> {
    if ws == [] then multiset{} else Held(ws[0]) + InHand(ws[1..])
  }

  lemma Exchange<T>(a: multiset<T>, b: multiset<T>, c: multiset<T>, d: multiset<T>, x: multiset<T>)
    requires a + b == c + d
    ensures x + a + b == x + c + d
  {
    assert x + a + b == x + (a + b);
    assert x + c + d == x + (c + d);
  }

  /** A submission moving from `p` to `h`, the two changing by the same amount `x`. */
  lemma Move<T>(p: multiset<T>, h: multiset<T>, rest: multiset<T>, p': multiset<T>, h': multiset<T>, x: multiset<T>)
    requires p' + x == p && h' == h + x
    ensures p' + h' + rest == p + h + rest
  {
    assert p' + h' + rest == (p' + x) + h + rest;
  }

  lemma {:induction false} InHandUpdate(ws: seq<Worker>, i: nat, w: Worker)
    requires i < |ws|
    ensures InHand(ws[i := w]) + Held(ws[i]) == InHand(ws) + Held(w)
    decreases |ws|
  {
    if i == 0 {
      assert ws[i := w][1..] == ws[1..];
    } else {
      assert ws[i := w][1..] == ws[1..][i - 1 := w];
      InHandUpdate(ws[1..], i - 1, w);
      Exchange(InHand(ws[1..][i - 1 := w]), Held(ws[i]), InHand(ws[1..]), Held(w), Held(ws[0]));
    }
  }

  lemma {:induction false} InHandPointwise(ws: seq<Worker>, vs: seq<Worker>)
    requires |ws| == |vs| && forall i :: 0 <= i < |ws| ==> Held(ws[i]) == Held(vs[i])
    ensures InHand(ws) == InHand(vs)
    decreases |ws|
  {
    if ws == [] {
    } else {
      assert forall i :: 0 <= i < |ws| - 1 ==> ws[1..][i] == ws[i + 1] && vs[1..][i] == vs[i + 1];
      InHandPointwise(ws[1..], vs[1..]);
    }
  }

  lemma {:induction false} NothingInHand(ws: seq<Worker>)
    requires forall i :: 0 <= i < |ws| ==> !ws[i].Running?
    ensures InHand(ws) == multiset{}
    decreases |ws|
  {
    if ws == [] {
    } else {
      assert forall i :: 0 <= i < |ws| - 1 ==> ws[1..][i] == ws[i + 1];
      NothingInHand(ws[1..]);
    }
  }

  ghost predicate Balanced(p: seq<Entry>, ws: seq<Worker>, done: seq<Entry>, all: seq<Entry>) {
    multiset(p) + InHand(ws) + multiset(done) == multiset(all)
  }

  /** A worker that only sleeps, wakes or leaves holds nothing before or after. */
  lemma IdleKeepsBalance(p: seq<Entry>, ws: seq<Worker>, done: seq<Entry>, all: seq<Entry>, i: nat, w: Worker)
    requires Balanced(p, ws, done, all) && i < |ws| && !ws[i].Running? && !w.Running?
    ensures Balanced(p, ws[i := w], done, all)
  {
    InHandUpdate(ws, i, w);
    assert InHand(ws[i := w]) == InHand(ws[i := w]) + Held(ws[i]);
    assert InHand(ws) == InHand(ws) + Held(w);
  }

  lemma LookKeepsBalance(p: seq<Entry>, p': seq<Entry>, r: Q.PopResult, ws: seq<Worker>,
                         done: seq<Entry>, all: seq<Entry>, i: nat)
    requires Balanced(p, ws, done, all) && i < |ws| && !ws[i].Running?
    requires r.Taken? ==> multiset(p') + multiset{r.entry} == multiset(p)
    requires !r.Taken? ==> p' == p
    ensures Balanced(p', ws[i := AfterLook(r)], done, all)
  {
    if r.Taken? {
      InHandUpdate(ws, i, AfterLook(r));
      assert InHand(ws[i := AfterLook(r)]) == InHand(ws[i := AfterLook(r)]) + Held(ws[i]);
      Move(multiset(p), InHand(ws), multiset(done), multiset(p'), InHand(ws[i := AfterLook(r)]), multiset{r.entry});
    } else {
      IdleKeepsBalance(p, ws, done, all, i, AfterLook(r));
    }
  }

  lemma FinishKeepsBalance(p: seq<Entry>, ws: seq<Worker>, done: seq<Entry>, all: seq<Entry>, i: nat)
    requires Balanced(p, ws, done, all) && i < |ws| && ws[i].Running?
    ensures Balanced(p, ws[i := Awake], done + [ws[i].entry], all)
  {
    InHandUpdate(ws, i, Awake);
    var x := multiset{ws[i].entry};
    assert InHand(ws[i := Awake]) + x == InHand(ws);
    assert multiset(done + [ws[i].entry]) == multiset(done) + x;
    Move(InHand(ws), multiset(done), multiset(p), InHand(ws[i := Awake]), multiset(done + [ws[i].entry]), x);
  }

  lemma AcceptKeepsBalance(p: seq<Entry>, ws: seq<Worker>, done: seq<Entry>, all: seq<Entry>, e: Entry)
    requires Balanced(p, ws, done, all)
    ensures Balanced(p + [e], ws, done, all + [e])
  {
    Exchange(multiset(p) + InHand(ws), multiset(done), multiset(all), multiset{}, multiset{e});
    assert multiset(p + [e]) == multiset{e} + multiset(p);
    assert multiset(all + [e]) == multiset{e} + multiset(all);
  }

  /**
    Accepted = queued + running + executed, submission by submission; and what was accepted
    is numbered 0, 1, 2, ..., so no two of them are equal and each is counted exactly once.
   */
  ghost predicate Conserved(s: Pool) {
    && Balanced(s.q.pending, s.workers, s.executed, s.accepted)
    && Numbered(s.accepted, s.q.order)
  }

  ghost predicate Numbered(all: seq<Entry>, order: nat) {
    |all| == order && forall k :: 0 <= k < |all| ==> all[k].order == k
  }

  lemma SubmitConserves(s: Pool, st: Step)
    requires Conserved(s) && Enabled(s, st) && st.Submit?
    ensures Conserved(Apply(s, st))
  {
    AcceptKeepsBalance(s.q.pending, s.workers, s.executed, s.accepted,
                       Q.Entry(st.priority, s.q.order, st.task, st.now));
  }

  lemma LookConserves(s: Pool, st: Step)
    requires Conserved(s) && Enabled(s, st) && st.Look?
    ensures Conserved(Apply(s, st))
  {
    var q', r := Q.Pop(s.q, st.now).0, Q.Pop(s.q, st.now).1;
    Q.PopConserves(s.q, st.now);
    LookKeepsBalance(s.q.pending, q'.pending, r, s.workers, s.executed, s.accepted, st.w);
  }

  lemma WakeConserves(s: Pool, st: Step)
    requires Conserved(s) && Enabled(s, st) && (st.NotifyOne? || st.Spurious? || st.Start? || st.NotifyAll?)
    ensures Conserved(Apply(s, st))
  {
    if st.NotifyAll? {
      InHandPointwise(s.workers, WakeAll(s.workers));
    } else if !s.workers[st.w].Running? {
      IdleKeepsBalance(s.q.pending, s.workers, s.executed, s.accepted, st.w, Awake);
    }
  }

  lemma StepConserves(s: Pool, st: Step)
    requires Conserved(s) && Enabled(s, st)
    ensures Conserved(Apply(s, st))
  {
    if st.Submit? {
      SubmitConserves(s, st);
    } else if st.Look? {
      LookConserves(s, st);
    } else if st.Finish? {
      FinishKeepsBalance(s.q.pending, s.workers, s.executed, s.accepted, st.w);
    } else if !st.ShutDown? && !st.AbortAll? {
      WakeConserves(s, st);
    }
  }

  // ----- No lost wake-up -----

  function AwakeWeight(w: Worker): nat { if w.Awake? then 1 else 0 }

  /** Workers on their way to the queue. */
  function AwakeCount(ws: seq<Worker>): nat { Sum(ws, AwakeWeight) }

  ghost predicate SomeoneSleeps(ws: seq<Worker>) {
    exists i :: 0 <= i < |ws| && ws[i].Sleeping?
  }

  /**
    As long as nobody aborts: if any worker sleeps, every queued task has a worker or an
    undelivered notification to itself. (An abort ends this on purpose: workers leave.)
   */
  ghost predicate NoLostWakeUp(s: Pool) {
    !s.q.abort && SomeoneSleeps(s.workers) ==> |s.q.pending| <= AwakeCount(s.workers) + s.notifies
  }

  lemma StepKeepsWakeUps(s: Pool, st: Step)
    requires NoLostWakeUp(s) && Enabled(s, st)
    ensures NoLostWakeUp(Apply(s, st))
  {
    var ws := s.workers;
    match st
    case Submit(task, priority, now) =>
    case NotifyOne(w) => SumUpdate(ws, w, Awake, AwakeWeight);
    case Spurious(w) => SumUpdate(ws, w, Awake, AwakeWeight);
    case Start(w) =>
      SumUpdate(ws, w, Awake, AwakeWeight);
    case Look(w, now) => LookKeepsWakeUps(s, w, now);
    case Finish(w) =>
      SumUpdate(ws, w, Awake, AwakeWeight);
    case ShutDown =>
    case AbortAll =>
    case NotifyAll =>
  }

  lemma LookKeepsWakeUps(s: Pool, w: nat, now: int)
    requires NoLostWakeUp(s) && Enabled(s, Look(w, now))
    ensures NoLostWakeUp(Apply(s, Look(w, now)))
  {
    var (q, r) := Q.Pop(s.q, now);
    SumUpdate(s.workers, w, AfterLook(r), AwakeWeight);
    assert !r.Blocked? && SomeoneSleeps(s.workers[w := AfterLook(r)]) ==> SomeoneSleeps(s.workers);
  }

  // ----- The shutdown and abort broadcasts -----

  /**
    A pending shutdown or abort either still owes its broadcast, or has delivered one and no
    worker sleeps; and without either there was nothing to deliver.
   */
  ghost predicate BroadcastsOwed(s: Pool) {
    && (s.q.done || s.q.abort ==> s.broadcasts > 0 || s.delivered)
    && (s.delivered ==> (s.q.done || s.q.abort) && !SomeoneSleeps(s.workers))
    && (s.broadcasts > 0 ==> s.q.done || s.q.abort)
  }

  /** A worker leaves only on shutdown with an empty queue, or on abort. */
  ghost predicate ExitsJustified(s: Pool) {
    forall i :: 0 <= i < |s.workers| && s.workers[i].Exited? ==>
      s.q.abort || (s.q.done && s.q.pending == [])
  }

  lemma StepKeepsBroadcasts(s: Pool, st: Step)
    requires BroadcastsOwed(s) && Enabled(s, st)
    ensures BroadcastsOwed(Apply(s, st))
  {
    var s' := Apply(s, st);
    if s.delivered && s'.delivered {
      assert !SomeoneSleeps(s'.workers);
    }
  }

  lemma StepKeepsExits(s: Pool, st: Step)
    requires ExitsJustified(s) && Enabled(s, st)
    ensures ExitsJustified(Apply(s, st))
  {
  }

  // ----- The invariant over all runs -----

  ghost predicate Inv(s: Pool) {
    && s.workers != []
    && Q.WellFormed(s.q, s.clock)
    && Conserved(s)
    && NoLostWakeUp(s)
    && BroadcastsOwed(s)
    && ExitsJustified(s)
  }

  lemma InitInv(n: nat, capacity: nat)
    ensures Inv(Init(n, capacity)) && |Init(n, capacity).workers| == if n == 0 then 1 else n
  {
    NothingInHand(Init(n, capacity).workers);
  }

  lemma StepKeepsWellFormed(s: Pool, st: Step)
    requires Q.WellFormed(s.q, s.clock) && Enabled(s, st)
    ensures Q.WellFormed(Apply(s, st).q, Apply(s, st).clock)
  {
    match st
    case Submit(task, priority, now) => Q.PushKeepsWellFormed(s.q, task, priority, now, s.clock);
    case Look(w, now) => Q.PopKeepsWellFormed(s.q, now, s.clock);
    case _ =>
  }

  lemma StepInv(s: Pool, st: Step)
    requires Inv(s) && Enabled(s, st)
    ensures Inv(Apply(s, st))
  {
    StepKeepsWellFormed(s, st);
    StepConserves(s, st);
    assert Q.WellFormed(Apply(s, st).q, Apply(s, st).clock) && Conserved(Apply(s, st));
    StepKeepsWakeUps(s, st);
    assert NoLostWakeUp(Apply(s, st));
    StepKeepsBroadcasts(s, st);
    assert BroadcastsOwed(Apply(s, st));
    StepKeepsExits(s, st);
  }

  /** Every state any interleaving can reach satisfies the invariant. */
  lemma {:induction false} RunInv(s: Pool, run: seq<Step>)
    requires Inv(s) && IsRun(s, run)
    ensures Inv(End(s, run))
    decreases |run|
  {
    if run == [] {
    } else {
      StepInv(s, run[0]);
      RunInv(Apply(s, run[0]), run[1..]);
    }
  }
}
