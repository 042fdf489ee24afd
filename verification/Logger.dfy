/**
  The asynchronous logger: any number of threads logging, one consumer thread writing to the
  sink, and a shutdown that flushes. First the objects, then their interleavings.
 */
module Loggers {

  datatype Level = DEBUG | INFO | WARNING | ERROR

  function Rank(l: Level): nat {
    match l
    case DEBUG => 0
    case INFO => 1
    case WARNING => 2
    case ERROR => 3
  }

  datatype Message = Message(text: string, level: Level)

  /** What the consumer gets when it holds the lock and looks at the wait predicate. */
  datatype PopResult = Blocked | Nothing | Got(msg: Message)

  /** What a pop does to the queue. */
  function Pop(queue: seq<Message>, done: bool): (seq<Message>, PopResult) {
    if queue != [] then (queue[1..], Got(queue[0]))
    else (queue, if done then Nothing else Blocked)
  }

  class MessageQueue {
    var queue: seq<Message>
    var done: bool

    constructor ()
      ensures queue == [] && !done
    {
      queue, done := [], false;
    }

    method Push(msg: Message)
      modifies this`queue
      ensures queue == old(queue) + [msg]
    {
      queue := queue + [msg];
    }

    method TryPop() returns (r: PopResult)
      modifies this`queue
      ensures (queue, r) == Pop(old(queue), done)
      ensures if old(queue) != [] then r == Got(old(queue)[0]) && queue == old(queue)[1..]
              else queue == [] && r == if done then Nothing else Blocked
    {
      if queue == [] && !done {
        return Blocked;
      }
      if queue != [] {
        var msg := queue[0];
        queue := queue[1..];
        return Got(msg);
      }
      return Nothing;
    }

    method Shutdown()
      modifies this`done
      ensures done
    {
      done := true;
    }
  }

  class LogSink {
    var written: seq<Message>

    constructor ()
      ensures written == []
    {
      written := [];
    }

    method Write(msg: Message)
      modifies this
      ensures written == old(written) + [msg]
    {
      written := written + [msg];
    }
  }

  class AsyncLogger {
    const queue: MessageQueue
    const sink: LogSink
    var minLevel: Level

    constructor (queue: MessageQueue, sink: LogSink)
      ensures this.queue == queue && this.sink == sink && minLevel == INFO
    {
      this.queue, this.sink, minLevel := queue, sink, INFO;
    }

    method Log(text: string, level: Level)
      modifies queue`queue
      ensures queue.queue == old(queue.queue) + Passing([Message(text, level)], minLevel)
      ensures queue.queue == old(queue.queue) +
                match minLevel
                case DEBUG => [Message(text, level)]
                case INFO => if level == DEBUG then [] else [Message(text, level)]
                case WARNING => if level == WARNING || level == ERROR then [Message(text, level)] else []
                case ERROR => if level == ERROR then [Message(text, level)] else []
    {
      if Rank(level) < Rank(minLevel) {
        return;
      }
      queue.Push(Message(text, level));
    }

    /** The consumer's loop once the queue is shut down and nobody logs any more: it flushes and ends. */
    method Consume()
      requires queue.done
      modifies queue`queue, sink
      ensures queue.queue == []
      ensures sink.written == old(sink.written) + old(queue.queue)
    {
      while true
        invariant queue.done
        invariant sink.written + queue.queue == old(sink.written) + old(queue.queue)
        decreases |queue.queue|
      {
        var msg := queue.TryPop();
        if !msg.Got? {
          break;
        }
        sink.Write(msg.msg);
      }
    }
  }

  /** The messages at or above the minimum level, in order. */
  function Passing(log: seq<Message>, min: Level): seq<Message> {
    if log == [] then []
    else Passing(log[..|log| - 1], min) +
         (if Rank(log[|log| - 1].level) < Rank(min) then [] else [log[|log| - 1]])
  }

  predicate PassesLevel(level: Level, min: Level) {
    match min
    case DEBUG => true
    case INFO => level != DEBUG
    case WARNING => level == WARNING || level == ERROR
    case ERROR => level == ERROR
  }

  /** What passes, level by level: the minimum and whatever is more severe. */
  lemma {:induction false} PassesIff(log: seq<Message>, min: Level, m: Message)
    ensures m in Passing(log, min) <==> (m in log && PassesLevel(m.level, min))
    decreases |log|
  {
    if log == [] {
    } else {
      PassesIff(log[..|log| - 1], min, m);
      assert log == log[..|log| - 1] + [log[|log| - 1]];
    }
  }

  // ----- Interleavings -----

  datatype Consumer = NotStarted | Awake | Sleeping | Writing(msg: Message) | Exited

  datatype State = State(
    queue: seq<Message>,
    done: bool,
    consumer: Consumer,
    notifies: nat,          // notify_one calls not yet delivered
    broadcasts: nat,        // notify_all calls not yet delivered
    delivered: bool,        // whether any notify_all has been delivered
    sink: seq<Message>,     // what has been written
    logged: seq<Message>,   // history: every call of log, in the order of their pushes
    flushed: nat            // history: how many of them came before the first shutdown
  )

  datatype Step = Log(msg: Message) | Notify | Spurious | Start | Look | Write | ShutDown | NotifyAll

  const INITIAL := State([], false, NotStarted, 0, 0, false, [], [], 0)

  predicate Enabled(s: State, st: Step) {
    match st
    case Log(_) => true
    case Notify => s.notifies > 0
    case Spurious => s.consumer.Sleeping?
    case Start => s.consumer.NotStarted?
    case Look => s.consumer.Awake?
    case Write => s.consumer.Writing?
    case ShutDown => true
    case NotifyAll => s.broadcasts > 0
  }

  function Woken(c: Consumer): Consumer {
    if c.Sleeping? then Awake else c
  }

  function Apply(s: State, min: Level, st: Step): State
    requires Enabled(s, st)
  {
    match st
    case Log(msg) =>
      if Rank(msg.level) < Rank(min) then s.(logged := s.logged + [msg])
      else s.(logged := s.logged + [msg], queue := s.queue + [msg], notifies := s.notifies + 1)
    case Notify => s.(notifies := s.notifies - 1, consumer := Woken(s.consumer))
    case Spurious => s.(consumer := Awake)
    case Start => s.(consumer := Awake)
    case Look =>
      var (q, r) := Pop(s.queue, s.done);
      s.(queue := q, consumer := if r.Got? then Writing(r.msg) else if r.Blocked? then Sleeping else Exited)
    case Write => s.(sink := s.sink + [s.consumer.msg], consumer := Awake)
    case ShutDown =>
      s.(done := true, broadcasts := s.broadcasts + 1, flushed := if s.done then s.flushed else |s.logged|)
    case NotifyAll => s.(broadcasts := s.broadcasts - 1, delivered := true, consumer := Woken(s.consumer))
  }

  function InHand(c: Consumer): seq<Message> {
    if c.Writing? then [c.msg] else []
  }

  lemma PassingAppend(log: seq<Message>, msg: Message, min: Level)
    ensures Passing(log + [msg], min) == Passing(log, min) + (if Rank(msg.level) < Rank(min) then [] else [msg])
  {
    assert (log + [msg])[..|log|] == log;
  }

  lemma {:induction false} PassingPrefix(log: seq<Message>, n: nat, min: Level)
    requires n <= |log|
    ensures Passing(log[..n], min) <= Passing(log, min)
    decreases |log|
  {
    if n < |log| {
      var front := log[..|log| - 1];
      assert front[..n] == log[..n];
      PassingPrefix(front, n, min);
    } else {
      assert log[..n] == log;
    }
  }

  /** Written, in hand and queued, in this order, are exactly the messages that passed, in push order. */
  ghost predicate Fifo(s: State, min: Level) {
    s.sink + InHand(s.consumer) + s.queue == Passing(s.logged, min)
  }

  ghost predicate WakeUps(s: State) {
    && (s.consumer.Sleeping? ==> |s.queue| <= s.notifies)
    && (s.done ==> s.broadcasts > 0 || s.delivered)
    && (s.broadcasts > 0 || s.delivered ==> s.done)
    && (s.delivered ==> !s.consumer.Sleeping?)
  }

  /** When the consumer leaves, everything from before the shutdown is written. */
  ghost predicate Flushes(s: State, min: Level) {
    && s.flushed <= |s.logged|
    && (s.consumer.Exited? ==> s.done && Passing(s.logged[..s.flushed], min) <= s.sink)
  }

  ghost predicate Inv(s: State, min: Level) {
    Fifo(s, min) && WakeUps(s) && Flushes(s, min)
  }

  lemma StepFifo(s: State, min: Level, st: Step)
    requires Fifo(s, min) && Enabled(s, st)
    ensures Fifo(Apply(s, min, st), min)
  {
    if st.Log? {
      PassingAppend(s.logged, st.msg, min);
    }
  }

  lemma StepFlushes(s: State, min: Level, st: Step)
    requires Inv(s, min) && Enabled(s, st)
    ensures Flushes(Apply(s, min, st), min)
  {
    match st
    case Log(msg) => assert (s.logged + [msg])[..s.flushed] == s.logged[..s.flushed];
    case Look => PassingPrefix(s.logged, s.flushed, min);
    case ShutDown => assert s.logged[..|s.logged|] == s.logged;
    case _ =>
  }

  lemma StepInv(s: State, min: Level, st: Step)
    requires Inv(s, min) && Enabled(s, st)
    ensures Inv(Apply(s, min, st), min)
  {
    StepFifo(s, min, st);
    StepFlushes(s, min, st);
  }

  ghost predicate IsRun(s: State, min: Level, run: seq<Step>)
    decreases |run|
  {
    run == [] || (Enabled(s, run[0]) && IsRun(Apply(s, min, run[0]), min, run[1..]))
  }

  function End(s: State, min: Level, run: seq<Step>): State
    requires IsRun(s, min, run)
    decreases |run|
  {
    if run == [] then s else End(Apply(s, min, run[0]), min, run[1..])
  }

  lemma {:induction false} RunInv(s: State, min: Level, run: seq<Step>)
    requires Inv(s, min) && IsRun(s, min, run)
    ensures Inv(End(s, min, run), min)
    decreases |run|
  {
    if run == [] {
    } else {
      StepInv(s, min, run[0]);
      RunInv(Apply(s, min, run[0]), min, run[1..]);
    }
  }

  /**
    In every interleaving the sink holds a prefix of the messages that pass the level, in push
    order, each once; and when the consumer has left, all that were pushed before the
    shutdown are in it.
   */
  lemma SinkIsFifoAndFlushed(min: Level, run: seq<Step>)
    requires IsRun(INITIAL, min, run)
    ensures var s := End(INITIAL, min, run);
            && s.sink <= Passing(s.logged, min)
            && s.flushed <= |s.logged|
            && (s.consumer.Exited? ==> Passing(s.logged[..s.flushed], min) <= s.sink)
  {
    RunInv(INITIAL, min, run);
  }

  /** A sleeping consumer has nothing to write that nobody is about to wake it for. */
  lemma NoMessageIsForgotten(min: Level, run: seq<Step>)
    requires IsRun(INITIAL, min, run)
    ensures var s := End(INITIAL, min, run);
            s.consumer.Sleeping? ==> |s.queue| <= s.notifies && (s.done ==> s.broadcasts > 0)
  {
    RunInv(INITIAL, min, run);
  }

  /** What the consumer still has to do. */
  function Measure(s: State): nat {
    2 * |s.queue| + match s.consumer case Awake => 1 case Exited => 0 case _ => 2
  }

  function CountMoves(s: State, min: Level, run: seq<Step>): nat
    requires IsRun(s, min, run)
    decreases |run|
  {
    if run == [] then 0
    else
      var s' := Apply(s, min, run[0]);
      (if s'.consumer != s.consumer then 1 else 0) + CountMoves(s', min, run[1..])
  }

  ghost predicate NobodyLogs(run: seq<Step>) {
    forall st :: st in run ==> !st.Log?
  }

  /** After shutdown, once logging stops, the consumer makes no more moves than the measure: the flush ends. */
  lemma {:induction false} FlushIsBounded(s: State, min: Level, run: seq<Step>)
    requires s.done && IsRun(s, min, run) && NobodyLogs(run)
    ensures CountMoves(s, min, run) + Measure(End(s, min, run)) <= Measure(s)
    decreases |run|
  {
    if run == [] {
    } else {
      MoveDecreases(s, min, run[0]);
      FlushIsBounded(Apply(s, min, run[0]), min, run[1..]);
    }
  }

  lemma MoveDecreases(s: State, min: Level, st: Step)
    requires s.done && Enabled(s, st) && !st.Log?
    ensures Apply(s, min, st).done
    ensures Measure(Apply(s, min, st)) + (if Apply(s, min, st).consumer != s.consumer then 1 else 0) <= Measure(s)
  {
  }

  // ----- The flush ends in every fair infinite behaviour -----

  ghost predicate Passes(beh: nat -> State, sched: nat -> Step, min: Level, n: nat) {
    Enabled(beh(n), sched(n)) && beh(n + 1) == Apply(beh(n), min, sched(n))
  }

  ghost predicate Behaviour(beh: nat -> State, sched: nat -> Step, min: Level) {
    forall n: nat :: Passes(beh, sched, min, n)
  }

  /** A step of the consumer's own thread. */
  predicate IsOwnStep(st: Step) {
    st.Start? || st.Look? || st.Write?
  }

  ghost predicate OwnStepLater(sched: nat -> Step, n: nat, m: nat) {
    n <= m && IsOwnStep(sched(m))
  }

  ghost predicate BroadcastLater(sched: nat -> Step, n: nat, m: nat) {
    n <= m && sched(m).NotifyAll?
  }

  /**
    Fair scheduling: unless it sleeps or is gone, the consumer takes its next step sooner or
    later (its thread runs, its sink returns), and an owed broadcast is delivered sooner or later.
   */
  ghost predicate Fair(beh: nat -> State, sched: nat -> Step) {
    && (forall n: nat {:trigger beh(n).consumer} :: !beh(n).consumer.Sleeping? && !beh(n).consumer.Exited? ==>
          exists m: nat :: OwnStepLater(sched, n, m))
    && (forall n: nat {:trigger beh(n).broadcasts} :: beh(n).broadcasts > 0 ==>
          exists m: nat :: BroadcastLater(sched, n, m))
  }

  /** From the shutdown on nobody logs. */
  ghost predicate Quiet(sched: nat -> Step) {
    forall n: nat :: !sched(n).Log?
  }

  ghost predicate Flushing(beh: nat -> State, sched: nat -> Step, min: Level) {
    Behaviour(beh, sched, min) && Fair(beh, sched) && Quiet(sched) && Inv(beh(0), min) && beh(0).done
  }

  lemma StepFlushing(s: State, min: Level, st: Step)
    requires Inv(s, min) && s.done && Enabled(s, st) && !st.Log?
    ensures Inv(Apply(s, min, st), min) && Apply(s, min, st).done && Apply(s, min, st).logged == s.logged
  {
    StepInv(s, min, st);
  }

  lemma {:induction false} StaysFlushing(beh: nat -> State, sched: nat -> Step, min: Level, n: nat)
    requires Flushing(beh, sched, min)
    ensures Inv(beh(n), min) && beh(n).done && beh(n).logged == beh(0).logged
  {
    if n == 0 {
    } else {
      StaysFlushing(beh, sched, min, n - 1);
      assert Passes(beh, sched, min, n - 1) && !sched(n - 1).Log?;
      StepFlushing(beh(n - 1), min, sched(n - 1));
    }
  }

  /** The measure never grows, and is smaller as soon as the consumer has moved. */
  lemma {:induction false} MeasureFalls(beh: nat -> State, sched: nat -> Step, min: Level, n: nat, m: nat)
    requires Flushing(beh, sched, min) && n <= m
    ensures Measure(beh(m)) <= Measure(beh(n))
    ensures beh(m).consumer != beh(n).consumer ==> Measure(beh(m)) < Measure(beh(n))
    decreases m
  {
    if n == m {
    } else {
      MeasureFalls(beh, sched, min, n, m - 1);
      StaysFlushing(beh, sched, min, m - 1);
      assert Passes(beh, sched, min, m - 1) && !sched(m - 1).Log?;
      MoveDecreases(beh(m - 1), min, sched(m - 1));
    }
  }

  /** After shutdown no look blocks, so each step of its own moves the consumer. */
  lemma OwnStepMoves(s: State, min: Level, st: Step)
    requires s.done && Enabled(s, st) && !st.Log?
    requires IsOwnStep(st) || (st.NotifyAll? && s.consumer.Sleeping?)
    ensures Apply(s, min, st).consumer != s.consumer
  {
  }

  /** Until the consumer has left, it moves again. */
  lemma ConsumerMoves(beh: nat -> State, sched: nat -> Step, min: Level, n: nat) returns (m: nat)
    requires Flushing(beh, sched, min) && !beh(n).consumer.Exited?
    ensures n < m && Measure(beh(m)) < Measure(beh(n))
  {
    StaysFlushing(beh, sched, min, n);
    var k: nat;
    if beh(n).consumer.Sleeping? {
      assert beh(n).broadcasts > 0;
      k :| BroadcastLater(sched, n, k);
    } else {
      k :| OwnStepLater(sched, n, k);
    }
    MeasureFalls(beh, sched, min, n, k);
    if beh(k).consumer == beh(n).consumer {
      StaysFlushing(beh, sched, min, k);
      assert Passes(beh, sched, min, k) && !sched(k).Log?;
      OwnStepMoves(beh(k), min, sched(k));
      MeasureFalls(beh, sched, min, k, k + 1);
    } else {
      MeasureFalls(beh, sched, min, k, k + 1);
    }
    m := k + 1;
  }

  lemma {:induction false} ConsumerLeaves(beh: nat -> State, sched: nat -> Step, min: Level, n: nat) returns (end: nat)
    requires Flushing(beh, sched, min)
    ensures beh(end).consumer.Exited?
    decreases Measure(beh(n))
  {
    if beh(n).consumer.Exited? {
      end := n;
    } else {
      var m := ConsumerMoves(beh, sched, min, n);
      end := ConsumerLeaves(beh, sched, min, m);
    }
  }

  /**
    The flush ends: in every fair behaviour after a shutdown with nobody logging any more, the
    consumer leaves, and what was pushed before the shutdown has been written by then.
   */
  lemma FlushTerminates(beh: nat -> State, sched: nat -> Step, min: Level) returns (end: nat)
    requires Flushing(beh, sched, min)
    ensures beh(end).consumer.Exited?
    ensures beh(end).sink <= Passing(beh(0).logged, min)
    ensures beh(end).flushed <= |beh(0).logged| && Passing(beh(0).logged[..beh(end).flushed], min) <= beh(end).sink
  {
    end := ConsumerLeaves(beh, sched, min, 0);
    StaysFlushing(beh, sched, min, end);
  }
}
