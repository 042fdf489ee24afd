/**
  The task queue as its callers see it: the accepted, not yet taken submissions in
  submission order, and the four operations as functions on that state.

  This is the reference the array heap of `TaskQueues.TaskQueue` is proved against.
  It keeps no cached priorities and no heap: every pop recomputes each key from the
  submitted priority and the age, and scans for the best one.
 */
module QueueModel {

  const INT_MIN := -0x8000_0000
  const INT_MAX := 0x7fff_ffff

  /** The 32-bit `int` in which priorities travel. */
  type Int32 = x: int | INT_MIN <= x <= INT_MAX

  /** One second, in the nanoseconds of the steady clock. */
  const AGING_THRESHOLD := 1_000_000_000

  /** A submission: what the caller gave, plus the stamps assigned under the lock. */
  datatype Entry = Entry(priority: Int32, order: nat, task: nat, added: int)

  datatype QState = QState(
    pending: seq<Entry>, // accepted and not yet taken, oldest first
    order: nat,          // m_order
    capacity: nat,       // m_maxQueueSize
    done: bool,          // m_done
    abort: bool          // m_abort
  )

  /** What a worker gets when it holds the lock and looks at the wait predicate. */
  datatype PopResult =
    | Blocked            // the predicate is false: the worker goes (back) to sleep
    | Null               // nullptr: the worker leaves its loop
    | Taken(entry: Entry)

  predicate Aged(e: Entry, now: int) {
    now - e.added > AGING_THRESHOLD
  }

  /** The priority that counts at time `now`. */
  function Key(e: Entry, now: int): Int32 {
    if Aged(e, now) then INT_MAX else e.priority
  }

  /** The first position holding the greatest key at time `now`. */
  function Best(p: seq<Entry>, now: int): (b: nat)
    requires p != []
    ensures b < |p|
  {
    var last := |p| - 1;
    if last == 0 then 0
    else
      var b := Best(p[..last], now);
      if Key(p[last], now) > Key(p[b], now) then last else b
  }

  /** Position `i` holds the greatest key, and no earlier position does. */
  ghost predicate FirstMaximum(p: seq<Entry>, now: int, i: nat)
    requires i < |p|
  {
    && (forall j :: 0 <= j < |p| ==> Key(p[j], now) <= Key(p[i], now))
    && (forall j :: 0 <= j < i ==> Key(p[j], now) < Key(p[i], now))
  }

  lemma {:induction false} BestIsFirstMaximum(p: seq<Entry>, now: int)
    requires p != []
    ensures FirstMaximum(p, now, Best(p, now))
    decreases |p|
  {
    var last := |p| - 1;
    if last == 0 {
    } else {
      BestIsFirstMaximum(p[..last], now);
      assert forall j :: 0 <= j < last ==> p[j] == p[..last][j];
    }
  }

  /** The scan finds the first maximum, and there is only one. */
  lemma BestIsUnique(p: seq<Entry>, now: int, i: nat)
    requires i < |p|
    ensures i == Best(p, now) <==> FirstMaximum(p, now, i)
  {
    BestIsFirstMaximum(p, now);
  }

  function RemoveAt<T>(s: seq<T>, i: nat): (r: seq<T>)
    requires i < |s|
    ensures |r| == |s| - 1
  {
    s[..i] + s[i + 1..]
  }

  function Push(q: QState, task: nat, priority: Int32, now: int): (r: (QState, bool)) {
    if q.done || |q.pending| >= q.capacity then (q, false)
    else (q.(pending := q.pending + [Entry(priority, q.order, task, now)], order := q.order + 1), true)
  }

  function Pop(q: QState, now: int): (r: (QState, PopResult)) {
    if q.pending == [] && !q.done && !q.abort then (q, Blocked)
    else if q.abort then (q, Null)
    else if q.pending != [] then
      var b := Best(q.pending, now);
      (q.(pending := RemoveAt(q.pending, b)), Taken(q.pending[b]))
    else (q, Null)
  }

  function Shutdown(q: QState): QState { q.(done := true) }

  function Abort(q: QState): QState { q.(abort := true) }

  /** `x` was submitted before `y`: a smaller number, and a stamp that is no later. */
  ghost predicate Before(x: Entry, y: Entry) {
    x.order < y.order && x.added <= y.added
  }

  /** Every earlier position was submitted earlier. */
  ghost predicate InOrder(p: seq<Entry>) {
    forall i, j {:trigger Before(p[i], p[j])} :: 0 <= i < j < |p| ==> Before(p[i], p[j])
  }

  /**
    What holds whenever the queue lock is free, `clock` being the last time read under it:
    submissions are numbered in the order of their arrival, and never stamped in the future.
   */
  ghost predicate WellFormed(q: QState, clock: int) {
    && |q.pending| <= q.capacity
    && (forall e :: e in q.pending ==> e.order < q.order && e.added <= clock)
    && InOrder(q.pending)
  }

  lemma PushKeepsWellFormed(q: QState, task: nat, priority: Int32, now: int, clock: int)
    requires WellFormed(q, clock) && clock <= now
    ensures WellFormed(Push(q, task, priority, now).0, now)
  {
    var p := Push(q, task, priority, now).0.pending;
    forall i, j | 0 <= i < j < |p| ensures Before(p[i], p[j]) {
      assert j < |q.pending| ==> Before(q.pending[i], q.pending[j]);
    }
  }

  lemma RemoveAtIndex<T>(s: seq<T>, i: nat, k: nat)
    requires i < |s| && k < |s| - 1
    ensures RemoveAt(s, i)[k] == s[if k < i then k else k + 1]
  {
  }

  lemma RemoveAtMultiset<T>(s: seq<T>, i: nat)
    requires i < |s|
    ensures multiset(RemoveAt(s, i)) == multiset(s) - multiset{s[i]}
    ensures multiset(RemoveAt(s, i)) + multiset{s[i]} == multiset(s)
  {
    assert s == s[..i] + [s[i]] + s[i + 1..];
  }

  /** A pop moves one submission out of the queue, or nothing. */
  lemma PopConserves(q: QState, now: int)
    ensures Pop(q, now).1.Taken? ==>
              multiset(Pop(q, now).0.pending) + multiset{Pop(q, now).1.entry} == multiset(q.pending)
    ensures !Pop(q, now).1.Taken? ==> Pop(q, now).0 == q
  {
    if Pop(q, now).1.Taken? {
      RemoveAtMultiset(q.pending, Best(q.pending, now));
    }
  }

  lemma PopKeepsWellFormed(q: QState, now: int, clock: int)
    requires WellFormed(q, clock) && clock <= now
    ensures WellFormed(Pop(q, now).0, now)
  {
    var q' := Pop(q, now).0;
    if q' != q {
      var b := Best(q.pending, now);
      forall k | 0 <= k < |q'.pending| ensures q'.pending[k] == q.pending[if k < b then k else k + 1] {
        RemoveAtIndex(q.pending, b, k);
      }
      forall i, j | 0 <= i < j < |q'.pending| ensures Before(q'.pending[i], q'.pending[j]) {
        assert Before(q.pending[if i < b then i else i + 1], q.pending[if j < b then j else j + 1]);
      }
    }
  }

  /** Without aging: the first position holding the greatest submitted priority. */
  ghost predicate FirstHighestPriority(p: seq<Entry>, i: nat)
    requires i < |p|
  {
    && (forall j :: 0 <= j < |p| ==> p[j].priority <= p[i].priority)
    && (forall j :: 0 <= j < i ==> p[j].priority < p[i].priority)
  }

  /**
    Aging collapses priority to FIFO. Stamps grow with the position, so once anything in
    the queue is aged its oldest member is, and no unaged submission can beat it, not even
    one submitted with priority INT_MAX.
   */
  lemma AgedQueueIsFifo(q: QState, now: int, clock: int, k: nat)
    requires WellFormed(q, clock) && clock <= now
    requires k < |q.pending| && Aged(q.pending[k], now)
    ensures Best(q.pending, now) == 0
    ensures !q.abort ==> Pop(q, now) == (q.(pending := q.pending[1..]), Taken(q.pending[0]))
  {
    var p := q.pending;
    assert k > 0 ==> Before(p[0], p[k]);
    assert Key(p[0], now) == INT_MAX;
    BestIsUnique(p, now, 0);
    assert RemoveAt(p, 0) == p[1..];
  }

  /**
    The exact law of one pop: position `i` is taken if and only if either the oldest
    submission is aged and `i` is it, or nothing is aged and `i` is the oldest of those
    with the highest submitted priority. There is no mixed mode.
   */
  lemma BestLaw(q: QState, now: int, clock: int, i: nat)
    requires WellFormed(q, clock) && clock <= now
    requires i < |q.pending|
    ensures Best(q.pending, now) == i <==>
            if Aged(q.pending[0], now) then i == 0 else FirstHighestPriority(q.pending, i)
  {
    if Aged(q.pending[0], now) {
      AgedQueueIsFifo(q, now, clock, 0);
    } else {
      var p := q.pending;
      forall j | 0 <= j < |p| ensures Key(p[j], now) == p[j].priority {
        assert j == 0 || Before(p[0], p[j]);
      }
      BestIsUnique(p, now, i);
    }
  }

  /**
    The choice without positions, as of an unordered bag: no queued submission has a greater
    key, and among those with the same key none was submitted earlier.
   */
  ghost predicate Chosen(bag: multiset<Entry>, now: int, e: Entry) {
    && e in bag
    && forall x :: x in bag ==> Key(x, now) < Key(e, now) || (Key(x, now) == Key(e, now) && e.order <= x.order)
  }

  /** A pop that takes anything takes the one submission a bag would choose. */
  lemma PopTakesChosen(q: QState, now: int, clock: int, e: Entry)
    requires WellFormed(q, clock) && clock <= now && Pop(q, now).1.Taken?
    ensures Chosen(multiset(q.pending), now, e) <==> e == Pop(q, now).1.entry
  {
    var p := q.pending;
    var b := Best(p, now);
    BestIsFirstMaximum(p, now);
    forall x | x in multiset(p)
      ensures Key(x, now) < Key(p[b], now) || (Key(x, now) == Key(p[b], now) && p[b].order <= x.order)
      ensures x.order == p[b].order ==> x == p[b]
    {
      assert x in p;
      var i: nat :| i < |p| && p[i] == x;
      assert (i < b ==> Before(p[i], p[b])) && (b < i ==> Before(p[b], p[i]));
    }
    assert p[b] in multiset(p);
  }

  /**
    The rule in numbers. If the oldest submission has waited for more than one second, it is
    the one taken; until then the one taken has the highest submitted priority, and is the
    oldest of those.
   */
  lemma OneSecondRule(q: QState, now: int, clock: int)
    requires WellFormed(q, clock) && clock <= now && Pop(q, now).1.Taken?
    ensures q.pending != []
    ensures now - q.pending[0].added > 1_000_000_000 ==> Pop(q, now).1.entry == q.pending[0]
    ensures now - q.pending[0].added <= 1_000_000_000 ==>
              forall x :: x in q.pending ==>
                x.priority < Pop(q, now).1.entry.priority
                || (x.priority == Pop(q, now).1.entry.priority && Pop(q, now).1.entry.order <= x.order)
  {
    var p := q.pending;
    var b := Best(p, now);
    BestLaw(q, now, clock, b);
    if now - p[0].added <= 1_000_000_000 {
      forall x | x in p
        ensures x.priority < p[b].priority || (x.priority == p[b].priority && p[b].order <= x.order)
      {
        var j: nat :| j < |p| && p[j] == x;
        assert b < j ==> Before(p[b], p[j]);
      }
    }
  }
}
