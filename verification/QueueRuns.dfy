/**
  Laws of whole runs of the task queue: any sequence of pushes, pops, shutdowns and aborts,
  each under the queue lock, with the times read from a clock that never goes back.
 */
module QueueRuns {
  import opened QueueModel

  datatype Event =
    | PushEvent(task: nat, priority: Int32, now: int)
    | PopEvent(now: int)
    | ShutdownEvent
    | AbortEvent

  /** A submission handed to a worker, and when. */
  datatype Take = Take(entry: Entry, at: int)

  function Next(q: QState, ev: Event): QState {
    match ev
    case PushEvent(task, priority, now) => Push(q, task, priority, now).0
    case PopEvent(now) => Pop(q, now).0
    case ShutdownEvent => Shutdown(q)
    case AbortEvent => Abort(q)
  }

  function Final(q: QState, evs: seq<Event>): QState
    decreases |evs|
  {
    if evs == [] then q else Final(Next(q, evs[0]), evs[1..])
  }

  /** The takes one event causes: one for a pop that finds a task, none otherwise. */
  function Takes(q: QState, ev: Event): (r: seq<Take>)
    ensures |r| <= 1
  {
    if ev.PopEvent? && Pop(q, ev.now).1.Taken? then [Take(Pop(q, ev.now).1.entry, ev.now)] else []
  }

  /** The submissions one event adds to the queue. */
  function Adds(q: QState, ev: Event): seq<Entry> {
    if ev.PushEvent? && Push(q, ev.task, ev.priority, ev.now).1 then [Entry(ev.priority, q.order, ev.task, ev.now)]
    else []
  }

  /** Everything handed out over a run, in the order it was handed out. */
  function Log(q: QState, evs: seq<Event>): seq<Take>
    decreases |evs|
  {
    if evs == [] then [] else Takes(q, evs[0]) + Log(Next(q, evs[0]), evs[1..])
  }

  /** Everything accepted over a run, in the order it was accepted. */
  function Accepted(q: QState, evs: seq<Event>): seq<Entry>
    decreases |evs|
  {
    if evs == [] then [] else Adds(q, evs[0]) + Accepted(Next(q, evs[0]), evs[1..])
  }

  function Entries(log: seq<Take>): (r: seq<Entry>)
    ensures |r| == |log|
    ensures forall i :: 0 <= i < |log| ==> r[i] == log[i].entry
  {
    seq(|log|, i requires 0 <= i < |log| => log[i].entry)
  }

  lemma EntriesConcat(s: seq<Take>, t: seq<Take>)
    ensures Entries(s + t) == Entries(s) + Entries(t)
  {
  }

  /** The clock after an event. */
  function Tick(clock: int, ev: Event): int {
    if ev.PushEvent? || ev.PopEvent? then ev.now else clock
  }

  /** The times of a run never go back, and start at `clock` or later. */
  ghost predicate Timed(clock: int, evs: seq<Event>)
    decreases |evs|
  {
    evs == [] || (clock <= Tick(clock, evs[0]) && Timed(Tick(clock, evs[0]), evs[1..]))
  }

  lemma NextKeepsWellFormed(q: QState, ev: Event, clock: int)
    requires WellFormed(q, clock) && clock <= Tick(clock, ev)
    ensures WellFormed(Next(q, ev), Tick(clock, ev))
  {
    match ev
    case PushEvent(task, priority, now) => PushKeepsWellFormed(q, task, priority, now, clock);
    case PopEvent(now) => PopKeepsWellFormed(q, now, clock);
    case ShutdownEvent =>
    case AbortEvent =>
  }

  /** What one event does to the queue as a collection. */
  lemma NextConserves(q: QState, ev: Event)
    ensures multiset(Next(q, ev).pending) + multiset(Entries(Takes(q, ev)))
         == multiset(q.pending) + multiset(Adds(q, ev))
    ensures q.order <= Next(q, ev).order == q.order + |Adds(q, ev)|
  {
    if Takes(q, ev) != [] {
      PopConserves(q, ev.now);
      assert Entries(Takes(q, ev)) == [Pop(q, ev.now).1.entry];
    } else {
      assert Entries(Takes(q, ev)) == [];
    }
  }

  /** Adding one event's books to those of the rest of the run. */
  lemma LedgerStep(before: seq<Entry>, mid: seq<Entry>, after: seq<Entry>,
                   takes: seq<Take>, laterTakes: seq<Take>, adds: seq<Entry>, laterAdds: seq<Entry>)
    requires multiset(mid) + multiset(Entries(takes)) == multiset(before) + multiset(adds)
    requires multiset(after) + multiset(Entries(laterTakes)) == multiset(mid) + multiset(laterAdds)
    ensures multiset(after) + multiset(Entries(takes + laterTakes)) == multiset(before) + multiset(adds + laterAdds)
  {
    EntriesConcat(takes, laterTakes);
    var b, m, a := multiset(before), multiset(mid), multiset(after);
    var t, lt := multiset(Entries(takes)), multiset(Entries(laterTakes));
    var d, ld := multiset(adds), multiset(laterAdds);
    assert a + (t + lt) == b + (d + ld) by {
      forall e ensures a[e] + (t[e] + lt[e]) == b[e] + (d[e] + ld[e]) {
        assert (m + t)[e] == (b + d)[e] && (a + lt)[e] == (m + ld)[e];
      }
    }
  }

  /**
    Conservation over a whole run: what was there and what was accepted is exactly what was
    handed out and what is left, each submission as often on one side as on the other.
   */
  lemma {:induction false} RunConserves(q: QState, evs: seq<Event>)
    ensures multiset(Final(q, evs).pending) + multiset(Entries(Log(q, evs)))
         == multiset(q.pending) + multiset(Accepted(q, evs))
    decreases |evs|
  {
    if evs == [] {
      assert Entries([]) == [];
    } else {
      var q' := Next(q, evs[0]);
      NextConserves(q, evs[0]);
      RunConserves(q', evs[1..]);
      LedgerStep(q.pending, q'.pending, Final(q', evs[1..]).pending,
                 Takes(q, evs[0]), Log(q', evs[1..]), Adds(q, evs[0]), Accepted(q', evs[1..]));
    }
  }

  lemma PendingWasPendingOrIsNew(q: QState, ev: Event, e: Entry)
    ensures q.order <= Next(q, ev).order
    ensures e in Next(q, ev).pending ==> e in q.pending || e.order >= q.order
  {
    NextConserves(q, ev);
    if e in Next(q, ev).pending {
      assert e in multiset(Next(q, ev).pending);
      assert e in multiset(q.pending) || e in multiset(Adds(q, ev));
    }
  }

  /** One pop never overtakes without a reason: a strictly greater priority, before aging. */
  lemma OvertakingNeedsPriority(q: QState, now: int, clock: int, x: Entry)
    requires WellFormed(q, clock) && clock <= now
    requires Pop(q, now).1.Taken? && x in q.pending
    requires x.order < Pop(q, now).1.entry.order
    ensures Pop(q, now).1.entry.priority > x.priority && !Aged(x, now)
  {
    var b := Best(q.pending, now);
    var i: nat :| i < |q.pending| && q.pending[i] == x;
    BestIsFirstMaximum(q.pending, now);
    assert (i < b ==> Before(q.pending[i], q.pending[b])) && (b < i ==> Before(q.pending[b], q.pending[i]));
    assert i < b;
    assert Key(x, now) < Key(q.pending[b], now);
  }

  /**
    What must hold of two takes, `first` before `second`: if they are out of submission order,
    then the one that went ahead had a strictly greater priority, and the one it overtook was
    not yet aged at that moment.
   */
  ghost predicate Justified(first: Take, second: Take) {
    first.entry.order > second.entry.order ==>
      first.entry.priority > second.entry.priority && !Aged(second.entry, first.at)
  }

  ghost predicate AllJustified(log: seq<Take>) {
    forall i, j {:trigger Justified(log[i], log[j])} :: 0 <= i < j < |log| ==> Justified(log[i], log[j])
  }

  /** Whatever is handed out from `q` on is queued in `q` or is yet to be numbered. */
  ghost predicate ComesFrom(log: seq<Take>, q: QState) {
    forall t :: t in log ==> t.entry in q.pending || t.entry.order >= q.order
  }

  /** One more event in front of a run whose takes are justified. */
  lemma EventInFront(q: QState, ev: Event, clock: int, later: seq<Take>)
    requires WellFormed(q, clock) && clock <= Tick(clock, ev)
    requires AllJustified(later) && ComesFrom(later, Next(q, ev))
    ensures AllJustified(Takes(q, ev) + later) && ComesFrom(Takes(q, ev) + later, q)
  {
    var here := Takes(q, ev);
    forall t | t in later
      ensures t.entry in q.pending || t.entry.order >= q.order
      ensures here != [] ==> Justified(here[0], t)
    {
      PendingWasPendingOrIsNew(q, ev, t.entry);
      if here != [] && t.entry.order < here[0].entry.order {
        OvertakingNeedsPriority(q, ev.now, clock, t.entry);
      }
    }
    forall i, j | 0 <= i < j < |here + later| ensures Justified((here + later)[i], (here + later)[j]) {
      if i >= |here| {
        assert Justified(later[i - |here|], later[j - |here|]);
      }
    }
  }

  /** The submissions left in the queue, as if handed out after everything else; the time is of no account. */
  function LeftOver(p: seq<Entry>): (r: seq<Take>)
    ensures |r| == |p|
    ensures forall i :: 0 <= i < |p| ==> r[i] == Take(p[i], 0)
  {
    seq(|p|, i requires 0 <= i < |p| => Take(p[i], 0))
  }

  /** What stays in the queue stays in submission order. */
  lemma LeftOverIsInOrder(q: QState, clock: int)
    requires WellFormed(q, clock)
    ensures AllJustified(LeftOver(q.pending)) && ComesFrom(LeftOver(q.pending), q)
  {
    var left := LeftOver(q.pending);
    forall i, j | 0 <= i < j < |left| ensures Justified(left[i], left[j]) {
      assert Before(q.pending[i], q.pending[j]);
    }
  }

  /** Every take is justified against every later one, and against everything left in the queue. */
  ghost predicate RunJustified(log: seq<Take>, left: seq<Entry>) {
    AllJustified(log + LeftOver(left))
  }

  lemma JustifiedPair(log: seq<Take>, left: seq<Entry>, i: nat, e: Entry)
    requires RunJustified(log, left)
    ensures AllJustified(log)
    ensures i < |log| && e in left ==> Justified(log[i], Take(e, 0))
  {
    var all := log + LeftOver(left);
    forall k, m | 0 <= k < m < |log| ensures Justified(log[k], log[m]) {
      assert Justified(all[k], all[m]);
    }
    if i < |log| && e in left {
      var k: nat :| k < |left| && left[k] == e;
      assert Justified(all[i], all[|log| + k]);
    }
  }

  /**
    The inversion law of whole runs: every take is justified against each later one and against
    whatever is still queued at the end. So equal priorities leave in submission order, nothing
    overtakes a submission of at least its own priority, and nothing at all overtakes an aged
    one, whether the one overtaken leaves later or not at all.
   */
  lemma {:induction false} InversionLaw(q: QState, evs: seq<Event>, clock: int)
    requires WellFormed(q, clock) && Timed(clock, evs)
    ensures RunJustified(Log(q, evs), Final(q, evs).pending)
    ensures ComesFrom(Log(q, evs) + LeftOver(Final(q, evs).pending), q)
    decreases |evs|
  {
    if evs == [] {
      LeftOverIsInOrder(q, clock);
      assert Log(q, evs) + LeftOver(q.pending) == LeftOver(q.pending);
    } else {
      var q' := Next(q, evs[0]);
      var left := LeftOver(Final(q, evs).pending);
      NextKeepsWellFormed(q, evs[0], clock);
      InversionLaw(q', evs[1..], Tick(clock, evs[0]));
      EventInFront(q, evs[0], clock, Log(q', evs[1..]) + left);
      assert Takes(q, evs[0]) + (Log(q', evs[1..]) + left) == Log(q, evs) + left;
    }
  }

  /**
    The converse for one pop: whenever some queued submission has a strictly greater priority
    than the oldest and the oldest is not aged, the oldest is overtaken.
   */
  lemma UnagedOldestIsOvertaken(q: QState, now: int, clock: int, k: nat)
    requires WellFormed(q, clock) && clock <= now && !q.abort
    requires k < |q.pending|
    requires q.pending[k].priority > q.pending[0].priority && !Aged(q.pending[0], now)
    ensures Pop(q, now).1.Taken? && Pop(q, now).1.entry.order > q.pending[0].order
  {
    var b := Best(q.pending, now);
    BestLaw(q, now, clock, 0);
    assert Before(q.pending[0], q.pending[b]);
  }

  /** One of the two sequences is the beginning of the other. */
  ghost predicate Agree<T>(s: seq<T>, t: seq<T>) {
    s <= t || t <= s
  }

  /** The position, after an event, of the submission that was at position `r`. */
  function Shifted(q: QState, ev: Event, r: int): int {
    r - |Takes(q, ev)|
  }

  lemma TookOldest(p: seq<Entry>, here: seq<Entry>, p': seq<Entry>, r: nat)
    requires r < |p| && here == [p[0]] && p' == p[1..]
    ensures here + p'[..r] == p[..r + 1]
    ensures r > 0 ==> p'[r - 1] == p[r]
  {
  }

  lemma TookNothing(p: seq<Entry>, here: seq<Entry>, p': seq<Entry>, r: nat)
    requires r < |p| && here == [] && p <= p'
    ensures here + p'[..r + 1] == p[..r + 1] && p'[r] == p[r]
  {
  }

  /** An event that takes nothing can only add at the end. */
  lemma QuietStep(q: QState, ev: Event)
    requires Takes(q, ev) == []
    ensures q.pending <= Next(q, ev).pending
  {
  }

  lemma TakeStep(q: QState, ev: Event, clock: int, r: nat)
    requires WellFormed(q, clock) && clock <= Tick(clock, ev)
    requires r < |q.pending| && Aged(q.pending[r], clock) && Takes(q, ev) != []
    ensures Next(q, ev).pending == q.pending[1..] && Entries(Takes(q, ev)) == [q.pending[0]]
  {
    AgedQueueIsFifo(q, ev.now, clock, r);
    assert Entries(Takes(q, ev)) == [q.pending[0]];
  }

  /** While position `r` is aged, an event either takes the oldest or leaves the first `r + 1` alone. */
  lemma AgedStep(q: QState, ev: Event, clock: int, r: nat)
    requires WellFormed(q, clock) && clock <= Tick(clock, ev)
    requires r < |q.pending| && Aged(q.pending[r], clock)
    ensures Shifted(q, ev, r) < |Next(q, ev).pending|
    ensures Shifted(q, ev, r) >= 0 ==> Next(q, ev).pending[Shifted(q, ev, r)] == q.pending[r]
    ensures Entries(Takes(q, ev)) + Next(q, ev).pending[..Shifted(q, ev, r) + 1] == q.pending[..r + 1]
  {
    if Takes(q, ev) != [] {
      TakeStep(q, ev, clock, r);
      TookOldest(q.pending, Entries(Takes(q, ev)), Next(q, ev).pending, r);
    } else {
      QuietStep(q, ev);
      TookNothing(q.pending, Entries(Takes(q, ev)), Next(q, ev).pending, r);
    }
  }

  lemma AgreeInFront(here: seq<Take>, later: seq<Take>, front: seq<Entry>, all: seq<Entry>)
    requires Agree(Entries(later), front) && Entries(here) + front == all
    ensures Agree(Entries(here + later), all)
  {
    EntriesConcat(here, later);
  }

  /**
    Bounded starvation, as an exact schedule. Once the submission at position `r` is aged,
    the next `r + 1` takes are exactly positions 0 to `r`, in that order, whatever is pushed
    meanwhile. As `r` is below the capacity, so is the wait.
   */
  lemma {:induction false} AgedIsServedInTurn(q: QState, evs: seq<Event>, clock: int, r: nat)
    requires WellFormed(q, clock) && Timed(clock, evs)
    requires r < |q.pending| && Aged(q.pending[r], clock)
    ensures Agree(Entries(Log(q, evs)), q.pending[..r + 1])
    ensures r < q.capacity
    decreases |evs|
  {
    if evs == [] {
    } else {
      var q', r' := Next(q, evs[0]), Shifted(q, evs[0], r);
      NextKeepsWellFormed(q, evs[0], clock);
      AgedStep(q, evs[0], clock, r);
      if r' >= 0 {
        AgedIsServedInTurn(q', evs[1..], Tick(clock, evs[0]), r');
      }
      AgreeInFront(Takes(q, evs[0]), Log(q', evs[1..]), q'.pending[..r' + 1], q.pending[..r + 1]);
    }
  }

  /** The same bound as the waiting task sees it: it is take number `r` from then on. */
  lemma StarvationBound(q: QState, evs: seq<Event>, clock: int, r: nat)
    requires WellFormed(q, clock) && Timed(clock, evs)
    requires r < |q.pending| && Aged(q.pending[r], clock)
    requires |Log(q, evs)| >= r + 1
    ensures Log(q, evs)[r].entry == q.pending[r]
  {
    AgedIsServedInTurn(q, evs, clock, r);
    assert Entries(Log(q, evs))[r] == q.pending[..r + 1][r];
  }

  function CountPops(evs: seq<Event>): nat {
    if evs == [] then 0 else (if evs[0].PopEvent? then 1 else 0) + CountPops(evs[1..])
  }

  /** After abort nothing leaves the queue, whatever happens to it. */
  lemma {:induction false} AbortFreezes(q: QState, evs: seq<Event>)
    requires q.abort
    ensures Log(q, evs) == [] && q.pending <= Final(q, evs).pending && Final(q, evs).abort
    decreases |evs|
  {
    if evs == [] {
    } else {
      AbortFreezes(Next(q, evs[0]), evs[1..]);
    }
  }

  /**
    Graceful drain: once shut down and as long as nobody aborts, every pop hands out a task
    until the queue is empty and returns null afterwards, so `n` pops serve exactly
    the smaller of `n` and the number queued; nothing is accepted any more.
   */
  lemma {:induction false} ShutdownDrains(q: QState, evs: seq<Event>)
    requires q.done && !q.abort
    requires AbortEvent !in evs
    ensures |Log(q, evs)| == (if CountPops(evs) <= |q.pending| then CountPops(evs) else |q.pending|)
    ensures Accepted(q, evs) == []
    ensures |Final(q, evs).pending| == |q.pending| - |Log(q, evs)|
    decreases |evs|
  {
    if evs == [] {
    } else {
      ShutdownDrains(Next(q, evs[0]), evs[1..]);
    }
  }
}
