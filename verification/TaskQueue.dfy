/**
  The task queue itself: a vector kept as a binary heap on cached priorities, which a pop
  overwrites in place when tasks age. Every operation is proved against `QueueModel`.
 */
module TaskQueues {
  import opened QueueModel
  import opened Heap

  function Bases(s: seq<Item>): (r: seq<Entry>)
    ensures |r| == |s|
    ensures forall i :: 0 <= i < |s| ==> r[i] == s[i].base
  {
    seq(|s|, i requires 0 <= i < |s| => s[i].base)
  }

  lemma BasesWithout(s: seq<Item>, k: nat)
    requires k < |s|
    ensures multiset(Bases(s)) == multiset(Bases(RemoveAt(s, k))) + multiset{s[k].base}
  {
    assert Bases(RemoveAt(s, k)) == RemoveAt(Bases(s), k);
    RemoveAtMultiset(Bases(s), k);
  }

  /** Reordering stored elements reorders their submissions and nothing else. */
  lemma {:induction false} BasesPermute(s: seq<Item>, t: seq<Item>)
    requires multiset(s) == multiset(t)
    ensures multiset(Bases(s)) == multiset(Bases(t))
    decreases |s|
  {
    if s == [] {
      assert |multiset(t)| == 0;
      assert Bases(s) == Bases(t);
    } else {
      assert s[0] in multiset(t);
      var k: nat :| k < |t| && t[k] == s[0];
      RemoveAtMultiset(s, 0);
      RemoveAtMultiset(t, k);
      BasesPermute(RemoveAt(s, 0), RemoveAt(t, k));
      BasesWithout(s, 0);
      BasesWithout(t, k);
    }
  }

  /** A cached priority is the submitted one, or INT_MAX once the task was seen aged. */
  ghost predicate CacheOk(x: Item, clock: int) {
    x.effective == x.base.priority || (x.effective == INT_MAX && Aged(x.base, clock))
  }

  ghost predicate CachesOk(s: seq<Item>, clock: int) {
    forall x :: x in s ==> CacheOk(x, clock)
  }

  /** What was aged stays aged. */
  lemma CachesAge(s: seq<Item>, clock: int, now: int)
    requires CachesOk(s, clock) && clock <= now
    ensures CachesOk(s, now)
  {
  }

  /** Every cached priority equals the key recomputed at `now`. */
  ghost predicate Fresh(s: seq<Item>, now: int) {
    forall x :: x in s ==> x.effective == Key(x.base, now)
  }

  lemma SameElements(s: seq<Item>, t: seq<Item>)
    requires multiset(s) == multiset(t)
    ensures forall x :: x in s <==> x in t
  {
    forall x ensures x in s <==> x in t {
      assert x in multiset(s) <==> x in multiset(t);
    }
  }

  /**
    The heart of the refinement: the front of a heap whose caches are fresh is the element
    a scan of the submissions would choose.
   */
  lemma FrontIsBest(s: seq<Item>, p: seq<Entry>, now: int)
    requires s != [] && IsHeap(s) && Fresh(s, now)
    requires multiset(Bases(s)) == multiset(p)
    requires InOrder(p)
    ensures p != [] && p[Best(p, now)] == s[0].base
  {
    assert Bases(s)[0] in multiset(p);
    var i: nat :| i < |p| && p[i] == s[0].base;
    assert s[0] in s;
    forall j | 0 <= j < |p|
      ensures Key(p[j], now) <= Key(p[i], now)
      ensures j < i ==> Key(p[j], now) < Key(p[i], now)
    {
      assert p[j] in multiset(Bases(s));
      var k: nat :| k < |s| && Bases(s)[k] == p[j];
      FrontIsGreatest(s, k);
      assert s[k] in s;
      assert (i < j ==> Before(p[i], p[j])) && (j < i ==> Before(p[j], p[i]));
    }
    BestIsUnique(p, now, i);
  }

  /** With the chosen element gone from the end, what is stored is what remains pending. */
  lemma WithoutLast(before: seq<Item>, after: seq<Item>, p: seq<Entry>, b: nat)
    requires after != [] && multiset(after) == multiset(before)
    requires multiset(Bases(before)) == multiset(p)
    requires b < |p| && p[b] == after[|after| - 1].base
    ensures multiset(Bases(after[..|after| - 1])) == multiset(RemoveAt(p, b))
    ensures forall x :: x in after[..|after| - 1] ==> x in before
  {
    var rest := after[..|after| - 1];
    SameElements(after, before);
    BasesPermute(after, before);
    assert RemoveAt(after, |after| - 1) == rest;
    BasesWithout(after, |after| - 1);
    RemoveAtMultiset(p, b);
  }

  class TaskQueue {
    const data: array<Item>  // m_queue: the first `size` cells are the heap
    var size: nat
    var order: nat           // m_order
    var done: bool           // m_done
    var abort: bool          // m_abort
    ghost var pending: seq<Entry>  // the submissions in the heap, in submission order
    ghost var clock: int           // the last time read under the lock

    ghost predicate Valid()
      reads this, data
    {
      && size <= data.Length
      && IsHeap(data[..size])
      && CachesOk(data[..size], clock)
      && multiset(Bases(data[..size])) == multiset(pending)
      && WellFormed(View(), clock)
    }

    ghost function View(): QState
      reads this
    {
      QState(pending, order, data.Length, done, abort)
    }

    lemma SizeIsPending()
      requires Valid()
      ensures |pending| == size
    {
      assert |multiset(Bases(data[..size]))| == |multiset(pending)|;
    }

    constructor (maxQueueSize: nat)
      ensures Valid() && fresh(data)
      ensures View() == QState([], 0, maxQueueSize, false, false)
    {
      data := new Item[maxQueueSize];
      size, order, done, abort := 0, 0, false, false;
      pending, clock := [], 0;
    }

    method Push(task: nat, priority: Int32, now: int) returns (accepted: bool)
      requires Valid() && clock <= now
      modifies this, data
      ensures Valid() && clock == now
      ensures (View(), accepted) == QueueModel.Push(old(View()), task, priority, now)
      ensures accepted <==> !old(done) && old(|pending|) < data.Length
      ensures pending == old(pending) + if accepted then [Entry(priority, old(order), task, now)] else []
    {
      SizeIsPending();
      CachesAge(data[..size], clock, now);
      PushKeepsWellFormed(View(), task, priority, now, clock);
      if done || size >= data.Length {
        clock := now;
        return false;
      }
      var e := Entry(priority, order, task, now);
      Append(Item(e, priority));
      clock, order, pending := now, order + 1, pending + [e];
      return true;
    }

    /** push_back and push_heap. */
    method Append(x: Item)
      requires size < data.Length && IsHeap(data[..size])
      modifies this`size, data
      ensures size == old(size) + 1 <= data.Length && IsHeap(data[..size])
      ensures multiset(Bases(data[..size])) == multiset(Bases(old(data[..size]))) + multiset{x.base}
      ensures forall c :: CachesOk(old(data[..size]), c) && CacheOk(x, c) ==> CachesOk(data[..size], c)
    {
      ghost var before := data[..size];
      data[size] := x;
      size := size + 1;
      assert data[..size - 1] == before;
      ghost var unsifted := data[..size];
      assert unsifted == before + [x];
      assert Bases(unsifted) == Bases(before) + [x.base];
      PushHeap(data, size);
      SameElements(data[..size], unsifted);
      BasesPermute(data[..size], unsifted);
      forall c | CachesOk(before, c) && CacheOk(x, c) ensures CachesOk(data[..size], c) {
        assert forall y :: y in data[..size] ==> y in before || y == x;
      }
    }

    /** Overwrites the caches of aged tasks in place and, if there were any, rebuilds the heap. */
    method ApplyAging(now: int)
      requires size <= data.Length && IsHeap(data[..size])
      requires CachesOk(data[..size], clock) && clock <= now
      modifies data
      ensures IsHeap(data[..size]) && Fresh(data[..size], now)
      ensures multiset(Bases(data[..size])) == multiset(Bases(old(data[..size])))
    {
      ghost var before := data[..size];
      var anyAged := false;
      for k := 0 to size
        invariant forall j :: 0 <= j < size ==> data[j].base == before[j].base
        invariant forall j :: 0 <= j < k ==> data[j].effective == Key(before[j].base, now)
        invariant forall j :: k <= j < size ==> data[j] == before[j]
        invariant !anyAged ==> data[..size] == before
      {
        assert before[k] in before;
        if Aged(data[k].base, now) {
          data[k] := data[k].(effective := INT_MAX);
          anyAged := true;
        }
      }
      ghost var overwritten := data[..size];
      assert Bases(overwritten) == Bases(before);
      assert Fresh(overwritten, now);
      if anyAged {
        MakeHeap(data, size);
        SameElements(data[..size], overwritten);
        BasesPermute(data[..size], overwritten);
      }
    }

    /** One look at the queue with the lock held: wait predicate, abort, then the heap. */
    method Pop(now: int) returns (r: PopResult)
      requires Valid() && clock <= now
      modifies this, data
      ensures Valid() && clock == now
      ensures (View(), r) == QueueModel.Pop(old(View()), now)
      ensures r.Taken? ==> Chosen(multiset(old(pending)), now, r.entry)
      ensures r.Taken? ==> old(pending) != []
      ensures r.Taken? && now - old(pending)[0].added > 1_000_000_000 ==> r.entry == old(pending)[0]
      ensures r.Taken? && now - old(pending)[0].added <= 1_000_000_000 ==>
                forall x :: x in old(pending) ==>
                  x.priority < r.entry.priority || (x.priority == r.entry.priority && r.entry.order <= x.order)
    {
      SizeIsPending();
      ghost var was := View();
      if size == 0 && !done && !abort {
        clock := now;
        return Blocked;
      }
      if abort {
        clock := now;
        return Null;
      }
      if size != 0 {
        ApplyAging(now);
        r := Extract(now);
        PopKeepsWellFormed(was, now, clock);
        PopTakesChosen(was, now, clock, r.entry);
        OneSecondRule(was, now, clock);
        clock := now;
        return r;
      }
      clock := now;
      return Null;
    }

    /** pop_heap and pop_back on a heap with fresh caches. */
    method Extract(now: int) returns (r: PopResult)
      requires 0 < size <= data.Length && IsHeap(data[..size]) && Fresh(data[..size], now)
      requires multiset(Bases(data[..size])) == multiset(pending)
      requires WellFormed(View(), clock)
      modifies this`size, this`pending, data
      ensures old(pending) != []
      ensures r == Taken(old(pending)[Best(old(pending), now)])
      ensures pending == RemoveAt(old(pending), Best(old(pending), now))
      ensures size <= data.Length && IsHeap(data[..size]) && CachesOk(data[..size], now)
      ensures multiset(Bases(data[..size])) == multiset(pending)
    {
      ghost var before := data[..size];
      ghost var b := Best(pending, now);
      FrontIsBest(before, pending, now);
      PopHeap(data, size);
      WithoutLast(before, data[..size], pending, b);
      size := size - 1;
      assert data[..size + 1][..size] == data[..size];
      pending := RemoveAt(pending, b);
      r := Taken(data[size].base);
    }

    method Shutdown()
      modifies this`done
      ensures old(Valid()) ==> Valid()
      ensures View() == QueueModel.Shutdown(old(View()))
    {
      done := true;
    }

    method Abort()
      modifies this`abort
      ensures old(Valid()) ==> Valid()
      ensures View() == QueueModel.Abort(old(View()))
    {
      abort := true;
    }
  }
}
