/**
  The three standard heap operations the task queue uses, written out as the in-place
  sift loops behind them ([alg.heap.operations] of ISO/IEC 14882:2017), over the queue's
  own element type and comparator.
 */
module Heap {
  import opened QueueModel

  /** A stored element: the submission and the cached priority the comparator reads. */
  datatype Item = Item(base: Entry, effective: Int32)

  /** The comparator: a smaller cached priority is less; among equals the younger one is. */
  predicate Less(lhs: Item, rhs: Item) {
    if lhs.effective != rhs.effective then lhs.effective < rhs.effective
    else lhs.base.order > rhs.base.order
  }

  function Parent(i: int): int
    requires 0 < i
  {
    (i - 1) / 2
  }

  /** The heap order below position `lo`: every element whose parent is at `lo` or later obeys it. */
  ghost predicate HeapFrom(s: seq<Item>, lo: nat) {
    forall i :: 0 < i < |s| && lo <= Parent(i) ==> !Less(s[Parent(i)], s[i])
  }

  ghost predicate IsHeap(s: seq<Item>) {
    HeapFrom(s, 0)
  }

  /** The front of a heap is a greatest element. */
  lemma {:induction false} FrontIsGreatest(s: seq<Item>, i: nat)
    requires IsHeap(s) && i < |s|
    ensures !Less(s[0], s[i])
    decreases i
  {
    if i == 0 {
    } else {
      FrontIsGreatest(s, Parent(i));
      assert !Less(s[Parent(i)], s[i]);
    }
  }

  function Swapped(s: seq<Item>, i: nat, j: nat): (r: seq<Item>)
    requires i < |s| && j < |s|
    ensures |r| == |s|
  {
    s[i := s[j]][j := s[i]]
  }

  method Swap(a: array<Item>, n: nat, i: nat, j: nat)
    requires i < n <= a.Length && j < n
    modifies a
    ensures a[..n] == Swapped(old(a[..n]), i, j)
    ensures forall i :: n <= i < a.Length ==> a[i] == old(a[i])
    ensures multiset(a[..n]) == multiset(old(a[..n]))
  {
    a[i], a[j] := a[j], a[i];
    assert a[..n] == Swapped(old(a[..n]), i, j);
  }

  /** While sifting up from `k`: only `k` may exceed its parent, and its children do not exceed that parent. */
  ghost predicate Rising(s: seq<Item>, k: nat) {
    && k < |s|
    && (forall i :: 0 < i < |s| && i != k ==> !Less(s[Parent(i)], s[i]))
    && (forall i :: 0 < i < |s| && Parent(i) == k && 0 < k ==> !Less(s[Parent(k)], s[i]))
  }

  lemma RiseStep(s: seq<Item>, k: nat)
    requires Rising(s, k) && 0 < k && Less(s[Parent(k)], s[k])
    ensures Rising(Swapped(s, Parent(k), k), Parent(k))
  {
    var p := Parent(k);
    var t := Swapped(s, p, k);
    forall i | 0 < i < |t| && i != p
      ensures !Less(t[Parent(i)], t[i])
      ensures Parent(i) == p && 0 < p ==> !Less(t[Parent(p)], t[i])
    {
      assert i != k ==> !Less(s[Parent(i)], s[i]);
      assert 0 < p ==> !Less(s[Parent(p)], s[p]);
    }
  }

  /** push_heap: the last of the first `n` elements is sifted up into the heap before it. */
  method PushHeap(a: array<Item>, n: nat)
    requires 0 < n <= a.Length
    requires IsHeap(a[..n - 1])
    modifies a
    ensures IsHeap(a[..n])
    ensures multiset(a[..n]) == multiset(old(a[..n]))
    ensures forall i :: n <= i < a.Length ==> a[i] == old(a[i])
  {
    var k := n - 1;
    assert forall i :: 0 < i < n - 1 ==> a[..n][i] == a[..n - 1][i] && a[..n][Parent(i)] == a[..n - 1][Parent(i)];
    while k > 0 && Less(a[Parent(k)], a[k])
      invariant 0 <= k < n
      invariant Rising(a[..n], k)
      invariant multiset(a[..n]) == multiset(old(a[..n]))
      invariant forall i :: n <= i < a.Length ==> a[i] == old(a[i])
    {
      RiseStep(a[..n], k);
      Swap(a, n, Parent(k), k);
      k := Parent(k);
    }
  }

  /** While sifting down from `k`: only `k` may be less than its children, which do not exceed `k`'s parent. */
  ghost predicate Sinking(s: seq<Item>, lo: nat, k: nat) {
    && lo <= k
    && (forall i :: 0 < i < |s| && lo <= Parent(i) && Parent(i) != k ==> !Less(s[Parent(i)], s[i]))
    && (forall i :: 0 < i < |s| && Parent(i) == k && lo < k && lo <= Parent(k) ==> !Less(s[Parent(k)], s[i]))
  }

  lemma SinkStep(s: seq<Item>, lo: nat, k: nat, c: nat)
    requires Sinking(s, lo, k) && 0 < c < |s| && Parent(c) == k && Less(s[k], s[c])
    requires forall i :: 0 < i < |s| && Parent(i) == k ==> !Less(s[c], s[i])
    ensures Sinking(Swapped(s, k, c), lo, c)
  {
    var t := Swapped(s, k, c);
    forall i | 0 < i < |t| && lo <= Parent(i)
      ensures Parent(i) != c ==> !Less(t[Parent(i)], t[i])
      ensures Parent(i) == c ==> !Less(t[k], t[i])
    {
      assert Parent(i) != k ==> !Less(s[Parent(i)], s[i]);
      if i == k {
        assert !Less(s[Parent(k)], s[c]);
      }
    }
  }

  /** The child that is swapped up: the right one if it exists and is greater than the left one. */
  function GreaterChild(s: seq<Item>, k: nat): (c: nat)
    requires 2 * k + 1 < |s|
    ensures 0 < c < |s| && Parent(c) == k
  {
    if 2 * k + 2 < |s| && Less(s[2 * k + 1], s[2 * k + 2]) then 2 * k + 2 else 2 * k + 1
  }

  lemma GreaterChildIsGreatest(s: seq<Item>, k: nat)
    requires 2 * k + 1 < |s|
    ensures forall i :: 0 < i < |s| && Parent(i) == k ==> !Less(s[GreaterChild(s, k)], s[i])
  {
    forall i | 0 < i < |s| && Parent(i) == k ensures i == 2 * k + 1 || i == 2 * k + 2 {
    }
  }

  lemma SunkIsHeap(s: seq<Item>, lo: nat, k: nat)
    requires Sinking(s, lo, k)
    requires 2 * k + 1 < |s| ==> !Less(s[k], s[GreaterChild(s, k)])
    ensures HeapFrom(s, lo)
  {
    forall i | 0 < i < |s| && Parent(i) == k ensures !Less(s[k], s[i]) {
      GreaterChildIsGreatest(s, k);
    }
  }

  /** Sifts the element at `lo` down until everything below `lo` is in heap order. */
  method SiftDown(a: array<Item>, lo: nat, n: nat)
    requires n <= a.Length
    requires HeapFrom(a[..n], lo + 1)
    modifies a
    ensures HeapFrom(a[..n], lo)
    ensures multiset(a[..n]) == multiset(old(a[..n]))
    ensures forall i :: n <= i < a.Length ==> a[i] == old(a[i])
  {
    var k := lo;
    while 2 * k + 1 < n
      invariant Sinking(a[..n], lo, k)
      invariant multiset(a[..n]) == multiset(old(a[..n]))
      invariant forall i :: n <= i < a.Length ==> a[i] == old(a[i])
      decreases n - k
    {
      var c := 2 * k + 1;
      if c + 1 < n && Less(a[c], a[c + 1]) {
        c := c + 1;
      }
      assert c == GreaterChild(a[..n], k);
      if !Less(a[k], a[c]) {
        break;
      }
      GreaterChildIsGreatest(a[..n], k);
      SinkStep(a[..n], lo, k, c);
      Swap(a, n, k, c);
      k := c;
    }
    SunkIsHeap(a[..n], lo, k);
  }

  /** make_heap: sifts every inner position down, last to first. */
  method MakeHeap(a: array<Item>, n: nat)
    requires n <= a.Length
    modifies a
    ensures IsHeap(a[..n])
    ensures multiset(a[..n]) == multiset(old(a[..n]))
    ensures forall i :: n <= i < a.Length ==> a[i] == old(a[i])
  {
    var i := n / 2;
    while i > 0
      invariant 0 <= i <= n / 2
      invariant HeapFrom(a[..n], i)
      invariant multiset(a[..n]) == multiset(old(a[..n]))
      invariant forall i :: n <= i < a.Length ==> a[i] == old(a[i])
    {
      i := i - 1;
      SiftDown(a, i, n);
    }
  }

  /** With the front and the back exchanged, only the new front can be out of place. */
  lemma BackToFront(s: seq<Item>)
    requires s != [] && IsHeap(s)
    ensures HeapFrom(Swapped(s, 0, |s| - 1)[..|s| - 1], 1)
  {
    var m := |s| - 1;
    var t := Swapped(s, 0, m)[..m];
    forall i | 0 < i < |t| && 1 <= Parent(i) ensures !Less(t[Parent(i)], t[i]) {
      assert t[i] == s[i] && t[Parent(i)] == s[Parent(i)];
    }
  }

  method ExchangeEnds(a: array<Item>, n: nat)
    requires 0 < n <= a.Length
    requires IsHeap(a[..n])
    modifies a
    ensures a[n - 1] == old(a[0])
    ensures HeapFrom(a[..n - 1], 1)
    ensures multiset(a[..n]) == multiset(old(a[..n]))
    ensures forall i :: n <= i < a.Length ==> a[i] == old(a[i])
  {
    BackToFront(a[..n]);
    Swap(a, n, 0, n - 1);
    assert a[..n][..n - 1] == a[..n - 1];
    assert a[n - 1] == a[..n][n - 1];
  }

  lemma LastApart(s: seq<Item>, t: seq<Item>)
    requires s != [] && |s| == |t| && s[|s| - 1] == t[|t| - 1]
    requires multiset(s[..|s| - 1]) == multiset(t[..|t| - 1])
    ensures multiset(s) == multiset(t)
  {
    assert s == s[..|s| - 1] + [s[|s| - 1]];
    assert t == t[..|t| - 1] + [t[|t| - 1]];
  }

  /** pop_heap: the greatest element goes to the back, the rest is a heap again. */
  method PopHeap(a: array<Item>, n: nat)
    requires 0 < n <= a.Length
    requires IsHeap(a[..n])
    modifies a
    ensures a[n - 1] == old(a[0])
    ensures IsHeap(a[..n - 1])
    ensures multiset(a[..n]) == multiset(old(a[..n]))
    ensures forall i :: n <= i < a.Length ==> a[i] == old(a[i])
  {
    ExchangeEnds(a, n);
    ghost var s := a[..n];
    assert s[..n - 1] == a[..n - 1];
    SiftDown(a, 0, n - 1);
    assert a[..n][..n - 1] == a[..n - 1];
    LastApart(s, a[..n]);
  }
}
