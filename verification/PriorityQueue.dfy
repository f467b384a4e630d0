/** spdylay_pq: the binary heap of outbound items, in an array that is swapped in place.

    The heap is shown to implement the drain-order queue of `SessionTypes`: pushing is
    `Enqueue`, and popping always takes the first item. */
module PriorityQueue {
  import opened Base
  import opened SessionTypes

  // ---------- heaps as sequences ----------

  /** `a` may come out no later than `b`: spdylay_outbound_item_compar is not positive. */
  predicate Leq(a: Item, b: Item) { !Before(b, a) }

  function Parent(i: int): int { (i - 1) / 2 }

  predicate IsHeap(s: seq<Item>) {
    forall i :: 1 <= i < |s| ==> Leq(s[Parent(i)], s[i])
  }

  function Swap(s: seq<Item>, i: nat, j: nat): seq<Item>
    requires i < |s| && j < |s|
  {
    s[i := s[j]][j := s[i]]
  }

  /** bubble_up. */
  function Up(s: seq<Item>, i: nat): (r: seq<Item>)
    requires i < |s|
    ensures |r| == |s|
    decreases i
  {
    if i == 0 then s
    else if Before(s[i], s[Parent(i)]) then Up(Swap(s, Parent(i), i), Parent(i))
    else s
  }

  /** The child that bubble_down would swap with, or `i` itself. */
  function MinIndex(s: seq<Item>, i: nat): (m: nat)
    requires i < |s|
    ensures m < |s| && (m == i || m == 2 * i + 1 || m == 2 * i + 2)
  {
    var l := 2 * i + 1;
    var m := if l < |s| && Before(s[l], s[i]) then l else i;
    if l + 1 < |s| && Before(s[l + 1], s[m]) then l + 1 else m
  }

  /** bubble_down. */
  function Down(s: seq<Item>, i: nat): (r: seq<Item>)
    requires i < |s|
    ensures |r| == |s|
    decreases |s| - i
  {
    var m := MinIndex(s, i);
    if m == i then s else Down(Swap(s, i, m), m)
  }

  function Pushed(s: seq<Item>, x: Item): seq<Item> { Up(s + [x], |s|) }

  function Popped(s: seq<Item>): seq<Item>
    requires s != []
  {
    var t := s[0 := s[|s| - 1]][..|s| - 1];
    if t == [] then t else Down(t, 0)
  }

  lemma SwapMultiset(s: seq<Item>, i: nat, j: nat)
    requires i < |s| && j < |s|
    ensures multiset(Swap(s, i, j)) == multiset(s)
  {
  }

  lemma {:induction false} UpMultiset(s: seq<Item>, i: nat)
    requires i < |s|
    ensures multiset(Up(s, i)) == multiset(s)
    decreases i
  {
    if i > 0 && Before(s[i], s[Parent(i)]) {
      SwapMultiset(s, Parent(i), i);
      UpMultiset(Swap(s, Parent(i), i), Parent(i));
    }
  }

  lemma {:induction false} DownMultiset(s: seq<Item>, i: nat)
    requires i < |s|
    ensures multiset(Down(s, i)) == multiset(s)
    decreases |s| - i
  {
    var m := MinIndex(s, i);
    if m != i {
      SwapMultiset(s, i, m);
      DownMultiset(Swap(s, i, m), m);
    }
  }

  /** A heap but for `i`, which may be too small for its place. */
  predicate HeapButUp(s: seq<Item>, i: nat) {
    && (forall j :: 1 <= j < |s| && j != i ==> Leq(s[Parent(j)], s[j]))
    && (forall j :: 1 <= j < |s| && Parent(j) == i && i > 0 ==> Leq(s[Parent(i)], s[j]))
  }

  lemma {:induction false} UpHeap(s: seq<Item>, i: nat)
    requires i < |s| && HeapButUp(s, i)
    ensures IsHeap(Up(s, i))
    decreases i
  {
    if i > 0 && Before(s[i], s[Parent(i)]) {
      UpHeap(Swap(s, Parent(i), i), Parent(i));
    }
  }

  /** A heap but for `i`, which may be too large for its place. */
  predicate HeapButDown(s: seq<Item>, i: nat) {
    && (forall j :: 1 <= j < |s| && Parent(j) != i ==> Leq(s[Parent(j)], s[j]))
    && (forall j :: 1 <= j < |s| && Parent(j) == i && i > 0 ==> Leq(s[Parent(i)], s[j]))
  }

  lemma {:induction false} DownHeap(s: seq<Item>, i: nat)
    requires i < |s| && HeapButDown(s, i)
    ensures IsHeap(Down(s, i))
    decreases |s| - i
  {
    var m := MinIndex(s, i);
    assert forall j :: 1 <= j < |s| && Parent(j) == i ==> j == 2 * i + 1 || j == 2 * i + 2;
    if m != i {
      assert Parent(m) == i;
      SwapDown(s, i, m);
      DownHeap(Swap(s, i, m), m);
    }
  }

  /** One round of bubble_down moves the disorder to the child. */
  lemma SwapDown(s: seq<Item>, i: nat, m: nat)
    requires i < |s| && HeapButDown(s, i) && m == MinIndex(s, i) && m != i
    ensures HeapButDown(Swap(s, i, m), m)
  {
    var t := Swap(s, i, m);
    forall j | 1 <= j < |t| && Parent(j) != m
      ensures Leq(t[Parent(j)], t[j])
    {
      if Parent(j) == i {
        assert j == 2 * i + 1 || j == 2 * i + 2;
      } else {
        assert Leq(s[Parent(j)], s[j]);
      }
    }
  }

  // ---------- the heap implements the queue ----------

  /** The heap `s` holds the items of the queue `q`. */
  ghost predicate Implements(s: seq<Item>, q: seq<Item>) {
    IsHeap(s) && Sorted(q) && multiset(s) == multiset(q)
  }

  lemma {:induction false} RootIsLeast(s: seq<Item>, i: nat)
    requires IsHeap(s) && i < |s|
    ensures Leq(s[0], s[i])
    decreases i
  {
    if i > 0 {
      RootIsLeast(s, Parent(i));
    }
  }

  lemma TopIsFirst(s: seq<Item>, q: seq<Item>)
    requires Implements(s, q) && s != []
    ensures q != [] && s[0] == q[0]
  {
    assert s[0] in multiset(q) && |s| == |multiset(s)| == |q|;
    assert q[0] in multiset(s);
    var i :| 0 <= i < |s| && s[i] == q[0];
    RootIsLeast(s, i);
    var j :| 0 <= j < |q| && q[j] == s[0];
  }

  /** Pushing a new item is Enqueue. */
  lemma PushImplements(s: seq<Item>, q: seq<Item>, x: Item)
    requires Implements(s, q) && forall y <- q :: y.num != x.num
    ensures Implements(Pushed(s, x), Enqueue(q, x))
  {
    UpMultiset(s + [x], |s|);
    UpHeap(s + [x], |s|);
    EnqueueSorted(q, x);
  }

  /** Popping takes the first item away. */
  lemma PopImplements(s: seq<Item>, q: seq<Item>)
    requires Implements(s, q) && s != []
    ensures Implements(Popped(s), q[1..])
  {
    TopIsFirst(s, q);
    var n := |s| - 1;
    var t := s[0 := s[n]][..n];
    assert q == [q[0]] + q[1..];
    PoppedMultiset(s);
    if t != [] {
      assert HeapButDown(t, 0);
      DownHeap(t, 0);
    }
  }

  lemma PoppedMultiset(s: seq<Item>)
    requires s != []
    ensures multiset(Popped(s)) == multiset(s) - multiset{s[0]}
  {
    var n := |s| - 1;
    var t := s[0 := s[n]][..n];
    assert s == s[..n] + [s[n]];
    if n > 0 {
      assert s[..n] == [s[0]] + s[1..n];
      assert t == [s[n]] + s[1..n];
      DownMultiset(t, 0);
    } else {
      assert s == [s[0]];
    }
  }

  // ---------- draining ----------

  function Drain(s: seq<Item>): seq<Item>
    decreases |s|
  {
    if s == [] then [] else [s[0]] + Drain(Popped(s))
  }

  /** Popping until empty yields every item once, in strictly increasing (priority, sequence)
      order: items of equal priority leave first in, first out. */
  lemma {:induction false} DrainsInOrder(s: seq<Item>, q: seq<Item>)
    requires Implements(s, q)
    ensures Drain(s) == q
    decreases |s|
  {
    if s == [] {
      assert |q| == |multiset(q)| == |multiset(s)| == 0;
    } else {
      TopIsFirst(s, q);
      PopImplements(s, q);
      DrainsInOrder(Popped(s), q[1..]);
    }
  }

  // ---------- the array ----------

  class Pq {
    /** `q.Length` is the capacity. */
    var q: array<Item>
    var length: nat

    ghost predicate Fits()
      reads this
    {
      length <= q.Length && 0 < q.Length
    }

    ghost function Items(): seq<Item>
      reads this, q
      requires Fits()
    {
      q[..length]
    }

    ghost predicate Valid()
      reads this, q
    {
      Fits() && IsHeap(Items())
    }

    /** spdylay_pq_init. */
    constructor (filler: Item)
      ensures Valid() && Items() == [] && fresh(q)
    {
      q := new Item[4096](_ => filler);
      length := 0;
    }

    method SwapAt(i: nat, j: nat)
      requires Fits() && i < length && j < length
      modifies q
      ensures Items() == Swap(old(Items()), i, j)
    {
      q[i], q[j] := q[j], q[i];
    }

    method BubbleUp(index: nat)
      requires Fits() && index < length
      modifies q
      ensures Items() == Up(old(Items()), index)
      decreases index
    {
      if index != 0 {
        var parent := (index - 1) / 2;
        if Before(q[index], q[parent]) {
          SwapAt(parent, index);
          BubbleUp(parent);
        }
      }
    }

    method BubbleDown(index: nat)
      requires Fits() && index < length
      modifies q
      ensures Items() == Down(old(Items()), index)
      decreases length - index
    {
      var lchild := index * 2 + 1;
      var minindex := index;
      var i := 0;
      while i < 2 && lchild + i < length
        invariant 0 <= i <= 2 && minindex < length
        invariant i > 0 ==> lchild + i <= length
        invariant i == 0 ==> minindex == index
        invariant i == 1 ==> minindex == if Before(q[lchild], q[index]) then lchild else index
        invariant i == 2 ==> minindex == MinIndex(Items(), index)
      {
        if Before(q[lchild + i], q[minindex]) {
          minindex := lchild + i;
        }
        i := i + 1;
      }
      assert minindex == MinIndex(Items(), index);
      if minindex != index {
        SwapAt(index, minindex);
        BubbleDown(minindex);
      }
    }

    /** spdylay_pq_push; the array doubles when it is full. */
    method Push(item: Item)
      requires Valid()
      modifies this, q
      ensures Valid() && (q == old(q) || fresh(q))
      ensures Items() == Pushed(old(Items()), item)
    {
      ghost var was := Items();
      if q.Length <= length {
        var nq := new Item[q.Length * 2](_ => item);
        forall i | 0 <= i < length {
          nq[i] := q[i];
        }
        q := nq;
        assert Items() == was;
      }
      q[length] := item;
      length := length + 1;
      assert Items() == was + [item];
      BubbleUp(length - 1);
      UpHeap(was + [item], |was|);
    }

    /** spdylay_pq_top, with None for the null pointer. */
    method Top() returns (item: Option<Item>)
      requires Valid()
      ensures item == if Items() == [] then None else Some(Items()[0])
    {
      if length == 0 {
        return None;
      } else {
        return Some(q[0]);
      }
    }

    /** spdylay_pq_pop; an empty queue stays as it is. */
    method Pop()
      requires Valid()
      modifies this, q
      ensures Valid() && q == old(q)
      ensures Items() == if old(Items()) == [] then [] else Popped(old(Items()))
    {
      if length > 0 {
        ghost var was := Items();
        q[0] := q[length - 1];
        length := length - 1;
        assert Items() == was[0 := was[|was| - 1]][..|was| - 1];
        if length > 0 {
          ghost var t := Items();
          BubbleDown(0);
          DownHeap(t, 0);
        }
      }
    }
  }
}
