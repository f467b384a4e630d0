/** The treap that spdylay_map builds, as a value: map entries carry an immutable key and
    the priority hashed from it, and a tree is a shape over such entries.  Pointer linkage
    lives in `StreamMap`; here are the tree functions that its methods are proved to
    compute, and what those functions keep. */
module Treap {
  import opened Hash

  /** An intrusive map entry.  spdylay_map_entry_init fixes key and priority for good;
      the three links are what the map rewrites. */
  class Entry {
    const key: int
    const priority: int
    var parent: Entry?
    var left: Entry?
    var right: Entry?

    constructor (key: int)
      requires IsWord(key)
      ensures this.key == key && Initialised()
      ensures parent == null && left == null && right == null
    {
      this.key, this.priority := key, HashShift(key);
      parent, left, right := null, null, null;
    }

    predicate Initialised() { IsWord(key) && priority == HashShift(key) }
  }

  datatype Tree = Nil | Node(left: Tree, entry: Entry, right: Tree)

  ghost function Entries(t: Tree): set<Entry> {
    match t
    case Nil => {}
    case Node(l, e, r) => Entries(l) + {e} + Entries(r)
  }

  ghost function Keys(t: Tree): set<int> {
    set e <- Entries(t) :: e.key
  }

  /** Search order: every key strictly between the bounds its ancestors leave open. */
  ghost predicate Ordered(t: Tree, lo: int, hi: int) {
    match t
    case Nil => true
    case Node(l, e, r) => lo < e.key < hi && Ordered(l, lo, e.key) && Ordered(r, e.key, hi)
  }

  ghost predicate Search(t: Tree) { Ordered(t, -1, WORD) }

  ghost predicate RootAtLeast(t: Tree, p: int) {
    t.Node? ==> p <= t.entry.priority
  }

  /** Min-heap order on priorities. */
  ghost predicate Heap(t: Tree) {
    match t
    case Nil => true
    case Node(l, e, r) =>
      && Heap(l) && Heap(r)
      && RootAtLeast(l, e.priority) && RootAtLeast(r, e.priority)
  }

  ghost predicate Hashed(t: Tree) {
    forall e <- Entries(t) :: e.Initialised()
  }

  ghost predicate IsTreap(t: Tree) { Search(t) && Heap(t) && Hashed(t) }

  // ---------- insertion ----------

  /** Pull the left child above its parent when its priority is smaller. */
  ghost function FixLeft(l: Tree, e: Entry, r: Tree): Tree {
    if l.Node? && e.priority > l.entry.priority
    then Node(l.left, l.entry, Node(l.right, e, r))
    else Node(l, e, r)
  }

  ghost function FixRight(l: Tree, e: Entry, r: Tree): Tree {
    if r.Node? && e.priority > r.entry.priority
    then Node(Node(l, e, r.left), r.entry, r.right)
    else Node(l, e, r)
  }

  ghost function Insert(t: Tree, n: Entry): Tree {
    match t
    case Nil => Node(Nil, n, Nil)
    case Node(l, e, r) =>
      if n.key < e.key then FixLeft(Insert(l, n), e, r)
      else if e.key < n.key then FixRight(l, e, Insert(r, n))
      else t
  }

  // ---------- removal ----------

  /** What is left of an entry's two subtrees once the entry has sunk out of them. */
  ghost function Join(l: Tree, r: Tree): Tree {
    if l.Nil? then r
    else if r.Nil? then l
    else if l.entry.priority < r.entry.priority
    then Node(l.left, l.entry, Join(l.right, r))
    else Node(Join(l, r.left), r.entry, r.right)
  }

  ghost function Remove(t: Tree, key: int): Tree {
    match t
    case Nil => Nil
    case Node(l, e, r) =>
      if key < e.key then Node(Remove(l, key), e, r)
      else if e.key < key then Node(l, e, Remove(r, key))
      else Join(l, r)
  }

  // ---------- what they keep ----------

  lemma {:induction false} OrderedBounds(t: Tree, lo: int, hi: int)
    requires Ordered(t, lo, hi)
    ensures forall x <- Entries(t) :: lo < x.key < hi
  {
    if t.Node? {
      OrderedBounds(t.left, lo, t.entry.key);
      OrderedBounds(t.right, t.entry.key, hi);
    }
  }

  lemma {:induction false} OrderedWiden(t: Tree, lo: int, hi: int, lo': int, hi': int)
    requires Ordered(t, lo, hi) && lo' <= lo && hi <= hi'
    ensures Ordered(t, lo', hi')
  {
    if t.Node? {
      OrderedWiden(t.left, lo, t.entry.key, lo', t.entry.key);
      OrderedWiden(t.right, t.entry.key, hi, t.entry.key, hi');
    }
  }

  lemma {:induction false} InsertOrdered(t: Tree, n: Entry, lo: int, hi: int)
    requires Ordered(t, lo, hi) && lo < n.key < hi
    ensures Ordered(Insert(t, n), lo, hi)
  {
    if t.Node? {
      if n.key < t.entry.key {
        InsertOrdered(t.left, n, lo, t.entry.key);
      } else if t.entry.key < n.key {
        InsertOrdered(t.right, n, t.entry.key, hi);
      }
    }
  }

  lemma {:induction false} InsertEntries(t: Tree, n: Entry)
    requires n.key !in Keys(t)
    ensures Entries(Insert(t, n)) == Entries(t) + {n}
  {
    if t.Node? {
      assert t.entry in Entries(t) && t.entry.key in Keys(t);
      if n.key < t.entry.key {
        assert forall x <- Entries(t.left) :: x in Entries(t) && x.key in Keys(t);
        InsertEntries(t.left, n);
      } else {
        assert forall x <- Entries(t.right) :: x in Entries(t) && x.key in Keys(t);
        InsertEntries(t.right, n);
      }
    }
  }

  /** Inserting keeps heap order; when the new entry rises to the top, both subtrees
      below it still respect any bound the old root respected. */
  lemma {:induction false} InsertHeap(t: Tree, n: Entry, p: int)
    requires Heap(t) && RootAtLeast(t, p)
    ensures Heap(Insert(t, n)) && Insert(t, n).Node?
    ensures var i := Insert(t, n); i.entry == n || i.entry.priority >= p
    ensures var i := Insert(t, n); RootAtLeast(i.left, p) && RootAtLeast(i.right, p)
  {
    if t.Node? {
      InsertHeap(t.left, n, t.entry.priority);
      InsertHeap(t.right, n, t.entry.priority);
    }
  }

  lemma {:induction false} JoinEntries(l: Tree, r: Tree)
    ensures Entries(Join(l, r)) == Entries(l) + Entries(r)
  {
    if l.Node? && r.Node? {
      if l.entry.priority < r.entry.priority {
        JoinEntries(l.right, r);
      } else {
        JoinEntries(l, r.left);
      }
    }
  }

  lemma {:induction false} JoinOrdered(l: Tree, r: Tree, lo: int, mid: int, hi: int)
    requires Ordered(l, lo, mid) && Ordered(r, mid, hi) && lo <= mid <= hi
    ensures Ordered(Join(l, r), lo, hi)
  {
    OrderedWiden(l, lo, mid, lo, hi);
    OrderedWiden(r, mid, hi, lo, hi);
    if l.Node? && r.Node? {
      if l.entry.priority < r.entry.priority {
        JoinOrdered(l.right, r, l.entry.key, mid, hi);
      } else {
        JoinOrdered(l, r.left, lo, mid, r.entry.key);
      }
    }
  }

  lemma {:induction false} JoinHeap(l: Tree, r: Tree, p: int)
    requires Heap(l) && Heap(r) && RootAtLeast(l, p) && RootAtLeast(r, p)
    ensures Heap(Join(l, r)) && RootAtLeast(Join(l, r), p)
  {
    if l.Node? && r.Node? {
      if l.entry.priority < r.entry.priority {
        JoinHeap(l.right, r, l.entry.priority);
      } else {
        JoinHeap(l, r.left, r.entry.priority);
      }
    }
  }

  lemma {:induction false} RemoveOrdered(t: Tree, key: int, lo: int, hi: int)
    requires Ordered(t, lo, hi)
    ensures Ordered(Remove(t, key), lo, hi)
  {
    if t.Node? {
      RemoveOrdered(t.left, key, lo, t.entry.key);
      RemoveOrdered(t.right, key, t.entry.key, hi);
      JoinOrdered(t.left, t.right, lo, t.entry.key, hi);
    }
  }

  lemma {:induction false} RemoveEntries(t: Tree, key: int, lo: int, hi: int)
    requires Ordered(t, lo, hi)
    ensures Entries(Remove(t, key)) == set e <- Entries(t) | e.key != key
  {
    if t.Node? {
      OrderedBounds(t.left, lo, t.entry.key);
      OrderedBounds(t.right, t.entry.key, hi);
      if key < t.entry.key {
        RemoveEntries(t.left, key, lo, t.entry.key);
      } else if t.entry.key < key {
        RemoveEntries(t.right, key, t.entry.key, hi);
      } else {
        JoinEntries(t.left, t.right);
      }
    }
  }

  lemma {:induction false} RemoveHeap(t: Tree, key: int, p: int)
    requires Heap(t) && RootAtLeast(t, p)
    ensures Heap(Remove(t, key)) && RootAtLeast(Remove(t, key), p)
  {
    if t.Node? {
      RemoveHeap(t.left, key, t.entry.priority);
      RemoveHeap(t.right, key, t.entry.priority);
      JoinHeap(t.left, t.right, p);
    }
  }

  lemma InsertKeeps(t: Tree, n: Entry)
    requires IsTreap(t) && n.Initialised() && n.key !in Keys(t)
    ensures IsTreap(Insert(t, n)) && Entries(Insert(t, n)) == Entries(t) + {n}
  {
    InsertEntries(t, n);
    InsertOrdered(t, n, -1, WORD);
    InsertHeap(t, n, if t.Node? then t.entry.priority else 0);
  }

  lemma RemoveKeeps(t: Tree, key: int)
    requires IsTreap(t)
    ensures IsTreap(Remove(t, key)) && Entries(Remove(t, key)) == set e <- Entries(t) | e.key != key
  {
    RemoveEntries(t, key, -1, WORD);
    RemoveOrdered(t, key, -1, WORD);
    RemoveHeap(t, key, if t.Node? then t.entry.priority else 0);
  }

  /** Looking for `key` by comparing with the root, as spdylay_map_find walks. */
  ghost function Lookup(t: Tree, key: int): Entry? {
    match t
    case Nil => null
    case Node(l, e, r) =>
      if key < e.key then Lookup(l, key) else if e.key < key then Lookup(r, key) else e
  }

  lemma {:induction false} LookupFinds(t: Tree, key: int, lo: int, hi: int)
    requires Ordered(t, lo, hi)
    ensures Lookup(t, key) != null <==> key in Keys(t)
    ensures forall x <- Entries(t) :: x.key == key <==> Lookup(t, key) == x
  {
    if t.Node? {
      KeysOfChildren(t);
      OrderedBounds(t.left, lo, t.entry.key);
      OrderedBounds(t.right, t.entry.key, hi);
      LookupFinds(t.left, key, lo, t.entry.key);
      LookupFinds(t.right, key, t.entry.key, hi);
    }
  }

  lemma KeysOfChildren(t: Tree)
    requires t.Node?
    ensures Keys(t) == Keys(t.left) + {t.entry.key} + Keys(t.right)
  {
    forall k | k in Keys(t)
      ensures k in Keys(t.left) || k == t.entry.key || k in Keys(t.right)
    {
      var x :| x in Entries(t) && x.key == k;
    }
    assert forall x <- Entries(t.left) + {t.entry} + Entries(t.right) :: x in Entries(t) && x.key in Keys(t);
  }

  // ---------- canonical shape ----------

  /** A tree with its entries forgotten: only keys and shape. */
  datatype Shape = Leaf | Fork(left: Shape, key: int, right: Shape)

  ghost function ShapeOf(t: Tree): Shape {
    match t
    case Nil => Leaf
    case Node(l, e, r) => Fork(ShapeOf(l), e.key, ShapeOf(r))
  }

  lemma {:induction false} RootIsLeast(t: Tree, x: Entry)
    requires Heap(t) && t.Node? && x in Entries(t)
    ensures t.entry.priority <= x.priority
  {
    if x in Entries(t.left) {
      RootIsLeast(t.left, x);
    } else if x in Entries(t.right) {
      RootIsLeast(t.right, x);
    }
  }

  /** Hash injectivity leaves no freedom: the key set fixes the whole shape. */
  lemma CanonicalShape(s: Tree, t: Tree)
    requires IsTreap(s) && IsTreap(t) && Keys(s) == Keys(t)
    ensures ShapeOf(s) == ShapeOf(t)
  {
    CanonicalWithin(s, t, -1, WORD);
  }

  lemma {:induction false} CanonicalWithin(s: Tree, t: Tree, lo: int, hi: int)
    requires Ordered(s, lo, hi) && Heap(s) && Hashed(s)
    requires Ordered(t, lo, hi) && Heap(t) && Hashed(t)
    requires Keys(s) == Keys(t)
    ensures ShapeOf(s) == ShapeOf(t)
    decreases s
  {
    if s.Node? {
      assert s.entry.key in Keys(s);
    }
    if t.Node? {
      assert t.entry.key in Keys(t);
    }
    if s.Node? && t.Node? {
      SameRoot(s, t);
      SplitKeys(s, lo, hi);
      SplitKeys(t, lo, hi);
      CanonicalWithin(s.left, t.left, lo, s.entry.key);
      CanonicalWithin(s.right, t.right, s.entry.key, hi);
    }
  }

  lemma SameRoot(s: Tree, t: Tree)
    requires Heap(s) && Hashed(s) && Heap(t) && Hashed(t)
    requires Keys(s) == Keys(t) && s.Node? && t.Node?
    ensures s.entry.key == t.entry.key
  {
    assert s.entry.key in Keys(s) && t.entry.key in Keys(t);
    var x :| x in Entries(t) && x.key == s.entry.key;
    var y :| y in Entries(s) && y.key == t.entry.key;
    RootIsLeast(t, x);
    RootIsLeast(s, y);
    HashShiftInjective(s.entry.key, t.entry.key);
  }

  lemma SplitKeys(t: Tree, lo: int, hi: int)
    requires Ordered(t, lo, hi) && t.Node?
    ensures Keys(t.left) == set k <- Keys(t) | k < t.entry.key
    ensures Keys(t.right) == set k <- Keys(t) | t.entry.key < k
  {
    KeysOfChildren(t);
    OrderedBounds(t.left, lo, t.entry.key);
    OrderedBounds(t.right, t.entry.key, hi);
  }

  // ---------- histories ----------

  datatype Op = Insertion(entry: Entry) | Removal(key: int)

  /** The tree after a run of map operations; a duplicate insertion and a removal of a
      missing key are refused and change nothing. */
  ghost function Apply(t: Tree, ops: seq<Op>): Tree {
    if ops == [] then t
    else
      var before := Apply(t, ops[..|ops| - 1]);
      match ops[|ops| - 1]
      case Insertion(e) => if e.key in Keys(before) then before else Insert(before, e)
      case Removal(k) => if k in Keys(before) then Remove(before, k) else before
  }

  lemma {:induction false} ApplyKeeps(t: Tree, ops: seq<Op>)
    requires IsTreap(t)
    requires forall op <- ops :: op.Insertion? ==> op.entry.Initialised()
    ensures IsTreap(Apply(t, ops))
  {
    if ops != [] {
      var before := Apply(t, ops[..|ops| - 1]);
      ApplyKeeps(t, ops[..|ops| - 1]);
      var op := ops[|ops| - 1];
      assert op in ops;
      match op
      case Insertion(e) => if e.key !in Keys(before) { InsertKeeps(before, e); }
      case Removal(k) => RemoveKeeps(before, k);
    }
  }

  /** Any two histories that end with the same keys end with the same tree shape. */
  lemma HistoryIndependent(one: seq<Op>, two: seq<Op>)
    requires forall op <- one :: op.Insertion? ==> op.entry.Initialised()
    requires forall op <- two :: op.Insertion? ==> op.entry.Initialised()
    requires Keys(Apply(Nil, one)) == Keys(Apply(Nil, two))
    ensures ShapeOf(Apply(Nil, one)) == ShapeOf(Apply(Nil, two))
  {
    ApplyKeeps(Nil, one);
    ApplyKeeps(Nil, two);
    CanonicalShape(Apply(Nil, one), Apply(Nil, two));
  }
}
