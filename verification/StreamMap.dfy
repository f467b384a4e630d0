/** spdylay_map: the intrusive ordered map, with its pointer rewriting.

    Every method is proved to leave the heap linked as the tree that a function of `Treap`
    computes from the tree it found. */
module StreamMap {
  import opened Hash
  import opened Treap
  import opened TreapPath

  const INVALID_ARGUMENT: int := -501

  /** Hang `new` where `old` hung below `parent`. */
  method ReplaceChild(parent: Entry?, was: Entry, now: Entry?, ghost p: Path)
    requires parent == ParentOf(p) && PathOrdered(p)
    requires PathLinked(p, was) && was !in PathEntries(p)
    modifies if parent == null then {} else {parent}
    ensures PathLinked(p, now)
  {
    NodeOffPath(p);
    if parent != null {
      if parent.left == was {
        parent.left := now;
      } else {
        parent.right := now;
      }
    }
  }

  /** Give the root of subtree `t` another parent. */
  method Reparent(child: Entry?, parent: Entry?, ghost was: Entry?, ghost t: Tree, ghost lo: int, ghost hi: int)
    requires child == RootOf(t) && Linked(t, was) && Ordered(t, lo, hi)
    modifies if child == null then {} else {child}
    ensures Linked(t, parent)
    ensures child != null ==> child.left == old(child.left) && child.right == old(child.right)
  {
    SubtreeDisjoint(t, lo, hi);
    if child != null {
      child.parent := parent;
    }
  }

  /** The part of RotateRight inside the subtree. */
  method LiftLeft(entry: Entry, ghost x: Entry, ghost a: Tree, ghost b: Tree, ghost c: Tree,
      ghost parent: Entry?, ghost lo: int, ghost hi: int)
    returns (root: Entry)
    requires Ordered(Node(Node(a, x, b), entry, c), lo, hi) && Linked(Node(Node(a, x, b), entry, c), parent)
    modifies Entries(Node(Node(a, x, b), entry, c))
    ensures root == x && Linked(Node(a, x, Node(b, entry, c)), parent)
  {
    ghost var below := Node(a, x, b);
    assert Ordered(below, lo, entry.key) && Linked(below, entry);
    assert Entries(below) == Entries(a) + {x} + Entries(b);
    Pieces(a, x, b, entry, c, lo, hi);
    root := entry.left;
    entry.left := root.right;
    root.right := entry;

    root.parent := entry.parent;
    entry.parent := root;
    assert Linked(a, x) && Linked(c, entry);
    HangMiddle(entry.left, entry, x, a, b, c, x.key, entry.key);
  }

  /** The middle subtree gets its new parent; the outer ones stay. */
  method HangMiddle(child: Entry?, parent: Entry, ghost other: Entry, ghost a: Tree, ghost b: Tree, ghost c: Tree, ghost lo: int, ghost hi: int)
    requires child == RootOf(b) && Linked(b, other) && Ordered(b, lo, hi) && parent !in Entries(b) && other !in Entries(b)
    requires Entries(b) !! Entries(a) && Entries(b) !! Entries(c) && Linked(a, other) && Linked(c, parent)
    modifies if child == null then {} else {child}
    ensures Linked(b, parent) && Linked(a, other) && Linked(c, parent)
  {
    assert allocated(Entries(a)) && allocated(Entries(c));
    Reparent(child, parent, other, b, lo, hi);
  }

  /** rotate_right: `entry`'s left child `x` takes its place. */
  method RotateRight(entry: Entry, ghost p: Path, ghost x: Entry, ghost a: Tree, ghost b: Tree, ghost c: Tree)
    returns (root: Entry)
    requires Fits(p, Node(Node(a, x, b), entry, c))
    requires PathLinked(p, entry) && Linked(Node(Node(a, x, b), entry, c), ParentOf(p))
    modifies PathEntries(p) + Entries(Node(Node(a, x, b), entry, c))
    ensures root == x
    ensures PathLinked(p, root) && Linked(Node(a, x, Node(b, entry, c)), ParentOf(p))
  {
    FitsDisjoint(p, Node(Node(a, x, b), entry, c));
    assert allocated(PathEntries(p));
    root := LiftLeft(entry, x, a, b, c, ParentOf(p), Lo(p), Hi(p));
    Rotated(a, x, b, entry, c, Lo(p), Hi(p));
    assert allocated(Entries(Node(a, x, Node(b, entry, c))));
    ReplaceChild(root.parent, entry, root, p);
  }

  /** The part of RotateLeft inside the subtree. */
  method LiftRight(entry: Entry, ghost x: Entry, ghost a: Tree, ghost b: Tree, ghost c: Tree,
      ghost parent: Entry?, ghost lo: int, ghost hi: int)
    returns (root: Entry)
    requires Ordered(Node(a, entry, Node(b, x, c)), lo, hi) && Linked(Node(a, entry, Node(b, x, c)), parent)
    modifies Entries(Node(a, entry, Node(b, x, c)))
    ensures root == x && Linked(Node(Node(a, entry, b), x, c), parent)
  {
    ghost var below := Node(b, x, c);
    assert Ordered(below, entry.key, hi) && Linked(below, entry);
    assert Entries(below) == Entries(b) + {x} + Entries(c);
    Pieces(a, entry, b, x, c, lo, hi);
    root := entry.right;
    entry.right := root.left;
    root.left := entry;

    root.parent := entry.parent;
    entry.parent := root;
    assert Linked(a, entry) && Linked(c, x);
    HangMiddle(entry.right, entry, x, c, b, a, entry.key, x.key);
  }

  /** rotate_left: `entry`'s right child `x` takes its place. */
  method RotateLeft(entry: Entry, ghost p: Path, ghost x: Entry, ghost a: Tree, ghost b: Tree, ghost c: Tree)
    returns (root: Entry)
    requires Fits(p, Node(a, entry, Node(b, x, c)))
    requires PathLinked(p, entry) && Linked(Node(a, entry, Node(b, x, c)), ParentOf(p))
    modifies PathEntries(p) + Entries(Node(a, entry, Node(b, x, c)))
    ensures root == x
    ensures PathLinked(p, root) && Linked(Node(Node(a, entry, b), x, c), ParentOf(p))
  {
    FitsDisjoint(p, Node(a, entry, Node(b, x, c)));
    assert allocated(PathEntries(p));
    root := LiftRight(entry, x, a, b, c, ParentOf(p), Lo(p), Hi(p));
    Rotated(a, entry, b, x, c, Lo(p), Hi(p));
    assert allocated(Entries(Node(Node(a, entry, b), x, c)));
    ReplaceChild(root.parent, entry, root, p);
  }

  /** A rotation moves no entry in key order. */
  lemma Rotated(a: Tree, x: Entry, b: Tree, y: Entry, c: Tree, lo: int, hi: int)
    ensures Entries(Node(Node(a, x, b), y, c)) == Entries(Node(a, x, Node(b, y, c)))
    ensures Ordered(Node(Node(a, x, b), y, c), lo, hi) <==> Ordered(Node(a, x, Node(b, y, c)), lo, hi)
  {
    var l, r := Node(a, x, b), Node(b, y, c);
    assert Entries(l) == Entries(a) + {x} + Entries(b);
    assert Entries(r) == Entries(b) + {y} + Entries(c);
    assert Ordered(l, lo, y.key) <==> lo < x.key < y.key && Ordered(a, lo, x.key) && Ordered(b, x.key, y.key);
    assert Ordered(r, x.key, hi) <==> x.key < y.key < hi && Ordered(b, x.key, y.key) && Ordered(c, y.key, hi);
  }

  /** The five pieces of a rotation share no entry. */
  lemma Pieces(a: Tree, x: Entry, b: Tree, y: Entry, c: Tree, lo: int, hi: int)
    requires lo < x.key < y.key < hi
    requires Ordered(a, lo, x.key) && Ordered(b, x.key, y.key) && Ordered(c, y.key, hi)
    ensures x !in Entries(a) && x !in Entries(b) && x !in Entries(c)
    ensures y !in Entries(a) && y !in Entries(b) && y !in Entries(c)
    ensures Entries(b) !! Entries(a) && Entries(b) !! Entries(c)
  {
    OrderedBounds(a, lo, x.key);
    OrderedBounds(b, x.key, y.key);
    OrderedBounds(c, y.key, hi);
  }

  lemma ChildrenDisjoint(t: Tree, lo: int, hi: int)
    requires Ordered(t, lo, hi) && t.Node?
    ensures t.entry !in Entries(t.left) + Entries(t.right)
    ensures Entries(t.left) !! Entries(t.right)
  {
    OrderedBounds(t.left, lo, t.entry.key);
    OrderedBounds(t.right, t.entry.key, hi);
  }

  lemma SubtreeDisjoint(t: Tree, lo: int, hi: int)
    requires Ordered(t, lo, hi)
    ensures t.Node? ==> t.entry !in Entries(t.left) + Entries(t.right)
    ensures t.Node? ==> Entries(t.left) + Entries(t.right) <= Entries(t)
  {
    if t.Node? {
      ChildrenDisjoint(t, lo, hi);
    }
  }

  /** The nearest ancestor is not further up the path, nor in the sibling tree. */
  lemma NodeOffPath(p: Path)
    requires PathOrdered(p)
    ensures p.LeftOf? || p.RightOf? ==> p.parent !in PathEntries(p.up) + Entries(p.sibling)
  {
    match p
    case Top =>
    case LeftOf(up, e, r) => PathKeysOutside(up); OrderedBounds(r, e.key, Hi(up));
    case RightOf(up, l, e) => PathKeysOutside(up); OrderedBounds(l, Lo(up), e.key);
  }

  /** Subtree `t` hangs in the hole of `p`, in key order and in the heap. */
  ghost predicate Hangs(p: Path, t: Tree)
    reads PathEntries(p), Entries(t)
  {
    Fits(p, t) && PathLinked(p, RootOf(t)) && Linked(t, ParentOf(p))
  }

  lemma HangsLinked(p: Path, t: Tree)
    requires Hangs(p, t)
    ensures Linked(Plug(p, t), null)
  {
    PlugLinked(p, t);
  }

  lemma NotYetIn(t: Tree, n: Entry)
    requires n.key !in Keys(t)
    ensures n !in Entries(t)
  {
    assert forall e <- Entries(t) :: e.key in Keys(t);
  }

  lemma SingleFits(p: Path, n: Entry)
    ensures Fits(p, Node(Nil, n, Nil)) <==> PathOrdered(p) && Lo(p) < n.key < Hi(p)
    ensures Entries(Node(Nil, n, Nil)) == {n}
  {
    assert Ordered(Nil, Lo(p), n.key) && Ordered(Nil, n.key, Hi(p));
    assert Entries(Nil) == {};
  }

  lemma SingleTreap(n: Entry)
    requires n.Initialised()
    ensures IsTreap(Node(Nil, n, Nil)) && Entries(Node(Nil, n, Nil)) == {n}
  {
    SingleFits(Top, n);
    assert Heap(Nil);
  }

  /** One round of the rotation loop of spdylay_map_insert at `entry`, below which hangs
      `cur` with the new entry on top. */
  method RotateUp(entry: Entry, ghost p: Path, ghost cur: Tree)
    returns (rotated: bool, top: Entry, ghost after: Tree)
    requires Hangs(p, cur) && p != Top && p.parent == entry && cur.Node? && PathHeap(p)
    modifies PathEntries(p), Entries(cur)
    ensures !rotated ==> Hangs(p, cur) && Ascend(p, cur) == Plug(p, cur)
    ensures rotated ==> after.Node? && after.entry == top && Hangs(p.up, after) && PathHeap(p.up)
    ensures rotated ==> PathEntries(p.up) + Entries(after) == PathEntries(p) + Entries(cur)
    ensures rotated ==> Ascend(p.up, after) == Ascend(p, cur)
    ensures rotated && p.up != Top ==> RootOf(Plug(p.up, after)) == RootOf(Plug(p, cur))
  {
    top, rotated, after := entry, false, cur;
    ghost var a, x, b := cur.left, cur.entry, cur.right;
    if entry.left != null && entry.priority > entry.left.priority {
      Rotated(a, x, b, entry, p.sibling, Lo(p.up), Hi(p.up));
      top := RotateRight(entry, p.up, x, a, b, p.sibling);
      rotated, after := true, Node(a, x, Node(b, entry, p.sibling));
      if p.up != Top { PlugRoot(p.up, Node(cur, entry, p.sibling), after); }
    } else if entry.right != null && entry.priority > entry.right.priority {
      Rotated(p.sibling, entry, a, x, b, Lo(p.up), Hi(p.up));
      top := RotateLeft(entry, p.up, x, p.sibling, a, b);
      rotated, after := true, Node(Node(p.sibling, entry, a), x, b);
      if p.up != Top { PlugRoot(p.up, Node(p.sibling, entry, cur), after); }
    } else {
      AscendStable(p, cur);
    }
  }

  /** A round of spdylay_map_remove that rotates right: `entry` moves to the right of its
      left child. */
  method SinkRight(entry: Entry, ghost p: Path, ghost l: Tree, ghost r: Tree) returns (top: Entry)
    requires l.Node? && Hangs(p, Node(l, entry, r))
    modifies PathEntries(p) + Entries(Node(l, entry, r))
    ensures top == l.entry && top.parent == ParentOf(p)
    ensures Hangs(RightOf(p, l.left, top), Node(l.right, entry, r))
    ensures PathEntries(RightOf(p, l.left, top)) + Entries(Node(l.right, entry, r))
         == PathEntries(p) + Entries(Node(l, entry, r))
    ensures p != Top ==> RootOf(Plug(p, Node(l, entry, r))) ==
                         RootOf(Plug(RightOf(p, l.left, top), Node(l.right, entry, r)))
  {
    Rotated(l.left, l.entry, l.right, entry, r, Lo(p), Hi(p));
    top := RotateRight(entry, p, l.entry, l.left, l.right, r);
    if p != Top {
      PlugRoot(p, Node(l, entry, r), Node(l.left, top, Node(l.right, entry, r)));
    }
  }

  /** A round of spdylay_map_remove that rotates left. */
  method SinkLeft(entry: Entry, ghost p: Path, ghost l: Tree, ghost r: Tree) returns (top: Entry)
    requires r.Node? && Hangs(p, Node(l, entry, r))
    modifies PathEntries(p) + Entries(Node(l, entry, r))
    ensures top == r.entry && top.parent == ParentOf(p)
    ensures Hangs(LeftOf(p, top, r.right), Node(l, entry, r.left))
    ensures PathEntries(LeftOf(p, top, r.right)) + Entries(Node(l, entry, r.left))
         == PathEntries(p) + Entries(Node(l, entry, r))
    ensures p != Top ==> RootOf(Plug(p, Node(l, entry, r))) ==
                         RootOf(Plug(LeftOf(p, top, r.right), Node(l, entry, r.left)))
  {
    Rotated(l, entry, r.left, r.entry, r.right, Lo(p), Hi(p));
    top := RotateLeft(entry, p, r.entry, l, r.left, r.right);
    if p != Top {
      PlugRoot(p, Node(l, entry, r), Node(Node(l, entry, r.left), top, r.right));
    }
  }

  /** A subtree in the place of its parent still fits, and holds neither the parent nor
      anything around it. */
  lemma PlugChild(p: Path, e: Entry, t: Tree)
    requires Fits(p, Node(Nil, e, t)) || Fits(p, Node(t, e, Nil))
    ensures Fits(p, t) && e !in PathEntries(p) && PathEntries(p) !! Entries(t)
  {
    FitsDisjoint(p, if Fits(p, Node(Nil, e, t)) then Node(Nil, e, t) else Node(t, e, Nil));
    if Fits(p, Node(Nil, e, t)) {
      OrderedWiden(t, e.key, Hi(p), Lo(p), Hi(p));
    } else {
      OrderedWiden(t, Lo(p), e.key, Lo(p), Hi(p));
    }
    FitsDisjoint(p, t);
  }

  lemma {:induction false} AbsentKey(t: Tree, key: int)
    requires key !in Keys(t)
    ensures Treap.Remove(t, key) == t
    ensures Entries(t) == set e <- Entries(t) | e.key != key
  {
    assert forall e <- Entries(t) :: e.key in Keys(t);
    if t.Node? {
      KeysOfChildren(t);
      AbsentKey(t.left, key);
      AbsentKey(t.right, key);
    }
  }

  lemma OneGone(t: Tree, e: Entry)
    requires Search(t) && e in Entries(t)
    ensures |set x <- Entries(t) | x.key != e.key| == |Entries(t)| - 1
  {
    LookupFinds(t, e.key, -1, WORD);
    assert (set x <- Entries(t) | x.key != e.key) == Entries(t) - {e};
  }

  class Map {
    var root: Entry?
    var size: nat
    ghost var tree: Tree

    ghost predicate Valid()
      reads this, Entries(tree)
    {
      && root == RootOf(tree) && Linked(tree, null)
      && IsTreap(tree)
      && size == |Entries(tree)|
    }

    /** spdylay_map_init. */
    constructor ()
      ensures Valid() && tree == Nil
    {
      root, size, tree := null, 0, Nil;
    }

    /** spdylay_map_find. */
    method Find(key: int) returns (entry: Entry?)
      requires Valid()
      ensures entry == null <==> key !in Keys(tree)
      ensures entry != null ==> entry in Entries(tree) && entry.key == key
    {
      LookupFinds(tree, key, -1, WORD);
      entry := root;
      ghost var sub := tree;
      ghost var up: Entry? := null;
      while entry != null
        invariant entry == RootOf(sub) && Linked(sub, up)
        invariant Lookup(sub, key) == Lookup(tree, key)
        invariant Entries(sub) <= Entries(tree)
        decreases sub
      {
        up := entry;
        if key < entry.key {
          sub, entry := sub.left, entry.left;
        } else if key > entry.key {
          sub, entry := sub.right, entry.right;
        } else {
          return;
        }
      }
    }

    /** The walk down of spdylay_map_insert: stops at the entry with the new key, or at
        the one whose free side the new entry belongs to. */
    method Descend(n: Entry) returns (entry: Entry, ghost p: Path, ghost sub: Tree)
      requires Valid() && root != null && IsWord(n.key)
      ensures Lo(p) < n.key < Hi(p)
      ensures sub.Node? && sub.entry == entry && Plug(p, sub) == tree
      ensures PathLinked(p, entry) && Linked(sub, ParentOf(p))
      ensures Lookup(sub, n.key) == Lookup(tree, n.key)
      ensures n.key < entry.key ==> sub.left == Nil
      ensures entry.key < n.key ==> sub.right == Nil
      ensures Ascend(p, Treap.Insert(sub, n)) == Treap.Insert(tree, n)
      ensures Valid()
    {
      assert allocated(Entries(tree));
      entry, p, sub := root, Top, tree;
      while true
        invariant sub.Node? && sub.entry == entry && Plug(p, sub) == tree
        invariant PathLinked(p, entry) && Linked(sub, ParentOf(p))
        invariant Lookup(sub, n.key) == Lookup(tree, n.key)
        invariant Lo(p) < n.key < Hi(p)
        invariant Ascend(p, Treap.Insert(sub, n)) == Treap.Insert(tree, n)
        decreases sub
      {
        if n.key == entry.key {
          return;
        } else if n.key < entry.key {
          if entry.left == null {
            return;
          }
          p, sub, entry := LeftOf(p, entry, sub.right), sub.left, entry.left;
        } else {
          if entry.right == null {
            return;
          }
          p, sub, entry := RightOf(p, sub.left, entry), sub.right, entry.right;
        }
      }
    }

    /** The rotation loop of spdylay_map_insert, from the parent of the new entry up. */
    method Rise(start: Entry, ghost from: Path, n: Entry)
      requires Hangs(from, Node(Nil, n, Nil)) && from != Top && from.parent == start && PathHeap(from)
      requires root == RootOf(Plug(from, Nil))
      modifies this`root, this`tree, PathEntries(from), n
      ensures tree == Ascend(from, Node(Nil, n, Nil))
      ensures root == RootOf(tree) && Linked(tree, null)
    {
      var entry := start;
      ghost var p, cur := from, Node(Nil, n, Nil);
      assert Entries(cur) == {n} by { SingleFits(from, n); }
      PlugRoot(p, Nil, cur);
      tree := Ascend(p, cur);
      while true
        invariant cur.Node? && Hangs(p, cur) && p != Top && p.parent == entry && PathHeap(p)
        invariant PathEntries(p) + Entries(cur) == PathEntries(from) + {n}
        invariant root == RootOf(Plug(p, cur))
        invariant tree == Ascend(p, cur) == Ascend(from, Node(Nil, n, Nil))
        decreases p
      {
        var rotated, top, after := RotateUp(entry, p, cur);
        if !rotated {
          break;
        }
        entry, p, cur := top, p.up, after;
        if entry.parent == null {
          root := entry;
          break;
        }
        entry := entry.parent;
      }
      HangsLinked(p, cur);
    }

    /** Attach `n` below `entry`, on the side its key belongs to. */
    method Attach(n: Entry, entry: Entry, ghost p: Path, ghost sub: Tree) returns (ghost from: Path)
      requires Hangs(p, sub) && sub.Node? && sub.entry == entry && PathHeap(p) && Heap(sub)
      requires p.Top? || RootAtLeast(sub, p.parent.priority)
      requires Lo(p) < n.key < Hi(p) && n !in PathEntries(p) + Entries(sub)
      requires (n.key < entry.key && sub.left == Nil) || (entry.key < n.key && sub.right == Nil)
      requires n.parent == null && n.left == null && n.right == null
      modifies entry, n
      ensures from != Top && from.parent == entry
      ensures Hangs(from, Node(Nil, n, Nil)) && PathHeap(from)
      ensures PathEntries(from) == PathEntries(p) + Entries(sub)
      ensures RootOf(Plug(from, Nil)) == RootOf(Plug(p, sub))
      ensures Ascend(from, Node(Nil, n, Nil)) == Ascend(p, Treap.Insert(sub, n))
    {
      FitsDisjoint(p, sub);
      if n.key < entry.key {
        entry.left := n;
        from := LeftOf(p, entry, sub.right);
        assert Lo(from) == Lo(p) && Hi(from) == entry.key;
      } else {
        entry.right := n;
        from := RightOf(p, sub.left, entry);
        assert Lo(from) == entry.key && Hi(from) == Hi(p);
      }
      n.parent := entry;
      SingleFits(from, n);
    }

    /** Attach `n` where the walk down ended and restore heap order. */
    method AddBelow(n: Entry, entry: Entry, ghost p: Path, ghost sub: Tree)
      requires Valid() && InsertionPoint(p, sub, entry, n)
      modifies this`root, this`tree, Entries(tree), n
      ensures tree == old(Treap.Insert(tree, n)) && root == RootOf(tree) && Linked(tree, null)
    {
      PlugFits(p, sub);
      PlugHeap(p, sub);
      PlugLinked(p, sub);
      NotYetIn(tree, n);
      var from := Attach(n, entry, p, sub);
      Rise(entry, from, n);
    }

    ghost predicate InsertionPoint(p: Path, sub: Tree, entry: Entry, n: Entry)
      reads this, n
    {
      && Plug(p, sub) == tree && sub.Node? && sub.entry == entry
      && n.Initialised() && n.key !in Keys(tree) && Lo(p) < n.key < Hi(p)
      && ((n.key < entry.key && sub.left == Nil) || (entry.key < n.key && sub.right == Nil))
      && Ascend(p, Treap.Insert(sub, n)) == Treap.Insert(tree, n)
      && n.parent == null && n.left == null && n.right == null
    }

    method AddNew(n: Entry, entry: Entry, ghost p: Path, ghost sub: Tree)
      requires Valid() && InsertionPoint(p, sub, entry, n)
      modifies this, Entries(tree), n
      ensures Valid() && tree == old(Treap.Insert(tree, n)) && Entries(tree) == old(Entries(tree)) + {n}
    {
      InsertKeeps(tree, n);
      NotYetIn(tree, n);
      AddBelow(n, entry, p, sub);
      Resize(size + 1);
    }

    method InsertFirst(n: Entry)
      requires n.Initialised() && n.parent == null && n.left == null && n.right == null
      modifies this
      ensures Valid() && tree == Node(Nil, n, Nil) && Entries(tree) == {n}
    {
      root := n;
      size := 1;
      tree := Node(Nil, n, Nil);
      SingleTreap(n);
    }

    method Resize(newSize: nat)
      requires root == RootOf(tree) && Linked(tree, null) && IsTreap(tree) && |Entries(tree)| == newSize
      modifies this`size
      ensures Valid()
    {
      size := newSize;
    }

    /** spdylay_map_insert.  A new entry must have been initialised and not be linked
        anywhere; a duplicate key is refused and nothing changes. */
    method Insert(n: Entry) returns (rv: int)
      requires Valid() && n.Initialised()
      requires n.key !in Keys(tree) ==> n.parent == null && n.left == null && n.right == null
      modifies this, Entries(tree), n
      ensures Valid()
      ensures rv == (if n.key in old(Keys(tree)) then INVALID_ARGUMENT else 0)
      ensures tree == if n.key in old(Keys(tree)) then old(tree) else Treap.Insert(old(tree), n)
      ensures Entries(tree) == old(Entries(tree)) + if rv == 0 then {n} else {}
      ensures rv != 0 ==> unchanged(this) && unchanged(n)
    {
      if root == null {
        InsertFirst(n);
        return 0;
      }
      rv := InsertNext(n);
    }

    /** The same for a tree that is not empty. */
    method InsertNext(n: Entry) returns (rv: int)
      requires Valid() && root != null && n.Initialised()
      requires n.key !in Keys(tree) ==> n.parent == null && n.left == null && n.right == null
      modifies this, Entries(tree), n
      ensures Valid()
      ensures rv == (if n.key in old(Keys(tree)) then INVALID_ARGUMENT else 0)
      ensures tree == if n.key in old(Keys(tree)) then old(tree) else Treap.Insert(old(tree), n)
      ensures Entries(tree) == old(Entries(tree)) + if rv == 0 then {n} else {}
      ensures rv != 0 ==> unchanged(this) && unchanged(n)
    {
      assert allocated(Entries(tree));
      var entry, p, sub := Descend(n);
      LookupFinds(tree, n.key, -1, WORD);
      if entry.key == n.key {
        return INVALID_ARGUMENT;
      }
      AddNew(n, entry, p, sub);
      return 0;
    }

    /** The search of spdylay_map_remove. */
    method Locate(key: int) returns (entry: Entry?, ghost p: Path, ghost sub: Tree)
      requires Valid()
      ensures Valid() && Plug(p, sub) == tree && RootOf(sub) == entry
      ensures entry == null <==> key !in Keys(tree)
      ensures entry != null ==> entry.key == key
      ensures Plug(p, Treap.Remove(sub, key)) == Treap.Remove(tree, key)
    {
      LookupFinds(tree, key, -1, WORD);
      assert allocated(Entries(tree));
      entry, p, sub := root, Top, tree;
      while entry != null
        invariant RootOf(sub) == entry && Plug(p, sub) == tree && Linked(sub, ParentOf(p))
        invariant Lookup(sub, key) == Lookup(tree, key)
        invariant Plug(p, Treap.Remove(sub, key)) == Treap.Remove(tree, key)
        decreases sub
      {
        if key < entry.key {
          p, sub, entry := LeftOf(p, entry, sub.right), sub.left, entry.left;
        } else if key > entry.key {
          p, sub, entry := RightOf(p, sub.left, entry), sub.right, entry.right;
        } else {
          return;
        }
      }
    }

    /** Cut `entry`, which has at most one child, out of the tree. */
    method Splice(entry: Entry, child: Entry?, ghost p: Path, ghost t: Tree)
      requires child == RootOf(t)
      requires Hangs(p, Node(Nil, entry, t)) || Hangs(p, Node(t, entry, Nil))
      requires root == RootOf(Plug(p, Node(Nil, entry, t)))
      modifies this`root, PathEntries(p), Entries(t)
      ensures root == RootOf(Plug(p, t)) && Linked(Plug(p, t), null)
    {
      PlugChild(p, entry, t);
      assert allocated(PathEntries(p)) && allocated(Entries(t));
      if entry.parent == null {
        root := child;
      } else {
        PlugRoot(p, Node(Nil, entry, t), t);
      }
      var parent := entry.parent;
      ReplaceChild(parent, entry, child, p);
      Reparent(child, parent, entry, t, Lo(p), Hi(p));
      PlugLinked(p, t);
    }

    method CutOut(entry: Entry, ghost p: Path, ghost l: Tree, ghost r: Tree)
      requires Hangs(p, Node(l, entry, r)) && (l == Nil || r == Nil)
      requires root == RootOf(Plug(p, Node(l, entry, r)))
      modifies this`root, PathEntries(p), Entries(Node(l, entry, r))
      ensures root == RootOf(Plug(p, Join(l, r))) && Linked(Plug(p, Join(l, r)), null)
    {
      if entry.left == null {
        Splice(entry, entry.right, p, r);
      } else {
        PlugSameRoot(p, Node(l, entry, r), Node(Nil, entry, l));
        Splice(entry, entry.left, p, l);
      }
    }

    /** One rotation of `entry`, towards the child with the greater priority. */
    method SinkOnce(entry: Entry, ghost p: Path, ghost l: Tree, ghost r: Tree) returns (ghost p': Path, ghost l': Tree, ghost r': Tree)
      requires Hangs(p, Node(l, entry, r)) && l.Node? && r.Node? && root == RootOf(Plug(p, Node(l, entry, r)))
      modifies this`root, PathEntries(p) + Entries(Node(l, entry, r))
      ensures Hangs(p', Node(l', entry, r')) && root == RootOf(Plug(p', Node(l', entry, r')))
      ensures PathEntries(p') + Entries(Node(l', entry, r')) == PathEntries(p) + Entries(Node(l, entry, r))
      ensures Plug(p', Join(l', r')) == Plug(p, Join(l, r)) && ((l' == l.right && r' == r) || (l' == l && r' == r.left))
    {
      if entry.left.priority < entry.right.priority {
        var top := SinkRight(entry, p, l, r);
        if top.parent == null {
          root := top;
        }
        p', l', r' := RightOf(p, l.left, top), l.right, r;
      } else {
        var top := SinkLeft(entry, p, l, r);
        if top.parent == null {
          root := top;
        }
        p', l', r' := LeftOf(p, top, r.right), l, r.left;
      }
    }

    /** The loop of spdylay_map_remove that rotates `start` down until it can be cut out. */
    method Sink(start: Entry, ghost from: Path, ghost left: Tree, ghost right: Tree)
      requires Hangs(from, Node(left, start, right))
      requires root == RootOf(Plug(from, Node(left, start, right)))
      modifies this`root, this`tree, PathEntries(from) + Entries(Node(left, start, right))
      ensures tree == Plug(from, Join(left, right))
      ensures root == RootOf(tree) && Linked(tree, null)
    {
      var entry := start;
      ghost var p, l, r := from, left, right;
      tree := Plug(p, Join(l, r));
      while entry.left != null && entry.right != null
        invariant Hangs(p, Node(l, entry, r))
        invariant PathEntries(p) + Entries(Node(l, entry, r)) == PathEntries(from) + Entries(Node(left, start, right))
        invariant root == RootOf(Plug(p, Node(l, entry, r)))
        invariant tree == Plug(p, Join(l, r)) == Plug(from, Join(left, right))
        decreases l, r
      {
        p, l, r := SinkOnce(entry, p, l, r);
      }
      CutOut(entry, p, l, r);
    }

    /** spdylay_map_remove.  A missing key is refused and nothing changes. */
    method Remove(key: int) returns (rv: int)
      requires Valid()
      modifies this, Entries(tree)
      ensures Valid()
      ensures rv == if key in old(Keys(tree)) then 0 else INVALID_ARGUMENT
      ensures tree == Treap.Remove(old(tree), key)
      ensures Entries(tree) == set e <- old(Entries(tree)) | e.key != key
    {
      RemoveKeeps(tree, key);
      var entry, p, sub := Locate(key);
      if entry == null {
        AbsentKey(tree, key);
        return INVALID_ARGUMENT;
      }
      PlugFits(p, sub);
      PlugLinked(p, sub);
      OneGone(tree, entry);
      Sink(entry, p, sub.left, sub.right);
      Resize(size - 1);
      return 0;
    }
  }
}
