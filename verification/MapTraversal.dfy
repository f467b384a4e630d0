/** The two traversals of spdylay_map: in-order with a callback that may stop the walk, and
    post-order with a callback that frees each entry. */
module MapTraversal {
  import opened Hash
  import opened Treap
  import opened TreapPath
  import opened StreamMap

  // ---------- spdylay_map_each ----------

  /** find_left_most, from the root of the subtree in the hole of `q`. */
  method FindLeftMost(start: Entry, ghost w: Tree, ghost q: Path, ghost t: Tree)
    returns (entry: Entry, ghost p: Path, ghost sub: Tree)
    requires Search(w) && Linked(w, null) && Plug(q, t) == w && t.Node? && t.entry == start
    ensures Linked(w, null) && Plug(p, sub) == w && sub.Node? && sub.entry == entry
    ensures sub.left == Nil && Before(p) == Before(q)
  {
    entry, p, sub := start, q, t;
    PlugLinked(p, sub);
    while entry.left != null
      invariant Plug(p, sub) == w && sub.Node? && sub.entry == entry
      invariant Linked(sub, ParentOf(p)) && Before(p) == Before(q)
      decreases sub
    {
      p, sub, entry := LeftOf(p, entry, sub.right), sub.left, entry.left;
    }
  }

  /** The loop of traverse_inorder: climb from a subtree that has been visited completely
      to the first ancestor on whose left it lies. */
  method Climb(current: Entry, ghost w: Tree, ghost q: Path, ghost t: Tree)
    returns (next: Entry?, ghost p: Path, ghost sub: Tree)
    requires Search(w) && Linked(w, null) && Plug(q, t) == w && t.Node? && t.entry == current
    ensures Linked(w, null)
    ensures next == null ==> InOrder(w) == Before(q) + InOrder(t)
    ensures next != null ==> Plug(p, sub) == w && sub.Node? && sub.entry == next
    ensures next != null ==> Before(p) + InOrder(sub.left) == Before(q) + InOrder(t)
  {
    p, sub := q, t;
    PlugLinked(p, sub);
    var entry := current;
    next := current.parent;
    while next != null && next.right == entry
      invariant Plug(p, sub) == w && sub.Node? && sub.entry == entry && next == ParentOf(p)
      invariant Linked(w, null) && PathLinked(p, entry) && Linked(sub, next)
      invariant Before(p) + InOrder(sub) == Before(q) + InOrder(t)
      decreases p
    {
      NotTheSibling(p, sub);
      OneUp(p, sub);
      sub, p, entry := Node(p.sibling, p.parent, sub), p.up, entry.parent;
      next := next.parent;
    }
    if next == null {
      assert p == Top && Before(p) == [];
    } else {
      assert p.LeftOf? && Before(p) == Before(p.up);
      sub, p := Node(sub, p.parent, p.sibling), p.up;
    }
  }

  lemma OneUp(p: Path, t: Tree)
    ensures p.RightOf? ==> Before(p) + InOrder(t) == Before(p.up) + InOrder(Node(p.sibling, p.parent, t))
  {
  }

  /** traverse_inorder: the entry after `current`, or null at the end. */
  method TraverseInOrder(current: Entry, ghost w: Tree, ghost q: Path, ghost t: Tree)
    returns (next: Entry?, ghost p: Path, ghost sub: Tree)
    requires Search(w) && Linked(w, null) && Plug(q, t) == w && t.Node? && t.entry == current
    ensures Linked(w, null)
    ensures next == null ==> InOrder(w) == Before(q) + InOrder(t.left) + [current]
    ensures next != null ==> Plug(p, sub) == w && sub.Node? && sub.entry == next
    ensures next != null ==> Before(p) + InOrder(sub.left) == Before(q) + InOrder(t.left) + [current]
  {
    PlugLinked(q, t);
    if current.right != null {
      next, p, sub := FindLeftMost(current.right, w, RightOf(q, t.left, current), t.right);
      assert InOrder(sub.left) == [];
    } else {
      assert InOrder(t) == InOrder(t.left) + [current] + [];
      next, p, sub := Climb(current, w, q, t);
    }
  }

  /** The entry in the hole is a child of its parent on one side only. */
  lemma NotTheSibling(p: Path, t: Tree)
    requires Search(Plug(p, t)) && t.Node? && p != Top
    ensures t.entry != RootOf(p.sibling)
  {
    PlugFits(p, t);
    FitsDisjoint(p, t);
  }

  /** spdylay_map_each: visits entries in ascending key order until the callback, here the
      function `func` of the key, returns non-zero. */
  method Each(m: Map, func: int -> int) returns (rv: int, visited: seq<Entry>)
    requires m.Valid()
    ensures visited <= InOrder(m.tree)
    ensures rv == 0 ==> visited == InOrder(m.tree) && forall e <- visited :: func(e.key) == 0
    ensures rv != 0 ==> visited != [] && func(visited[|visited| - 1].key) == rv
    ensures rv != 0 ==> forall e <- visited[..|visited| - 1] :: func(e.key) == 0
  {
    rv, visited := 0, [];
    if m.root == null {
      return;
    }
    var entry: Entry?;
    ghost var p, sub;
    entry, p, sub := FindLeftMost(m.root, m.tree, Top, m.tree);
    while entry != null
      invariant Linked(m.tree, null)
      invariant entry != null ==> Plug(p, sub) == m.tree && sub.Node? && sub.entry == entry
      invariant entry != null ==> visited == Before(p) + InOrder(sub.left)
      invariant entry == null ==> visited == InOrder(m.tree)
      invariant forall e <- visited :: func(e.key) == 0
      decreases |InOrder(m.tree)| - |visited|, entry
    {
      PlugInOrder(p, sub);
      ghost var before := visited;
      visited := visited + [entry];
      assert visited[..|visited| - 1] == before;
      rv := func(entry.key);
      if rv != 0 {
        return;
      }
      entry, p, sub := TraverseInOrder(entry, m.tree, p, sub);
    }
  }

  // ---------- spdylay_map_each_free ----------

  /** The entries around the hole that a post-order walk has yet to visit. */
  ghost function Rest(p: Path): set<Entry> {
    match p
    case Top => {}
    case LeftOf(up, e, r) => Rest(up) + {e} + Entries(r)
    case RightOf(up, _, e) => Rest(up) + {e}
  }

  /** Linkage of those entries only; nothing is known of a left subtree already freed. */
  ghost predicate RestLinked(p: Path, hole: Entry?)
    reads Rest(p)
  {
    match p
    case Top => true
    case LeftOf(up, e, r) =>
      e.left == hole && e.right == RootOf(r) && e.parent == ParentOf(up) && Linked(r, e) && RestLinked(up, e)
    case RightOf(up, l, e) =>
      e.right == hole && e.left == RootOf(l) && e.parent == ParentOf(up) && RestLinked(up, e)
  }

  lemma {:induction false} RestInPath(p: Path)
    ensures Rest(p) <= PathEntries(p)
  {
    if p != Top {
      RestInPath(p.up);
    }
  }

  lemma {:induction false} PathRestLinked(p: Path, hole: Entry?)
    requires PathLinked(p, hole)
    ensures RestLinked(p, hole)
  {
    if p != Top {
      PathRestLinked(p.up, p.parent);
    }
  }

  /** Where the walk stands: `entry`, not freed yet, with all that comes before it freed. */
  ghost predicate Standing(entry: Entry, w: Tree, p: Path, sub: Tree, freed: seq<Entry>)
    reads Rest(p), entry
  {
    && Plug(p, sub) == w && sub.Node? && sub.entry == entry
    && RestLinked(p, entry) && entry.parent == ParentOf(p)
    && freed == PostBefore(p) + PostOrder(sub.left) + PostOrder(sub.right)
  }

  /** find_left_most_leaf, from the root of an untouched subtree. */
  method FindLeftMostLeaf(start: Entry, ghost w: Tree, ghost q: Path, ghost t: Tree, ghost freed: seq<Entry>)
    returns (entry: Entry, ghost p: Path, ghost sub: Tree)
    requires Plug(q, t) == w && t.Node? && t.entry == start && freed == PostBefore(q)
    requires RestLinked(q, start) && Linked(t, ParentOf(q))
    ensures Standing(entry, w, p, sub, freed)
  {
    entry, p, sub := start, q, t;
    while true
      invariant Plug(p, sub) == w && sub.Node? && sub.entry == entry
      invariant RestLinked(p, entry) && Linked(sub, ParentOf(p)) && PostBefore(p) == freed
      decreases sub
    {
      while entry.left != null
        invariant Plug(p, sub) == w && sub.Node? && sub.entry == entry
        invariant RestLinked(p, entry) && Linked(sub, ParentOf(p)) && PostBefore(p) == freed
        decreases sub
      {
        p, sub, entry := LeftOf(p, entry, sub.right), sub.left, entry.left;
      }
      if entry.right != null {
        assert PostOrder(sub.left) == [];
        p, sub, entry := RightOf(p, sub.left, entry), sub.right, entry.right;
      } else {
        return;
      }
    }
  }

  /** traverse_postorder: the entry after `entry`, which has been freed and is only
      compared, never followed. */
  method TraversePostOrder(parent: Entry?, entry: Entry, ghost w: Tree, ghost q: Path, ghost t: Tree, ghost freed: seq<Entry>)
    returns (next: Entry?, ghost p: Path, ghost sub: Tree)
    requires Search(w) && Plug(q, t) == w && t.Node? && t.entry == entry
    requires parent == ParentOf(q) && RestLinked(q, entry)
    requires freed == PostBefore(q) + PostOrder(t)
    ensures next == null ==> freed == PostOrder(w)
    ensures next != null ==> Standing(next, w, p, sub, freed)
  {
    p, sub := q, t;
    if parent == null {
      return null, p, sub;
    }
    NotTheSibling(q, t);
    if parent.left == entry {
      if parent.right != null {
        next, p, sub := FindLeftMostLeaf(parent.right, w, RightOf(q.up, t, parent), q.sibling, freed);
      } else {
        assert PostOrder(q.sibling) == [];
        return parent, q.up, Node(t, parent, q.sibling);
      }
    } else {
      return parent, q.up, Node(q.sibling, parent, t);
    }
  }

  /** The callback that frees an entry: afterwards its fields hold anything. */
  method Free(entry: Entry)
    modifies entry
  {
    entry.left, entry.right, entry.parent := *, *, *;
  }

  /** spdylay_map_each_free: every entry is freed once, in post-order. */
  method EachFree(m: Map) returns (freed: seq<Entry>)
    requires m.Valid()
    modifies m, Entries(m.tree)
    ensures freed == old(PostOrder(m.tree)) && m.root == null
  {
    freed := [];
    if m.root == null {
      return;
    }
    ghost var w := m.tree;
    var entry: Entry?;
    ghost var p, sub;
    entry, p, sub := FindLeftMostLeaf(m.root, w, Top, w, freed);
    while entry != null
      invariant entry != null ==> Standing(entry, w, p, sub, freed)
      invariant entry == null ==> freed == PostOrder(w)
      decreases |PostOrder(w)| - |freed|, entry
    {
      StandingFacts(entry, w, p, sub, freed);
      assert allocated(Rest(p));
      var parent := entry.parent;
      Free(entry);
      freed := freed + [entry];
      entry, p, sub := TraversePostOrder(parent, entry, w, p, sub, freed);
    }
    m.root := null;
  }

  lemma StandingFacts(entry: Entry, w: Tree, p: Path, sub: Tree, freed: seq<Entry>)
    requires Search(w) && Standing(entry, w, p, sub, freed)
    ensures entry in Entries(w) && entry !in Rest(p)
    ensures |freed| < |PostOrder(w)|
    ensures freed + [entry] == PostBefore(p) + PostOrder(sub)
  {
    PlugFits(p, sub);
    FitsDisjoint(p, sub);
    RestInPath(p);
    var later := [entry] + PostAfter(p);
    PostOrderCut(p, sub, freed, later);
    assert |freed + later| > |freed|;
    Regroup(PostBefore(p), PostOrder(sub.left), PostOrder(sub.right), entry, PostAfter(p));
  }

  /** Nothing the walk may still follow has been freed. */
  lemma NeverFreed(p: Path, sub: Tree, x: Entry)
    requires Search(Plug(p, sub)) && sub.Node?
    requires x == sub.entry || x in Rest(p)
    ensures x !in PostBefore(p) + PostOrder(sub.left) + PostOrder(sub.right)
  {
    var freed := PostBefore(p) + PostOrder(sub.left) + PostOrder(sub.right);
    var later := [sub.entry] + PostAfter(p);
    PostOrderCut(p, sub, freed, later);
    PostOrderOnce(Plug(p, sub), -1, WORD);
    PlugFits(p, sub);
    if x in Rest(p) {
      RestIsAfter(p, x);
    }
    LaterNotEarlier(freed, later, x);
  }

  /** Post-order, cut before the entry the walk stands on. */
  lemma PostOrderCut(p: Path, sub: Tree, freed: seq<Entry>, later: seq<Entry>)
    requires sub.Node?
    requires freed == PostBefore(p) + PostOrder(sub.left) + PostOrder(sub.right) && later == [sub.entry] + PostAfter(p)
    ensures PostOrder(Plug(p, sub)) == freed + later
  {
    PlugPostOrder(p, sub);
    Regroup(PostBefore(p), PostOrder(sub.left), PostOrder(sub.right), sub.entry, PostAfter(p));
  }

  lemma Regroup(a: seq<Entry>, l: seq<Entry>, r: seq<Entry>, e: Entry, b: seq<Entry>)
    ensures a + (l + r + [e]) + b == (a + l + r) + ([e] + b)
    ensures a + (l + r + [e]) == (a + l + r) + [e]
  {
  }

  lemma LaterNotEarlier(a: seq<Entry>, b: seq<Entry>, x: Entry)
    requires forall i, j :: 0 <= i < j < |a + b| ==> (a + b)[i] != (a + b)[j]
    requires x in b
    ensures x !in a
  {
    var k :| 0 <= k < |b| && b[k] == x;
    assert (a + b)[|a| + k] == x;
    assert forall i :: 0 <= i < |a| ==> (a + b)[i] == a[i];
  }

  lemma {:induction false} RestIsAfter(p: Path, x: Entry)
    requires PathOrdered(p) && x in Rest(p)
    ensures x in PostAfter(p)
  {
    match p
    case LeftOf(up, e, r) =>
      PostOrderOnce(r, e.key, Hi(up));
      if x in Rest(up) { RestIsAfter(up, x); }
    case RightOf(up, l, e) =>
      if x in Rest(up) { RestIsAfter(up, x); }
  }
}
