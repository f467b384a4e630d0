/** Paths from the root of a treap to one of its subtrees, and the pointer linkage of a tree
    seen from such a place.  A loop of spdylay_map.c that walks down or up the tree is a
    walk of a `Path`. */
module TreapPath {
  import opened Hash
  import opened Treap

  /** The tree around a hole: the ancestors of the hole, nearest first. */
  datatype Path =
    | Top
    | LeftOf(up: Path, parent: Entry, sibling: Tree)
    | RightOf(up: Path, sibling: Tree, parent: Entry)

  ghost function Plug(p: Path, t: Tree): Tree {
    match p
    case Top => t
    case LeftOf(up, e, r) => Plug(up, Node(t, e, r))
    case RightOf(up, l, e) => Plug(up, Node(l, e, t))
  }

  ghost function PathEntries(p: Path): set<Entry> {
    match p
    case Top => {}
    case LeftOf(up, e, r) => PathEntries(up) + {e} + Entries(r)
    case RightOf(up, l, e) => PathEntries(up) + {e} + Entries(l)
  }

  /** The bounds that the ancestors put on keys in the hole. */
  ghost function Lo(p: Path): int {
    match p
    case Top => -1
    case LeftOf(up, _, _) => Lo(up)
    case RightOf(_, _, e) => e.key
  }

  ghost function Hi(p: Path): int {
    match p
    case Top => WORD
    case LeftOf(_, e, _) => e.key
    case RightOf(up, _, _) => Hi(up)
  }

  ghost predicate PathOrdered(p: Path) {
    match p
    case Top => true
    case LeftOf(up, e, r) => Lo(up) < e.key < Hi(up) && Ordered(r, e.key, Hi(up)) && PathOrdered(up)
    case RightOf(up, l, e) => Lo(up) < e.key < Hi(up) && Ordered(l, Lo(up), e.key) && PathOrdered(up)
  }

  ghost predicate Fits(p: Path, t: Tree) {
    PathOrdered(p) && Ordered(t, Lo(p), Hi(p))
  }

  lemma {:induction false} PlugFits(p: Path, t: Tree)
    ensures Search(Plug(p, t)) <==> Fits(p, t)
    ensures Entries(Plug(p, t)) == PathEntries(p) + Entries(t)
  {
    match p
    case Top =>
    case LeftOf(up, e, r) => PlugFits(up, Node(t, e, r));
    case RightOf(up, l, e) => PlugFits(up, Node(l, e, t));
  }

  lemma {:induction false} PathKeysOutside(p: Path)
    requires PathOrdered(p)
    ensures Lo(p) <= Hi(p)
    ensures forall x <- PathEntries(p) :: x.key <= Lo(p) || Hi(p) <= x.key
  {
    match p
    case Top =>
    case LeftOf(up, e, r) => PathKeysOutside(up); OrderedBounds(r, e.key, Hi(up));
    case RightOf(up, l, e) => PathKeysOutside(up); OrderedBounds(l, Lo(up), e.key);
  }

  /** Nothing in the hole is also around it. */
  lemma FitsDisjoint(p: Path, t: Tree)
    requires Fits(p, t)
    ensures PathEntries(p) !! Entries(t)
    ensures t.Node? ==> t.entry !in Entries(t.left) + Entries(t.right)
    ensures t.Node? ==> Entries(t.left) !! Entries(t.right)
  {
    PathKeysOutside(p);
    OrderedBounds(t, Lo(p), Hi(p));
    if t.Node? {
      OrderedBounds(t.left, Lo(p), t.entry.key);
      OrderedBounds(t.right, t.entry.key, Hi(p));
    }
  }

  // ---------- pointer linkage ----------

  ghost function RootOf(t: Tree): Entry? { if t.Nil? then null else t.entry }

  ghost function ParentOf(p: Path): Entry? { if p.Top? then null else p.parent }

  /** The heap links of `t`'s entries spell out `t`, hanging below `parent`. */
  ghost predicate Linked(t: Tree, parent: Entry?)
    reads Entries(t)
  {
    match t
    case Nil => true
    case Node(l, e, r) =>
      e.parent == parent && e.left == RootOf(l) && e.right == RootOf(r) && Linked(l, e) && Linked(r, e)
  }

  /** The heap links around the hole spell out the path, with `hole` in the hole. */
  ghost predicate PathLinked(p: Path, hole: Entry?)
    reads PathEntries(p)
  {
    match p
    case Top => true
    case LeftOf(up, e, r) =>
      e.left == hole && e.right == RootOf(r) && e.parent == ParentOf(up) && Linked(r, e) && PathLinked(up, e)
    case RightOf(up, l, e) =>
      e.right == hole && e.left == RootOf(l) && e.parent == ParentOf(up) && Linked(l, e) && PathLinked(up, e)
  }

  lemma {:induction false} PlugLinked(p: Path, t: Tree)
    ensures Linked(Plug(p, t), null) <==> PathLinked(p, RootOf(t)) && Linked(t, ParentOf(p))
  {
    match p
    case Top =>
    case LeftOf(up, e, r) => PlugLinked(up, Node(t, e, r));
    case RightOf(up, l, e) => PlugLinked(up, Node(l, e, t));
  }

  lemma {:induction false} PlugRoot(p: Path, t: Tree, t': Tree)
    requires p != Top
    ensures RootOf(Plug(p, t)) == RootOf(Plug(p, t'))
  {
    match p
    case LeftOf(up, e, r) => if up != Top { PlugRoot(up, Node(t, e, r), Node(t', e, r)); }
    case RightOf(up, l, e) => if up != Top { PlugRoot(up, Node(l, e, t), Node(l, e, t')); }
  }

  lemma PlugSameRoot(p: Path, t: Tree, t': Tree)
    requires RootOf(t) == RootOf(t')
    ensures RootOf(Plug(p, t)) == RootOf(Plug(p, t'))
  {
    if p != Top {
      PlugRoot(p, t, t');
    }
  }

  // ---------- the way up after an insertion ----------

  /** Replaying the rotation test at every ancestor of the hole. */
  ghost function Ascend(p: Path, t: Tree): Tree {
    match p
    case Top => t
    case LeftOf(up, e, r) => Ascend(up, FixLeft(t, e, r))
    case RightOf(up, l, e) => Ascend(up, FixRight(l, e, t))
  }

  ghost predicate PathHeap(p: Path) {
    match p
    case Top => true
    case LeftOf(up, e, r) =>
      RootAtLeast(r, e.priority) && (up.Top? || up.parent.priority <= e.priority) && PathHeap(up)
    case RightOf(up, l, e) =>
      RootAtLeast(l, e.priority) && (up.Top? || up.parent.priority <= e.priority) && PathHeap(up)
  }

  lemma {:induction false} PlugHeap(p: Path, t: Tree)
    requires Heap(Plug(p, t))
    ensures PathHeap(p) && Heap(t) && (p.Top? || RootAtLeast(t, p.parent.priority))
  {
    match p
    case Top =>
    case LeftOf(up, e, r) => PlugHeap(up, Node(t, e, r));
    case RightOf(up, l, e) => PlugHeap(up, Node(l, e, t));
  }

  /** Once one ancestor needs no rotation, none above does: the source may stop there. */
  lemma {:induction false} AscendStable(p: Path, t: Tree)
    requires PathHeap(p) && (p.Top? || RootAtLeast(t, p.parent.priority))
    ensures Ascend(p, t) == Plug(p, t)
  {
    match p
    case Top =>
    case LeftOf(up, e, r) => AscendStable(up, Node(t, e, r));
    case RightOf(up, l, e) => AscendStable(up, Node(l, e, t));
  }

  // ---------- traversal orders ----------

  ghost function InOrder(t: Tree): seq<Entry> {
    match t
    case Nil => []
    case Node(l, e, r) => InOrder(l) + [e] + InOrder(r)
  }

  ghost function PostOrder(t: Tree): seq<Entry> {
    match t
    case Nil => []
    case Node(l, e, r) => PostOrder(l) + PostOrder(r) + [e]
  }

  /** What an in-order walk has visited before it enters the hole, and what comes after. */
  ghost function Before(p: Path): seq<Entry> {
    match p
    case Top => []
    case LeftOf(up, _, _) => Before(up)
    case RightOf(up, l, e) => Before(up) + InOrder(l) + [e]
  }

  ghost function After(p: Path): seq<Entry> {
    match p
    case Top => []
    case LeftOf(up, e, r) => [e] + InOrder(r) + After(up)
    case RightOf(up, _, _) => After(up)
  }

  lemma {:induction false} PlugInOrder(p: Path, t: Tree)
    ensures InOrder(Plug(p, t)) == Before(p) + InOrder(t) + After(p)
  {
    match p
    case Top =>
    case LeftOf(up, e, r) => PlugInOrder(up, Node(t, e, r));
    case RightOf(up, l, e) => PlugInOrder(up, Node(l, e, t));
  }

  ghost function PostBefore(p: Path): seq<Entry> {
    match p
    case Top => []
    case LeftOf(up, _, _) => PostBefore(up)
    case RightOf(up, l, _) => PostBefore(up) + PostOrder(l)
  }

  ghost function PostAfter(p: Path): seq<Entry> {
    match p
    case Top => []
    case LeftOf(up, e, r) => PostOrder(r) + [e] + PostAfter(up)
    case RightOf(up, _, e) => [e] + PostAfter(up)
  }

  lemma {:induction false} PlugPostOrder(p: Path, t: Tree)
    ensures PostOrder(Plug(p, t)) == PostBefore(p) + PostOrder(t) + PostAfter(p)
  {
    match p
    case Top =>
    case LeftOf(up, e, r) => PlugPostOrder(up, Node(t, e, r));
    case RightOf(up, l, e) => PlugPostOrder(up, Node(l, e, t));
  }

  /** In-order is ascending key order and lists every entry exactly once. */
  lemma {:induction false} InOrderAscends(t: Tree, lo: int, hi: int)
    requires Ordered(t, lo, hi)
    ensures forall i, j :: 0 <= i < j < |InOrder(t)| ==> InOrder(t)[i].key < InOrder(t)[j].key
    ensures forall x <- InOrder(t) :: x in Entries(t)
    ensures forall x <- Entries(t) :: x in InOrder(t)
  {
    if t.Node? {
      InOrderAscends(t.left, lo, t.entry.key);
      InOrderAscends(t.right, t.entry.key, hi);
      OrderedBounds(t.left, lo, t.entry.key);
      OrderedBounds(t.right, t.entry.key, hi);
      var l, r, s := InOrder(t.left), InOrder(t.right), InOrder(t);
      forall i, j | 0 <= i < j < |s|
        ensures s[i].key < s[j].key
      {
        assert i < |l| ==> s[i] in l;
        assert j > |l| ==> s[j] in r;
      }
    }
  }

  /** Post-order lists every entry exactly once. */
  lemma {:induction false} PostOrderOnce(t: Tree, lo: int, hi: int)
    requires Ordered(t, lo, hi)
    ensures forall i, j :: 0 <= i < j < |PostOrder(t)| ==> PostOrder(t)[i] != PostOrder(t)[j]
    ensures forall x <- PostOrder(t) :: x in Entries(t)
    ensures forall x <- Entries(t) :: x in PostOrder(t)
  {
    if t.Node? {
      PostOrderOnce(t.left, lo, t.entry.key);
      PostOrderOnce(t.right, t.entry.key, hi);
      OrderedBounds(t.left, lo, t.entry.key);
      OrderedBounds(t.right, t.entry.key, hi);
      var l, r, s := PostOrder(t.left), PostOrder(t.right), PostOrder(t);
      forall i, j | 0 <= i < j < |s|
        ensures s[i] != s[j]
      {
        assert i < |l| ==> s[i] in l;
        assert |l| <= j < |l| + |r| ==> s[j] in r;
      }
    }
  }

  /** `x` sits strictly below `y`. */
  ghost predicate IsBelow(t: Tree, x: Entry, y: Entry) {
    t.Node? &&
    ((t.entry == y && (x in Entries(t.left) || x in Entries(t.right)))
     || IsBelow(t.left, x, y) || IsBelow(t.right, x, y))
  }

  /** In post-order no entry comes before one below it. */
  lemma {:induction false} ChildrenFirst(t: Tree, lo: int, hi: int, i: int, j: int)
    requires Ordered(t, lo, hi) && 0 <= i < j < |PostOrder(t)|
    ensures !IsBelow(t, PostOrder(t)[j], PostOrder(t)[i])
  {
    var l, r, s := PostOrder(t.left), PostOrder(t.right), PostOrder(t);
    OrderedBounds(t.left, lo, t.entry.key);
    OrderedBounds(t.right, t.entry.key, hi);
    PostOrderOnce(t, lo, hi);
    PostOrderOnce(t.left, lo, t.entry.key);
    PostOrderOnce(t.right, t.entry.key, hi);
    assert s[i] != t.entry by { assert s[|s| - 1] == t.entry; }
    if IsBelow(t.left, s[j], s[i]) {
      BelowInside(t.left, s[j], s[i]);
      assert j < |l| by { NotInRight(t, lo, hi, j); }
      assert s[i] == l[i] && s[j] == l[j];
      ChildrenFirst(t.left, lo, t.entry.key, i, j);
    }
    if IsBelow(t.right, s[j], s[i]) {
      BelowInside(t.right, s[j], s[i]);
      assert s[i] !in l;
      assert j < |l| + |r| by { assert s[|s| - 1] == t.entry; }
      assert s[i] == r[i - |l|] && s[j] == r[j - |l|];
      ChildrenFirst(t.right, t.entry.key, hi, i - |l|, j - |l|);
    }
  }

  lemma NotInRight(t: Tree, lo: int, hi: int, j: int)
    requires Ordered(t, lo, hi) && t.Node? && 0 <= j < |PostOrder(t)|
    requires PostOrder(t)[j] in Entries(t.left)
    ensures j < |PostOrder(t.left)|
  {
    var l, r, s := PostOrder(t.left), PostOrder(t.right), PostOrder(t);
    OrderedBounds(t.left, lo, t.entry.key);
    OrderedBounds(t.right, t.entry.key, hi);
    PostOrderOnce(t.right, t.entry.key, hi);
    assert s[j] !in r;
  }

  lemma {:induction false} BelowInside(t: Tree, x: Entry, y: Entry)
    requires IsBelow(t, x, y)
    ensures x in Entries(t) && y in Entries(t)
  {
    if IsBelow(t.left, x, y) {
      BelowInside(t.left, x, y);
    } else if IsBelow(t.right, x, y) {
      BelowInside(t.right, x, y);
    }
  }

  /** Otherwise keys ascend: of two entries neither of which is below the other, the smaller
      comes first. */
  lemma {:induction false} LeftFirst(t: Tree, lo: int, hi: int, i: int, j: int)
    requires Ordered(t, lo, hi) && 0 <= i < j < |PostOrder(t)|
    ensures PostOrder(t)[i].key < PostOrder(t)[j].key || IsBelow(t, PostOrder(t)[i], PostOrder(t)[j])
  {
    var l, r, s := PostOrder(t.left), PostOrder(t.right), PostOrder(t);
    PostOrderOnce(t.left, lo, t.entry.key);
    PostOrderOnce(t.right, t.entry.key, hi);
    if j < |l| {
      assert s[i] == l[i] && s[j] == l[j];
      LeftFirst(t.left, lo, t.entry.key, i, j);
    } else if j == |l| + |r| {
      assert s[j] == t.entry;
      assert if i < |l| then s[i] == l[i] else s[i] == r[i - |l|];
    } else if i >= |l| {
      assert s[i] == r[i - |l|] && s[j] == r[j - |l|];
      LeftFirst(t.right, t.entry.key, hi, i - |l|, j - |l|);
    } else {
      assert s[i] == l[i] && s[j] == r[j - |l|];
      OrderedBounds(t.left, lo, t.entry.key);
      OrderedBounds(t.right, t.entry.key, hi);
    }
  }
}
