/** Packing a list and decoding what was packed. */
module HeaderRoundTrip {
  import opened Base
  import opened ChunkBuffer
  import opened HeaderWire
  import opened HeaderTable
  import opened HeaderPack
  import opened NameSorting
  import opened HeaderUnpack

  /** C strings: no NUL bytes in names or values. */
  predicate CStrings(nv: seq<Pair>) {
    forall p <- nv :: 0 !in p.0 && 0 !in p.1
  }

  predicate ByName(nv: seq<Pair>) {
    forall i, j :: 0 <= i < j < |nv| ==> Leq(nv[i].0, nv[j].0)
  }

  predicate GoodNames(nv: seq<Pair>) {
    forall p <- nv :: NameOk(p.0)
  }

  /** Only the last value of a run of equal names may be empty. */
  predicate Joinable(nv: seq<Pair>) {
    forall i :: 0 < i < |nv| && nv[i - 1].0 == nv[i].0 ==> nv[i - 1].1 != []
  }

  // ---------- grouped entries are clean ----------

  function LastPart(v: seq<byte>): seq<byte> {
    Split(v)[|Split(v)| - 1]
  }

  lemma JoinedOk(x: seq<byte>, v: seq<byte>)
    requires 0 !in v
    ensures LastPart(x + [0] + v) == v
    ensures ValueOk(x + [0] + v) <==> ValueOk(x) && LastPart(x) != []
  {
    SplitJoin(x, v);
    var p, q := Split(x), Split(x + [0] + v);
    assert forall k :: 0 <= k < |p| ==> q[k] == p[k];
  }

  /** The last value of the list is the last part of the last entry. */
  lemma GroupEnds(nv: seq<Pair>)
    requires nv != [] && CStrings(nv)
    ensures LastPart(Group(nv)[|Group(nv)| - 1].value) == nv[|nv| - 1].1
  {
    var n := |nv| - 1;
    GroupStep(nv, n);
    assert nv[..n + 1] == nv;
    var g := Group(nv[..n]);
    if Joins(nv, n) {
      JoinedOk(g[|g| - 1].value, nv[n].1);
    } else {
      SplitSingle(nv[n].1);
    }
  }

  lemma CleanJoined(front: seq<Entry>, e: Entry, v: seq<byte>)
    requires 0 !in v
    ensures Clean(front + [Joined(e, v)]) <==> Clean(front + [e]) && LastPart(e.value) != []
  {
    CleanSnoc(front, e);
    CleanSnoc(front, Joined(e, v));
    JoinedOk(e.value, v);
  }

  lemma CleanAdded(front: seq<Entry>, name: seq<byte>, v: seq<byte>)
    requires 0 !in v
    ensures Clean(front + [Entry(name, v)]) <==> Clean(front) && NameOk(name)
  {
    CleanSnoc(front, Entry(name, v));
    SplitSingle(v);
  }

  lemma ListSnoc(nv: seq<Pair>)
    requires nv != []
    ensures var n := |nv| - 1;
      && (GoodNames(nv) <==> GoodNames(nv[..n]) && NameOk(nv[n].0))
      && (Joinable(nv) <==> Joinable(nv[..n]) && (Joins(nv, n) ==> nv[n - 1].1 != []))
      && (CStrings(nv) ==> CStrings(nv[..n]))
  {
    var n := |nv| - 1;
    assert nv == nv[..n] + [nv[n]];
    assert forall p :: p in nv <==> p in nv[..n] || p == nv[n];
  }

  lemma {:induction false} GroupClean(nv: seq<Pair>)
    requires CStrings(nv)
    ensures Clean(Group(nv)) <==> GoodNames(nv) && Joinable(nv)
  {
    if nv != [] {
      var n := |nv| - 1;
      ListSnoc(nv);
      GroupClean(nv[..n]);
      GroupStep(nv, n);
      assert nv[..n + 1] == nv;
      var g := Group(nv[..n]);
      if Joins(nv, n) {
        GroupEnds(nv[..n]);
        assert g == g[..|g| - 1] + [g[|g| - 1]];
        CleanJoined(g[..|g| - 1], g[|g| - 1], nv[n].1);
        assert nv[n - 1] in nv[..n];
      } else {
        CleanAdded(g, nv[n].0, nv[n].1);
      }
    }
  }

  // ---------- grouped entries have distinct names ----------

  /** Every entry takes its name from the list. */
  lemma {:induction false} GroupName(nv: seq<Pair>, e: Entry) returns (i: nat)
    requires e in Group(nv)
    ensures i < |nv| && nv[i].0 == e.name
  {
    var n := |nv| - 1;
    if e.name == nv[n].0 {
      i := n;
    } else {
      var g := Group(nv[..n]);
      assert e in g;
      i := GroupName(nv[..n], e);
    }
  }

  lemma NewName(nv: seq<Pair>, n: nat)
    requires ByName(nv) && n < |nv| && !Joins(nv, n)
    ensures forall d <- Group(nv[..n]) :: d.name != nv[n].0
  {
    forall d | d in Group(nv[..n]) ensures d.name != nv[n].0 {
      var i := GroupName(nv[..n], d);
      if d.name == nv[n].0 {
        LeqAntisymmetric(nv[n - 1].0, nv[n].0);
      }
    }
  }

  lemma DistinctAdded(g: seq<Entry>, e: Entry)
    requires DistinctNames(g) && forall d <- g :: d.name != e.name
    ensures DistinctNames(g + [e])
  {
  }

  lemma {:induction false} GroupDistinct(nv: seq<Pair>)
    requires ByName(nv)
    ensures DistinctNames(Group(nv))
  {
    if nv != [] {
      var n := |nv| - 1;
      GroupDistinct(nv[..n]);
      GroupStep(nv, n);
      assert nv[..n + 1] == nv;
      var g := Group(nv[..n]);
      if !Joins(nv, n) {
        NewName(nv, n);
        DistinctAdded(g, Entry(nv[n].0, nv[n].1));
      }
    }
  }

  // ---------- the round trip ----------

  /** A name-sorted list comes back from its block whenever its counts and lengths fit, and it
      is a valid block exactly when the names are good and only closing values are empty. */
  lemma RoundTripExact(nv: seq<Pair>, w: nat)
    requires CStrings(nv) && ByName(nv)
    ensures FitsAll(Group(nv), w) <==> Parse(Block(Group(nv), w), w) == Some(Group(nv))
    ensures Pairs(Group(nv)) == nv && DistinctNames(Group(nv))
    ensures Clean(Group(nv)) <==> GoodNames(nv) && Joinable(nv)
  {
    ParseExact(Block(Group(nv), w), Group(nv), w);
    GroupPairs(nv);
    GroupDistinct(nv);
    GroupClean(nv);
  }

  /** A list packed, written to a chunked buffer and decoded from it. */
  method PackThenUnpack(nv: seq<Pair>, w: nat, capacity: nat) returns (status: Status, image: seq<byte>, rows: seq<Row>)
    requires CStrings(nv) && ByName(nv) && Packable(nv) && FitsAll(Group(nv), w) && capacity > 0
    ensures status == (if GoodNames(nv) && Joinable(nv) then Ok else InvalidHeaderBlock)
    ensures status == Ok ==> Sorted(image, rows) && multiset(Strings(image, rows)) == multiset(nv)
  {
    var block := PackedBlock(nv, w);
    var input := new Buffer(capacity);
    input.Write(block[..]);
    RoundTripExact(nv, w);
    assert input.Content() == Block(Group(nv), w);
    status, image, rows := UnpackNv(input, w);
  }
}
