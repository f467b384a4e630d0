/** spdylay_frame_nv_sort and the search for duplicate names in its result. Nothing here
    depends on how the sort treats rows with equal names. */
module NameSorting {
  import opened Base
  import opened HeaderWire
  import opened HeaderTable

  // ---------- strcmp ----------

  predicate Leq(a: seq<byte>, b: seq<byte>) {
    a == [] || (b != [] && (a[0] < b[0] || (a[0] == b[0] && Leq(a[1..], b[1..]))))
  }

  lemma {:induction false} LeqTotal(a: seq<byte>, b: seq<byte>)
    ensures Leq(a, b) || Leq(b, a)
  {
    if a != [] && b != [] {
      LeqTotal(a[1..], b[1..]);
    }
  }

  lemma {:induction false} LeqAntisymmetric(a: seq<byte>, b: seq<byte>)
    requires Leq(a, b) && Leq(b, a)
    ensures a == b
  {
    if a != [] && b != [] {
      LeqAntisymmetric(a[1..], b[1..]);
      assert a == [a[0]] + a[1..] && b == [b[0]] + b[1..];
    }
  }

  lemma {:induction false} LeqTransitive(a: seq<byte>, b: seq<byte>, c: seq<byte>)
    requires Leq(a, b) && Leq(b, c)
    ensures Leq(a, c)
  {
    if a != [] && a[0] == b[0] == c[0] {
      LeqTransitive(a[1..], b[1..], c[1..]);
    }
  }

  /** The first byte that differs decides, and a prefix comes first. */
  lemma {:induction false} LeqDecides(a: seq<byte>, b: seq<byte>, k: nat)
    requires k <= |a| && k <= |b| && a[..k] == b[..k]
    ensures k < |a| && k < |b| && a[k] != b[k] ==> (Leq(a, b) <==> a[k] < b[k])
    ensures k == |a| ==> Leq(a, b)
    ensures k == |b| ==> (Leq(a, b) <==> a == b)
  {
    if k > 0 {
      assert a[0] == a[..k][0] == b[..k][0] == b[0];
      assert a[1..][..k - 1] == a[..k][1..] == b[..k][1..] == b[1..][..k - 1];
      LeqDecides(a[1..], b[1..], k - 1);
      assert a == [a[0]] + a[1..] && b == [b[0]] + b[1..];
    }
  }

  // ---------- sorted tables ----------

  predicate NamesSorted(names: seq<seq<byte>>) {
    forall i, j :: 0 <= i < j < |names| ==> Leq(names[i], names[j])
  }

  function Names(image: seq<byte>, rows: seq<Row>): (r: seq<seq<byte>>)
    ensures |r| == |rows|
  {
    seq(|rows|, i requires 0 <= i < |rows| => Name(image, rows[i]))
  }

  ghost predicate Sorted(image: seq<byte>, rows: seq<Row>) {
    NamesSorted(Names(image, rows))
  }

  /** Putting a name between the smaller and the greater ones. */
  lemma SortedInsert(names: seq<seq<byte>>, p: nat, name: seq<byte>)
    requires p <= |names| && NamesSorted(names)
    requires forall i :: 0 <= i < p ==> Leq(names[i], name)
    requires p < |names| ==> Leq(name, names[p])
    ensures NamesSorted(names[..p] + [name] + names[p..])
  {
    forall j | p < j < |names| ensures Leq(name, names[j]) {
      LeqTransitive(name, names[p], names[j]);
    }
  }

  /** One row put in its place. */
  method InsertByName(image: seq<byte>, rows: seq<Row>, row: Row) returns (r: seq<Row>)
    requires Sorted(image, rows)
    ensures Sorted(image, r) && multiset(r) == multiset(rows) + multiset{row}
  {
    var p := 0;
    ghost var names, name := Names(image, rows), Name(image, row);
    while p < |rows| && Leq(Name(image, rows[p]), Name(image, row))
      invariant p <= |rows| && forall i :: 0 <= i < p ==> Leq(names[i], name)
    {
      p := p + 1;
    }
    if p < |rows| {
      LeqTotal(name, names[p]);
    }
    SortedInsert(names, p, name);
    r := rows[..p] + [row] + rows[p..];
    assert Names(image, r) == names[..p] + [name] + names[p..];
    assert rows == rows[..p] + rows[p..];
  }

  /** qsort over the rows: some name-sorted permutation. */
  method NameSort(image: seq<byte>, rows: seq<Row>) returns (r: seq<Row>)
    ensures Sorted(image, r) && multiset(r) == multiset(rows)
  {
    r := [];
    for i := 0 to |rows|
      invariant Sorted(image, r) && multiset(r) == multiset(rows[..i])
    {
      r := InsertByName(image, r, rows[i]);
      assert rows[..i + 1] == rows[..i] + [rows[i]];
    }
    assert rows[..|rows|] == rows;
  }

  /** The strings a table points at. */
  function Strings(image: seq<byte>, rows: seq<Row>): (r: seq<Pair>)
    ensures |r| == |rows|
  {
    seq(|rows|, i requires 0 <= i < |rows| => Deref(image, rows[i]))
  }

  lemma StringsOne(image: seq<byte>, front: seq<Row>, row: Row, back: seq<Row>)
    ensures multiset(Strings(image, front + [row] + back))
         == multiset(Strings(image, front + back)) + multiset{Deref(image, row)}
  {
    var a, b := Strings(image, front), Strings(image, back);
    StringsConcat(image, front, back);
    StringsConcat(image, front, [row]);
    StringsConcat(image, front + [row], back);
    assert multiset(a + [Deref(image, row)] + b) == multiset(a) + multiset{Deref(image, row)} + multiset(b);
  }

  lemma StringsConcat(image: seq<byte>, a: seq<Row>, b: seq<Row>)
    ensures Strings(image, a + b) == Strings(image, a) + Strings(image, b)
  {
  }

  lemma Cancel(row: Row, a: multiset<Row>, b: multiset<Row>)
    requires multiset{row} + a == multiset{row} + b
    ensures a == b
  {
    assert a == multiset{row} + a - multiset{row};
    assert b == multiset{row} + b - multiset{row};
  }

  lemma RestPermutes(row: Row, rest: seq<Row>, front: seq<Row>, back: seq<Row>)
    requires multiset([row] + rest) == multiset(front + [row] + back)
    ensures multiset(rest) == multiset(front + back)
  {
    assert multiset([row] + rest) == multiset{row} + multiset(rest);
    assert multiset(front + [row] + back) == multiset{row} + multiset(front + back);
    Cancel(row, multiset(rest), multiset(front + back));
  }

  lemma Cut(row: Row, rows: seq<Row>) returns (front: seq<Row>, back: seq<Row>)
    requires row in rows
    ensures rows == front + [row] + back
  {
    var k :| 0 <= k < |rows| && rows[k] == row;
    front, back := rows[..k], rows[k + 1..];
  }

  /** Reordering the rows reorders the strings. */
  lemma {:induction false} StringsPermute(image: seq<byte>, rows: seq<Row>, sorted: seq<Row>)
    requires multiset(rows) == multiset(sorted)
    ensures multiset(Strings(image, rows)) == multiset(Strings(image, sorted))
    decreases |rows|
  {
    if rows == [] {
      assert |multiset(sorted)| == 0;
      assert sorted == [];
    } else {
      var row, rest := rows[0], rows[1..];
      assert row in multiset(sorted);
      var front, back := Cut(row, sorted);
      assert rows == [row] + rest == [] + [row] + rest;
      RestPermutes(row, rest, front, back);
      StringsPermute(image, rest, front + back);
      StringsOne(image, front, row, back);
      StringsOne(image, [], row, rest);
      assert [] + rest == rest;
    }
  }

  // ---------- duplicates ----------

  ghost predicate NeighbourConflict(image: seq<byte>, rows: seq<Row>, n: nat)
    requires n <= |rows|
  {
    exists t :: 0 < t < n && Conflict(image, rows[t - 1], rows[t])
  }

  /** In a sorted table a conflict shows up between neighbours. */
  lemma {:induction false} ConflictIsNear(image: seq<byte>, rows: seq<Row>, i: nat, j: nat)
    requires Sorted(image, rows) && i < j < |rows| && Conflict(image, rows[i], rows[j])
    ensures NeighbourConflict(image, rows, |rows|)
    decreases j - i
  {
    var names := Names(image, rows);
    if i + 1 == j {
      assert Conflict(image, rows[j - 1], rows[j]);
    } else {
      assert Leq(names[i], names[i + 1]) && Leq(names[i + 1], names[j]);
      LeqAntisymmetric(names[i], names[i + 1]);
      if rows[i].name == rows[i + 1].name {
        ConflictIsNear(image, rows, i + 1, j);
      } else {
        assert Conflict(image, rows[i + 1 - 1], rows[i + 1]);
      }
    }
  }

  /** However the sort orders equal names, neighbours tell whether the table has a clash. */
  lemma NeighboursDecide(image: seq<byte>, rows: seq<Row>, sorted: seq<Row>)
    requires multiset(sorted) == multiset(rows) && Sorted(image, sorted)
    ensures NeighbourConflict(image, sorted, |sorted|) <==> Clash(image, rows)
  {
    assert forall a :: a in sorted <==> a in multiset(sorted);
    assert forall a :: a in rows <==> a in multiset(rows);
    if NeighbourConflict(image, sorted, |sorted|) {
      var t :| 0 < t < |sorted| && Conflict(image, sorted[t - 1], sorted[t]);
      assert sorted[t - 1] in rows && sorted[t] in rows;
    }
    if Clash(image, rows) {
      var a, b :| a in rows && b in rows && Conflict(image, a, b);
      var i :| 0 <= i < |sorted| && sorted[i] == a;
      var j :| 0 <= j < |sorted| && sorted[j] == b;
      if i < j {
        ConflictIsNear(image, sorted, i, j);
      } else {
        ConflictIsNear(image, sorted, j, i);
      }
    }
  }

  /** The closing loop of spdylay_frame_unpack_nv. */
  method FindConflict(image: seq<byte>, rows: seq<Row>) returns (found: bool)
    ensures found <==> NeighbourConflict(image, rows, |rows|)
  {
    found := false;
    var t := 1;
    while t < |rows| && !found
      invariant 1 <= t && (rows != [] ==> t <= |rows|)
      invariant rows == [] ==> !found
      invariant found ==> NeighbourConflict(image, rows, |rows|)
      invariant !found && rows != [] ==> !NeighbourConflict(image, rows, t)
      decreases |rows| - t, !found
    {
      if Conflict(image, rows[t - 1], rows[t]) {
        found := true;
      } else {
        t := t + 1;
      }
    }
  }
}
