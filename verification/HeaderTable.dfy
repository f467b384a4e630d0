/** What decoding a header block leaves in memory: the copied strings with their terminating
    NUL bytes, the table of name and value pointers into them, sorted by name, and what the
    decoder finds wrong with it. */
module HeaderTable {
  import opened Base
  import opened HeaderWire

  // ---------- what makes a block invalid ----------

  predicate NameByte(c: byte) {
    0x20 <= c <= 0x7e && !(0x41 <= c <= 0x5a)
  }

  predicate NameOk(name: seq<byte>) {
    name != [] && forall c <- name :: NameByte(c)
  }

  /** Names are printable, without capitals. */
  lemma NameBytes(c: byte)
    ensures !NameByte(c) <==> c as char < ' ' || c as char > '~' || 'A' <= c as char <= 'Z'
  {
  }

  /** And at least one of them. */
  lemma NamesExact(name: seq<byte>)
    ensures !NameOk(name) <==> |name| == 0 || exists c <- name :: c as char < ' ' || c as char > '~' || 'A' <= c as char <= 'Z'
  {
    forall c | c in name ensures !NameByte(c) <==> c as char < ' ' || c as char > '~' || 'A' <= c as char <= 'Z' {
      NameBytes(c);
    }
  }

  /** Only the last part of a joined value may be empty. */
  predicate PartsOk(parts: seq<seq<byte>>) {
    forall k :: 0 <= k < |parts| - 1 ==> parts[k] != []
  }

  predicate ValueOk(value: seq<byte>) {
    PartsOk(Split(value))
  }

  predicate Clean(es: seq<Entry>) {
    forall e <- es :: NameOk(e.name) && ValueOk(e.value)
  }

  predicate DistinctNames(es: seq<Entry>) {
    forall i, j :: 0 <= i < j < |es| ==> es[i].name != es[j].name
  }

  // ---------- memory ----------

  /** The copied strings of an entry, each with a NUL byte behind it. */
  function Copy(e: Entry): seq<byte> {
    e.name + [0] + e.value + [0]
  }

  function Image(es: seq<Entry>): seq<byte> {
    if es == [] then [] else Image(es[..|es| - 1]) + Copy(es[|es| - 1])
  }

  /** Two neighbouring pointers of the table, as offsets into the copied strings. */
  datatype Row = Row(name: nat, value: nat)

  /** Where the parts of a value start. */
  function Starts(v: seq<byte>): (r: seq<nat>)
    ensures |r| == |Split(v)|
  {
    if v == [] then [0]
    else
      var u := v[..|v| - 1];
      if v[|v| - 1] == 0 then Starts(u) + [|v|] else Starts(u)
  }

  function RowsOf(name: nat, value: nat, starts: seq<nat>): (r: seq<Row>)
    ensures |r| == |starts|
  {
    seq(|starts|, i requires 0 <= i < |starts| => Row(name, value + starts[i]))
  }

  /** The rows of an entry whose copy stands at `at`. */
  function EntryRows(at: nat, e: Entry): (r: seq<Row>)
    ensures |r| == |Split(e.value)|
  {
    RowsOf(at, at + |e.name| + 1, Starts(e.value))
  }

  function Rows(es: seq<Entry>): seq<Row> {
    if es == [] then []
    else
      var front := es[..|es| - 1];
      Rows(front) + EntryRows(|Image(front)|, es[|es| - 1])
  }

  /** The C string at an offset. */
  function CStr(s: seq<byte>, at: nat): seq<byte>
    decreases |s| - at
  {
    if at >= |s| || s[at] == 0 then [] else [s[at]] + CStr(s, at + 1)
  }

  function Deref(image: seq<byte>, row: Row): Pair {
    (CStr(image, row.name), CStr(image, row.value))
  }

  function Name(image: seq<byte>, row: Row): seq<byte> {
    CStr(image, row.name)
  }

  // ---------- the table stands for the pairs ----------

  /** A NUL-free string stands at `at`, with a NUL byte behind it. */
  predicate HoldsAt(s: seq<byte>, at: nat, t: seq<byte>) {
    at + |t| < |s| && s[at..at + |t|] == t && s[at + |t|] == 0 && 0 !in t
  }

  lemma {:induction false} CStrIs(s: seq<byte>, at: nat, t: seq<byte>)
    requires HoldsAt(s, at, t)
    ensures CStr(s, at) == t
    decreases |t|
  {
    if t != [] {
      assert s[at] == s[at..at + |t|][0] == t[0];
      assert s[at + 1..at + |t|] == s[at..at + |t|][1..] == t[1..];
      CStrIs(s, at + 1, t[1..]);
    }
  }

  lemma HoldsLonger(u: seq<byte>, c: byte, at: nat, t: seq<byte>)
    requires HoldsAt(u + [0], at, t)
    ensures c == 0 || at + |t| < |u| ==> HoldsAt(u + [c] + [0], at, t)
    ensures c != 0 && at + |t| == |u| ==> HoldsAt(u + [c] + [0], at, t + [c])
  {
    var s, n := u + [c] + [0], at + |t|;
    assert s[at..n] == (u + [0])[at..n];
    if c != 0 && n == |u| {
      assert s[at..n + 1] == s[at..n] + [c];
    }
  }

  /** Each part of a value stands, terminated, where `Starts` says; the last one ends it. */
  lemma {:induction false} PartHolds(v: seq<byte>, k: nat)
    requires k < |Split(v)|
    ensures HoldsAt(v + [0], Starts(v)[k], Split(v)[k])
    ensures Starts(v)[k] + |Split(v)[k]| == |v| <==> k == |Split(v)| - 1
  {
    if v != [] {
      var u, c := v[..|v| - 1], v[|v| - 1];
      assert v == u + [c];
      if k < |Split(u)| {
        PartHolds(u, k);
        HoldsLonger(u, c, Starts(u)[k], Split(u)[k]);
      }
    }
  }

  /** Shifting and embedding keep a terminated string. */
  lemma HoldsInside(s: seq<byte>, front: seq<byte>, back: seq<byte>, at: nat, t: seq<byte>)
    requires HoldsAt(s, at, t)
    ensures HoldsAt(front + s + back, |front| + at, t)
  {
    var all := front + s + back;
    assert all[|front| + at..|front| + at + |t|] == s[at..at + |t|];
  }

  lemma Last(front: seq<Entry>, e: Entry)
    ensures (front + [e])[..|front|] == front
  {
  }

  lemma ImageSnoc(front: seq<Entry>, e: Entry)
    ensures Image(front + [e]) == Image(front) + Copy(e)
  {
    assert (front + [e])[..|front|] == front;
  }

  lemma RowsSnoc(front: seq<Entry>, e: Entry)
    ensures Rows(front + [e]) == Rows(front) + EntryRows(|Image(front)|, e)
  {
    Last(front, e);
  }

  /** What the rows of one entry point at. */
  lemma CopyHolds(e: Entry, k: nat)
    requires k < |Split(e.value)| && 0 !in e.name
    ensures HoldsAt(Copy(e), 0, e.name)
    ensures HoldsAt(Copy(e), |e.name| + 1 + Starts(e.value)[k], Split(e.value)[k])
  {
    assert Copy(e)[..|e.name|] == e.name;
    PartHolds(e.value, k);
    HoldsInside(e.value + [0], e.name + [0], [], Starts(e.value)[k], Split(e.value)[k]);
    assert Copy(e) == (e.name + [0]) + (e.value + [0]) + [];
  }

  ghost predicate RowHolds(image: seq<byte>, row: Row, pair: Pair) {
    HoldsAt(image, row.name, pair.0) && HoldsAt(image, row.value, pair.1)
  }

  lemma HoldsBehind(image: seq<byte>, front: seq<byte>, name: nat, value: nat, pair: Pair)
    requires RowHolds(image, Row(name, value), pair)
    ensures RowHolds(front + image, Row(|front| + name, |front| + value), pair)
  {
    HoldsInside(image, front, [], name, pair.0);
    HoldsInside(image, front, [], value, pair.1);
    assert front + image + [] == front + image;
  }

  lemma HoldsBefore(image: seq<byte>, back: seq<byte>, row: Row, pair: Pair)
    requires RowHolds(image, row, pair)
    ensures RowHolds(image + back, row, pair)
  {
    HoldsInside(image, [], back, row.name, pair.0);
    HoldsInside(image, [], back, row.value, pair.1);
    assert [] + image + back == image + back;
  }

  lemma LastRowsHold(front: seq<Entry>, e: Entry, k: nat)
    requires k < |Split(e.value)| && 0 !in e.name
    ensures RowHolds(
      Image(front) + Copy(e),
      EntryRows(|Image(front)|, e)[k],
      WithName(e.name, Split(e.value))[k])
  {
    CopyHolds(e, k);
    HoldsBehind(Copy(e), Image(front), 0, |e.name| + 1 + Starts(e.value)[k], (e.name, Split(e.value)[k]));
  }

  /** Row `k` points at pair `k`. */
  lemma {:induction false} RowsHold(es: seq<Entry>, k: nat)
    requires k < |Pairs(es)| && forall e <- es :: 0 !in e.name
    ensures |Rows(es)| == |Pairs(es)| && RowHolds(Image(es), Rows(es)[k], Pairs(es)[k])
  {
    RowsCount(es);
    var front, e := es[..|es| - 1], es[|es| - 1];
    RowsCount(front);
    var n := |Pairs(front)|;
    if k < n {
      RowsHold(front, k);
      HoldsBefore(Image(front), Copy(e), Rows(front)[k], Pairs(front)[k]);
    } else {
      LastRowsHold(front, e, k - n);
    }
  }

  lemma {:induction false} RowsCount(es: seq<Entry>)
    ensures |Rows(es)| == |Pairs(es)|
  {
    if es != [] {
      RowsCount(es[..|es| - 1]);
    }
  }

  /** Read as C strings, the rows are the pairs. */
  lemma DerefRows(es: seq<Entry>, k: nat)
    requires k < |Pairs(es)| && forall e <- es :: 0 !in e.name
    ensures |Rows(es)| == |Pairs(es)| && Deref(Image(es), Rows(es)[k]) == Pairs(es)[k]
  {
    RowsHold(es, k);
    CStrIs(Image(es), Rows(es)[k].name, Pairs(es)[k].0);
    CStrIs(Image(es), Rows(es)[k].value, Pairs(es)[k].1);
  }

  // ---------- one name, two entries ----------

  lemma {:induction false} ImageGrows(es: seq<Entry>, i: nat, j: nat)
    requires i <= j <= |es|
    ensures |Image(es[..i])| + j - i <= |Image(es[..j])|
    ensures |Pairs(es[..i])| <= |Pairs(es[..j])|
  {
    if i < j {
      ImageGrows(es, i, j - 1);
      assert es[..j][..j - 1] == es[..j - 1];
    }
  }

  /** Row `k` belongs to entry `i`. */
  ghost predicate Owns(es: seq<Entry>, i: nat, k: nat) {
    && i < |es| && k < |Rows(es)| == |Pairs(es)|
    && Rows(es)[k].name == |Image(es[..i])| && Pairs(es)[k].0 == es[i].name
  }

  lemma {:induction false} OwnerOf(es: seq<Entry>, k: nat) returns (i: nat)
    requires k < |Rows(es)|
    ensures Owns(es, i, k)
  {
    RowsCount(es);
    var front := es[..|es| - 1];
    RowsCount(front);
    if k < |Rows(front)| {
      i := OwnerOf(front, k);
      assert front[..i] == es[..i];
    } else {
      i := |es| - 1;
    }
  }

  lemma {:induction false} RowOf(es: seq<Entry>, i: nat) returns (k: nat)
    requires i < |es|
    ensures Owns(es, i, k)
  {
    RowsCount(es);
    var front := es[..|es| - 1];
    RowsCount(front);
    if i < |front| {
      k := RowOf(front, i);
      assert front[..i] == es[..i];
    } else {
      k := |Rows(front)|;
    }
  }

  /** Equal names, different pointers. */
  predicate Conflict(image: seq<byte>, a: Row, b: Row) {
    Name(image, a) == Name(image, b) && a.name != b.name
  }

  ghost predicate Clash(image: seq<byte>, rows: seq<Row>) {
    exists a, b :: a in rows && b in rows && Conflict(image, a, b)
  }

  lemma ClashIsDuplicate(es: seq<Entry>)
    requires forall e <- es :: 0 !in e.name
    ensures Clash(Image(es), Rows(es)) <==> !DistinctNames(es)
  {
    var image, rows := Image(es), Rows(es);
    RowsCount(es);
    if Clash(image, rows) {
      var a, b :| a in rows && b in rows && Conflict(image, a, b);
      var k :| 0 <= k < |rows| && rows[k] == a;
      var l :| 0 <= l < |rows| && rows[l] == b;
      var i := OwnerOf(es, k);
      var j := OwnerOf(es, l);
      DerefRows(es, k);
      DerefRows(es, l);
      assert es[i].name == es[j].name && i != j;
    }
    if !DistinctNames(es) {
      var i, j :| 0 <= i < j < |es| && es[i].name == es[j].name;
      var k := RowOf(es, i);
      var l := RowOf(es, j);
      DerefRows(es, k);
      DerefRows(es, l);
      ImageGrows(es, i, j);
      assert rows[k] in rows && rows[l] in rows && Conflict(image, rows[k], rows[l]);
    }
  }
}
