/** spdylay_frame_count_unpack_nv_space and spdylay_frame_unpack_nv: the two-pass decoder. */
module HeaderUnpack {
  import opened Base
  import opened ChunkBuffer
  import opened HeaderWire
  import opened HeaderTable
  import opened NameSorting

  // ---------- first pass ----------

  /** A length word and the check that what it announces is there; `left` is `inlen - off`. */
  method TakeLength(reader: Reader, left: nat, w: nat) returns (ok: bool, len: nat)
    requires reader.Valid() && left == |reader.Remaining()|
    modifies reader
    ensures reader.Valid() && ok == TakeStr(old(reader.Remaining()), w).Some?
    ensures ok ==>
      && len == Number(old(reader.Remaining())[..w]) <= left - w
      && reader.Remaining() == old(reader.Remaining())[w..]
  {
    if left < w {
      return false, 0;
    }
    var word := reader.Data(w);
    len := Number(word);
    ok := left - w >= len;
  }

  lemma PartCount(u: seq<byte>, c: byte)
    ensures |Split(u + [c])| == |Split(u)| + if c == 0 then 1 else 0
  {
    assert (u + [c])[..|u|] == u;
  }

  lemma NextByte(all: seq<byte>, j: nat)
    requires j < |all|
    ensures all[..j + 1] == all[..j] + [all[j]] && all[j..][..1] == [all[j]] && all[j..][1..] == all[j + 1..]
  {
  }

  /** Reads `len` bytes one by one and counts the NUL bytes. */
  method CountParts(reader: Reader, len: nat) returns (nuls: nat)
    requires reader.Valid() && len <= |reader.Remaining()|
    modifies reader
    ensures reader.Valid() && reader.Remaining() == old(reader.Remaining())[len..]
    ensures nuls + 1 == |Split(old(reader.Remaining())[..len])|
  {
    nuls := 0;
    ghost var all := reader.Remaining();
    for j := 0 to len
      invariant reader.Valid() && reader.Remaining() == all[j..]
      invariant nuls + 1 == |Split(all[..j])|
    {
      var b := reader.Data(1);
      NextByte(all, j);
      PartCount(all[..j], b[0]);
      if b[0] == 0 {
        nuls := nuls + 1;
      }
    }
  }

  lemma Slices(all: seq<byte>, w: nat, n: nat)
    requires w + n <= |all|
    ensures all[w..][..n] == all[w..w + n] && all[w..][n..] == all[w + n..]
  {
  }

  lemma TakeStrSlices(all: seq<byte>, w: nat)
    requires TakeStr(all, w).Some?
    ensures var n := Number(all[..w]); w + n <= |all| && TakeStr(all, w) == Some((all[w..][..n], all[w..][n..]))
  {
    Slices(all, w, Number(all[..w]));
  }

  /** The inner loop's first turn: a name, skipped. */
  method CountName(reader: Reader, left: nat, w: nat) returns (ok: bool, len: nat)
    requires reader.Valid() && left == |reader.Remaining()|
    modifies reader
    ensures reader.Valid() && ok == TakeStr(old(reader.Remaining()), w).Some?
    ensures ok ==> var (name, rest) := TakeStr(old(reader.Remaining()), w).value;
      reader.Remaining() == rest && len == |name| && |rest| == left - w - len
  {
    ghost var all := reader.Remaining();
    ok, len := TakeLength(reader, left, w);
    if ok {
      reader.Advance(len);
      TakeStrSlices(all, w);
    }
  }

  /** Its second turn: a value, whose NUL bytes are counted. */
  method CountValue(reader: Reader, left: nat, w: nat) returns (ok: bool, len: nat, nuls: nat)
    requires reader.Valid() && left == |reader.Remaining()|
    modifies reader
    ensures reader.Valid() && ok == TakeStr(old(reader.Remaining()), w).Some?
    ensures ok ==> var (value, rest) := TakeStr(old(reader.Remaining()), w).value;
      reader.Remaining() == rest && len == |value| && nuls + 1 == |Split(value)| && |rest| == left - w - len
  {
    nuls := 0;
    ok, len := TakeLength(reader, left, w);
    if ok {
      ghost var all := old(reader.Remaining());
      nuls := CountParts(reader, len);
      TakeStrSlices(all, w);
    }
  }

  /** One round of the counting loop: the slots and the bytes that one entry needs. */
  method CountEntry(reader: Reader, left: nat, w: nat) returns (ok: bool, slots: nat, size: nat)
    requires reader.Valid() && left == |reader.Remaining()|
    modifies reader
    ensures reader.Valid() && ok == TakeEntry(old(reader.Remaining()), w).Some?
    ensures ok ==> var (e, rest) := TakeEntry(old(reader.Remaining()), w).value;
      reader.Remaining() == rest && slots == |Split(e.value)| && size == |Copy(e)| && |rest| == left - 2 * w - (size - 2)
  {
    slots, size := 0, 0;
    var n, m, nuls: nat;
    ok, n := CountName(reader, left, w);
    if ok {
      ok, m, nuls := CountValue(reader, left - w - n, w);
      slots, size := nuls + 1, n + 1 + m + 1;
    }
  }

  lemma BeforeBefore(a: seq<Entry>, b: seq<Entry>, rest: Option<seq<Entry>>)
    ensures Before(a, Before(b, rest)) == Before(a + b, rest)
  {
    if rest.Some? {
      assert a + (b + rest.value) == a + b + rest.value;
    }
  }

  lemma BeforeNothing(rest: Option<seq<Entry>>)
    ensures Before([], rest) == rest
  {
    if rest.Some? {
      assert [] + rest.value == rest.value;
    }
  }

  /** After `done`, what is left to parse decides. */
  ghost predicate Parsing(content: seq<byte>, n: nat, w: nat, done: seq<Entry>, rest: seq<byte>) {
    |done| <= n && ParseBody(content, n, w) == Before(done, ParseBody(rest, n - |done|, w))
  }

  lemma ParsingStep(content: seq<byte>, n: nat, w: nat, done: seq<Entry>, rest: seq<byte>)
    requires Parsing(content, n, w, done, rest) && |done| < n
    ensures TakeEntry(rest, w).None? ==> ParseBody(content, n, w).None?
    ensures TakeEntry(rest, w).Some? ==>
      Parsing(content, n, w, done + [TakeEntry(rest, w).value.0], TakeEntry(rest, w).value.1)
  {
    var taken := TakeEntry(rest, w);
    if taken.Some? {
      var (e, rest') := taken.value;
      BeforeBefore(done, [e], ParseBody(rest', n - |done| - 1, w));
    }
  }

  ghost predicate Sized(done: seq<Entry>, slots: nat, size: nat) {
    slots == |Pairs(done)| && size == |Image(done)|
  }

  lemma SizedStep(done: seq<Entry>, e: Entry, slots: nat, size: nat)
    requires Sized(done, slots, size)
    ensures Sized(done + [e], slots + |Split(e.value)|, size + |Copy(e)|)
  {
    PairsSnoc(done, e);
    ImageSnoc(done, e);
  }

  /** One more entry counted. */
  method CountNext(reader: Reader, left: nat, w: nat, ghost content: seq<byte>, ghost n: nat, ghost done: seq<Entry>, slots: nat, size: nat)
    returns (ok: bool, slots': nat, size': nat, left': nat, ghost done': seq<Entry>)
    requires reader.Valid() && left == |reader.Remaining()| && |done| < n
    requires Parsing(content, n, w, done, reader.Remaining()) && Sized(done, slots, size)
    modifies reader
    ensures !ok ==> ParseBody(content, n, w).None?
    ensures ok ==> reader.Valid() && left' == |reader.Remaining()| && |done'| == |done| + 1
    ensures ok ==> Parsing(content, n, w, done', reader.Remaining()) && Sized(done', slots', size')
  {
    ghost var rest := reader.Remaining();
    ParsingStep(content, n, w, done, rest);
    var k, m;
    ok, k, m := CountEntry(reader, left, w);
    slots', size', left', done' := slots + k, size + m, 0, done;
    if ok {
      left' := left - 2 * w - (m - 2);
      ghost var e := TakeEntry(rest, w).value.0;
      SizedStep(done, e, slots, size);
      done' := done + [e];
    }
  }

  /** The counting loop over `n` entries. */
  method CountEntries(reader: Reader, inlen: nat, n: nat, w: nat) returns (ok: bool, slots: nat, size: nat)
    requires reader.Valid() && inlen == |reader.Remaining()|
    modifies reader
    ensures ok == ParseBody(old(reader.Remaining()), n, w).Some?
    ensures ok ==> Sized(ParseBody(old(reader.Remaining()), n, w).value, slots, size)
  {
    slots, size := 0, 0;
    var left := inlen;
    ghost var content, done: seq<Entry> := reader.Remaining(), [];
    BeforeNothing(ParseBody(content, n, w));
    for i := 0 to n
      invariant reader.Valid() && left == |reader.Remaining()| && |done| == i
      invariant Parsing(content, n, w, done, reader.Remaining()) && Sized(done, slots, size)
    {
      ok, slots, size, left, done := CountNext(reader, left, w, content, n, done, slots, size);
      if !ok {
        return;
      }
    }
    ok := left == 0;
    assert ok ==> done + [] == done;
  }

  const POINTER_SIZE: nat := 8

  /** spdylay_frame_count_unpack_nv_space. */
  method CountUnpackNvSpace(input: Buffer, w: nat) returns (ok: bool, nvlen: nat, buflen: nat)
    requires input.Valid()
    ensures ok <==> Parse(input.Content(), w).Some?
    ensures ok ==> var es := Parse(input.Content(), w).value;
      nvlen == |Pairs(es)| && buflen == |Image(es)| + (nvlen * 2 + 1) * POINTER_SIZE
  {
    if input.len < w {
      return false, 0, 0;
    }
    var reader := new Reader(input);
    var word := reader.Data(w);
    var size;
    ok, nvlen, size := CountEntries(reader, input.len - w, Number(word), w);
    buflen := size + (nvlen * 2 + 1) * POINTER_SIZE;
  }

  // ---------- second pass ----------

  /** A length word and the string behind it. */
  method ReadStr(reader: Reader, w: nat) returns (s: seq<byte>)
    requires reader.Valid() && TakeStr(reader.Remaining(), w).Some?
    modifies reader
    ensures reader.Valid() && TakeStr(old(reader.Remaining()), w) == Some((s, reader.Remaining()))
  {
    ghost var all := reader.Remaining();
    var word := reader.Data(w);
    s := reader.Data(Number(word));
    TakeStrSlices(all, w);
  }

  /** The loop over the copied name, and the check for an empty one. */
  method CheckName(data: array<byte>, from: nat, stop: nat) returns (bad: bool)
    requires from <= stop <= data.Length
    ensures bad <==> !NameOk(data[from..stop])
  {
    bad := from == stop;
    for j := from to stop
      invariant bad <==> from == stop || exists k :: from <= k < j && !NameByte(data[k])
    {
      bad := bad || !NameByte(data[j]);
    }
    ghost var name := data[from..stop];
    assert forall k :: from <= k < stop ==> data[k] == name[k - from];
    assert forall k :: 0 <= k < |name| ==> name[k] == data[from + k];
  }

  lemma SplitSnoc(u: seq<byte>, c: byte)
    ensures Starts(u + [c]) == if c == 0 then Starts(u) + [|u| + 1] else Starts(u)
    ensures var p := Split(u); Split(u + [c]) == if c == 0 then p + [[]] else p[|p| - 1 := p[|p| - 1] + [c]]
  {
    assert (u + [c])[..|u|] == u;
  }

  lemma PartsOkStep(p: seq<seq<byte>>, x: seq<byte>)
    requires p != []
    ensures PartsOk(p + [[]]) <==> PartsOk(p) && p[|p| - 1] != []
    ensures PartsOk(p[|p| - 1 := x]) <==> PartsOk(p)
  {
    var q, r := p + [[]], p[|p| - 1 := x];
    assert forall k :: 0 <= k < |p| ==> q[k] == p[k];
    assert forall k :: 0 <= k < |p| - 1 ==> r[k] == p[k];
  }

  lemma LastStart(u: seq<byte>)
    ensures Starts(u)[|Starts(u)| - 1] == |u| <==> Split(u)[|Split(u)| - 1] == []
  {
    PartHolds(u, |Split(u)| - 1);
  }

  /** One more byte of a value, for what is wrong with it. */
  lemma ValueStep(u: seq<byte>, c: byte)
    ensures ValueOk(u + [c]) <==> ValueOk(u) && (c == 0 ==> Starts(u)[|Starts(u)| - 1] != |u|)
  {
    var p := Split(u);
    SplitSnoc(u, c);
    LastStart(u);
    PartsOkStep(p, p[|p| - 1] + [c]);
  }

  /** The rows written while the part that is being read is still open. */
  ghost predicate Scanned(rows: seq<Row>, before: seq<Row>, name: nat, value: nat, v: seq<byte>, filled: nat, val: nat, bad: bool) {
    var starts := Starts(v);
    && filled == |before| + |starts| - 1 <= |rows|
    && rows[..filled] == before + RowsOf(name, value, starts)[..|starts| - 1]
    && val == value + starts[|starts| - 1]
    && bad == !ValueOk(v)
  }

  lemma RowsOfSnoc(name: nat, value: nat, starts: seq<nat>, s: nat)
    ensures RowsOf(name, value, starts + [s]) == RowsOf(name, value, starts) + [Row(name, value + s)]
  {
  }

  lemma ScanOn(rows: seq<Row>, before: seq<Row>, name: nat, value: nat, u: seq<byte>, c: byte, filled: nat, val: nat, bad: bool)
    requires Scanned(rows, before, name, value, u, filled, val, bad) && c != 0
    ensures Scanned(rows, before, name, value, u + [c], filled, val, bad)
  {
    SplitSnoc(u, c);
    ValueStep(u, c);
  }

  /** The open part closes: its row is written. */
  lemma ScanClose(rows: seq<Row>, rows': seq<Row>, before: seq<Row>, name: nat, value: nat, u: seq<byte>, filled: nat, val: nat, bad: bool)
    requires Scanned(rows, before, name, value, u, filled, val, bad)
    requires filled < |rows| == |rows'| && rows' == rows[filled := Row(name, val)]
    ensures rows'[..filled + 1] == before + RowsOf(name, value, Starts(u))
  {
    var starts := Starts(u);
    var k := |starts| - 1;
    assert rows'[..filled + 1] == rows[..filled] + [Row(name, val)];
    assert RowsOf(name, value, starts)[..k] + [Row(name, val)] == RowsOf(name, value, starts);
  }

  lemma ScanNul(rows: seq<Row>, rows': seq<Row>, before: seq<Row>, name: nat, value: nat, u: seq<byte>, filled: nat, val: nat, bad: bool)
    requires Scanned(rows, before, name, value, u, filled, val, bad)
    requires filled < |rows| == |rows'| && rows' == rows[filled := Row(name, val)]
    ensures Scanned(rows', before, name, value, u + [0], filled + 1, value + |u| + 1, bad || val == value + |u|)
  {
    SplitSnoc(u, 0);
    ValueStep(u, 0);
    ScanClose(rows, rows', before, name, value, u, filled, val, bad);
    RowsOfSnoc(name, value, Starts(u), |u| + 1);
  }

  /** The loop over the copied value and the row behind it. */
  method ScanValue(data: array<byte>, nv: array<Row>, filled: nat, name: nat, value: nat, stop: nat) returns (bad: bool, next: nat)
    requires value <= stop <= data.Length && filled + |Split(data[value..stop])| <= nv.Length
    modifies nv
    ensures bad == !ValueOk(data[value..stop])
    ensures next == filled + |Split(data[value..stop])|
    ensures nv[..next] == old(nv[..filled]) + RowsOf(name, value, Starts(data[value..stop]))
  {
    ghost var v, before := data[value..stop], nv[..filled];
    var val := value;
    bad, next := false, filled;
    assert v[..0] == [];
    for j := value to stop
      invariant Scanned(nv[..], before, name, value, v[..j - value], next, val, bad)
    {
      PartsGrow(v, j - value);
      assert v[..j + 1 - value] == v[..j - value] + [data[j]];
      bad, next, val := ScanByte(nv, data[j], j, before, name, value, v[..j - value], next, val, bad);
    }
    assert v[..stop - value] == v;
    ghost var rows := nv[..];
    nv[next] := Row(name, val);
    ScanClose(rows, nv[..], before, name, value, v, next, val, bad);
    next := next + 1;
    assert nv[..][..next] == nv[..next];
  }

  /** One round of that loop: the byte `c` at position `j`. */
  method ScanByte(nv: array<Row>, c: byte, j: nat, ghost before: seq<Row>, name: nat, ghost value: nat, ghost u: seq<byte>,
                  next: nat, val: nat, bad: bool)
    returns (bad': bool, next': nat, val': nat)
    requires Scanned(nv[..], before, name, value, u, next, val, bad) && j == value + |u| && next < nv.Length
    modifies nv
    ensures Scanned(nv[..], before, name, value, u + [c], next', val', bad')
  {
    ghost var rows := nv[..];
    if c == 0 {
      nv[next] := Row(name, val);
      ScanNul(rows, nv[..], before, name, value, u, next, val, bad);
      return bad || val == j, next + 1, j + 1;
    }
    ScanOn(rows, before, name, value, u, c, next, val, bad);
    return bad, next, val;
  }

  lemma {:induction false} PartsGrow(v: seq<byte>, n: nat)
    requires n <= |v|
    ensures |Split(v[..n])| <= |Split(v)|
    decreases |v| - n
  {
    if n < |v| {
      PartsGrow(v, n + 1);
      assert v[..n + 1][..n] == v[..n];
    } else {
      assert v[..n] == v;
    }
  }

  /** A name copied, checked and terminated. */
  method StoreName(data: array<byte>, pos: nat, name: seq<byte>) returns (bad: bool, next: nat)
    requires pos + |name| < data.Length
    modifies data
    ensures bad == !NameOk(name) && next == pos + |name| + 1
    ensures data[..next] == old(data[..pos]) + name + [0]
  {
    Put(data, pos, name);
    assert data[pos..pos + |name|] == name;
    bad := CheckName(data, pos, pos + |name|);
    data[pos + |name|] := 0;
    next := pos + |name| + 1;
  }

  /** A value copied, its rows written, and terminated. */
  method StoreValue(data: array<byte>, nv: array<Row>, filled: nat, name: nat, pos: nat, value: seq<byte>)
    returns (bad: bool, next: nat, end: nat)
    requires pos + |value| < data.Length && filled + |Split(value)| <= nv.Length
    modifies data, nv
    ensures bad == !ValueOk(value) && next == filled + |Split(value)| && end == pos + |value| + 1
    ensures data[..end] == old(data[..pos]) + value + [0]
    ensures nv[..next] == old(nv[..filled]) + RowsOf(name, pos, Starts(value))
  {
    Put(data, pos, value);
    assert data[pos..pos + |value|] == value;
    bad, next := ScanValue(data, nv, filled, name, pos, pos + |value|);
    data[pos + |value|] := 0;
    end := pos + |value| + 1;
  }

  /** The entries `done` are copied, their rows are written, and `bad` says what was wrong. */
  ghost predicate Laid(data: seq<byte>, rows: seq<Row>, done: seq<Entry>, pos: nat, filled: nat, bad: bool) {
    && pos <= |data| && data[..pos] == Image(done)
    && filled <= |rows| && rows[..filled] == Rows(done)
    && bad == !Clean(done)
  }

  lemma CleanSnoc(done: seq<Entry>, e: Entry)
    ensures Clean(done + [e]) <==> Clean(done) && NameOk(e.name) && ValueOk(e.value)
  {
    var es := done + [e];
    assert es[|done|] == e && forall i :: 0 <= i < |done| ==> es[i] == done[i];
    assert forall d :: d in es <==> d in done || d == e;
  }

  lemma LaidStep(data: seq<byte>, rows: seq<Row>, done: seq<Entry>, e: Entry, pos: nat, filled: nat, bad: bool,
                 data': seq<byte>, rows': seq<Row>, pos': nat, filled': nat)
    requires Laid(data, rows, done, pos, filled, bad)
    requires pos' <= |data'| && data'[..pos'] == data[..pos] + Copy(e)
    requires filled' <= |rows'| && rows'[..filled'] == rows[..filled] + EntryRows(pos, e)
    ensures Laid(data', rows', done + [e], pos', filled', bad || !NameOk(e.name) || !ValueOk(e.value))
  {
    ImageSnoc(done, e);
    RowsSnoc(done, e);
    CleanSnoc(done, e);
  }

  /** Both strings of one entry. */
  method StoreEntry(data: array<byte>, nv: array<Row>, e: Entry, ghost done: seq<Entry>, pos: nat, filled: nat, bad: bool)
    returns (pos': nat, filled': nat, bad': bool)
    requires Laid(data[..], nv[..], done, pos, filled, bad)
    requires pos + |Copy(e)| <= data.Length && filled + |Split(e.value)| <= nv.Length
    modifies data, nv
    ensures Laid(data[..], nv[..], done + [e], pos', filled', bad')
  {
    ghost var was, rows := data[..], nv[..];
    var badName, at := StoreName(data, pos, e.name);
    var badValue;
    badValue, filled', pos' := StoreValue(data, nv, filled, pos, at, e.value);
    bad' := bad || badName || badValue;
    assert data[..][..pos'] == was[..pos] + Copy(e);
    assert nv[..][..filled'] == nv[..filled'];
    LaidStep(was, rows, done, e, pos, filled, bad, data[..], nv[..], pos', filled');
  }

  /** What is left to read before each entry, and after the last. */
  ghost predicate Ahead(rests: seq<seq<byte>>, es: seq<Entry>, w: nat) {
    && |rests| == |es| + 1
    && forall i :: 0 <= i < |es| ==> TakeEntry(rests[i], w) == Some((es[i], rests[i + 1]))
  }

  lemma {:induction false} ReadsAhead(b: seq<byte>, n: nat, w: nat) returns (rests: seq<seq<byte>>)
    requires ParseBody(b, n, w).Some?
    ensures Ahead(rests, ParseBody(b, n, w).value, w) && rests[0] == b
    decreases n
  {
    if n == 0 {
      rests := [b];
    } else {
      var (e, rest) := TakeEntry(b, w).value;
      var more := ReadsAhead(rest, n - 1, w);
      AheadCons(b, e, more, ParseBody(rest, n - 1, w).value, w);
      rests := [b] + more;
    }
  }

  lemma AheadCons(b: seq<byte>, e: Entry, rests: seq<seq<byte>>, es: seq<Entry>, w: nat)
    requires Ahead(rests, es, w) && TakeEntry(b, w) == Some((e, rests[0]))
    ensures Ahead([b] + rests, [e] + es, w)
  {
  }

  /** There is room for entry `i`. */
  lemma RoomFor(es: seq<Entry>, i: nat)
    requires i < |es|
    ensures |Image(es[..i])| + |Copy(es[i])| <= |Image(es)|
    ensures |Rows(es[..i])| + |Split(es[i].value)| <= |Pairs(es)|
    ensures es[..i + 1] == es[..i] + [es[i]]
  {
    assert es[..i + 1] == es[..i] + [es[i]] && es[..|es|] == es;
    ImageGrows(es, i + 1, |es|);
    ImageSnoc(es[..i], es[i]);
    RowsSnoc(es[..i], es[i]);
    RowsCount(es[..i + 1]);
  }

  /** A reader is not disturbed by what happens outside its buffer. */
  twostate lemma Undisturbed(reader: Reader)
    requires old(reader.Valid())
    requires unchanged(reader, reader.buffer, reader.buffer.root) && unchanged(reader.buffer.chunks) && unchanged(reader.buffer.home.Keys)
    ensures reader.Valid() && reader.Remaining() == old(reader.Remaining())
  {
  }

  /** Both strings of the next entry. */
  method ReadEntry(reader: Reader, w: nat) returns (e: Entry)
    requires reader.Valid() && TakeEntry(reader.Remaining(), w).Some?
    modifies reader
    ensures reader.Valid() && TakeEntry(old(reader.Remaining()), w) == Some((e, reader.Remaining()))
  {
    var name := ReadStr(reader, w);
    var value := ReadStr(reader, w);
    e := Entry(name, value);
  }

  /** One round of the filling loop. */
  method UnpackEntry(reader: Reader, w: nat, data: array<byte>, nv: array<Row>, ghost done: seq<Entry>, ghost e: Entry, ghost rest: seq<byte>,
                     pos: nat, filled: nat, bad: bool)
    returns (pos': nat, filled': nat, bad': bool)
    requires reader.Valid() && data !in reader.buffer.home
    requires TakeEntry(reader.Remaining(), w) == Some((e, rest))
    requires Laid(data[..], nv[..], done, pos, filled, bad)
    requires pos + |Copy(e)| <= data.Length && filled + |Split(e.value)| <= nv.Length
    modifies reader, data, nv
    ensures reader.Valid() && reader.Remaining() == rest
    ensures Laid(data[..], nv[..], done + [e], pos', filled', bad')
  {
    ghost var was, rows := data[..], nv[..];
    var next := ReadEntry(reader, w);
    assert data[..] == was && nv[..] == rows;
    label L:
    pos', filled', bad' := StoreEntry(data, nv, next, done, pos, filled, bad);
    Undisturbed@L(reader);
  }

  lemma LaidAll(data: seq<byte>, rows: seq<Row>, es: seq<Entry>, pos: nat, filled: nat, bad: bool)
    requires Laid(data, rows, es, pos, filled, bad) && |data| == |Image(es)| && |rows| == |Rows(es)|
    ensures data == Image(es) && rows == Rows(es)
  {
    assert data[..pos] == data && rows[..filled] == rows;
  }

  /** One round of the filling loop, for entry `i`. */
  method FillNext(reader: Reader, w: nat, data: array<byte>, nv: array<Row>, ghost es: seq<Entry>, ghost rests: seq<seq<byte>>, ghost i: nat,
                  pos: nat, filled: nat, bad: bool)
    returns (pos': nat, filled': nat, bad': bool)
    requires reader.Valid() && data !in reader.buffer.home
    requires Ahead(rests, es, w) && i < |es| && reader.Remaining() == rests[i]
    requires Laid(data[..], nv[..], es[..i], pos, filled, bad)
    requires data.Length == |Image(es)| && nv.Length == |Pairs(es)|
    modifies reader, data, nv
    ensures reader.Valid() && reader.Remaining() == rests[i + 1]
    ensures Laid(data[..], nv[..], es[..i + 1], pos', filled', bad')
  {
    RoomFor(es, i);
    pos', filled', bad' := UnpackEntry(reader, w, data, nv, es[..i], es[i], rests[i + 1], pos, filled, bad);
  }

  /** The filling loop. */
  method FillAll(reader: Reader, w: nat, data: array<byte>, nv: array<Row>, n: nat, ghost es: seq<Entry>, ghost rests: seq<seq<byte>>)
    returns (ghost pos: nat, ghost filled: nat, bad: bool)
    requires reader.Valid() && data !in reader.buffer.home && |es| == n
    requires Ahead(rests, es, w) && reader.Remaining() == rests[0]
    requires data.Length == |Image(es)| && nv.Length == |Pairs(es)|
    modifies reader, data, nv
    ensures Laid(data[..], nv[..], es[..n], pos, filled, bad)
  {
    var at: nat, next: nat := 0, 0;
    bad := false;
    assert es[..0] == [];
    for i := 0 to n
      invariant reader.Valid() && reader.Remaining() == rests[i]
      invariant Laid(data[..], nv[..], es[..i], at, next, bad)
    {
      at, next, bad := FillNext(reader, w, data, nv, es, rests, i, at, next, bad);
    }
    pos, filled := at, next;
  }

  /** Every byte and every row of the counted space is written, none beyond it. */
  method FillTable(reader: Reader, w: nat, data: array<byte>, nv: array<Row>, n: nat, ghost es: seq<Entry>) returns (bad: bool)
    requires reader.Valid() && data !in reader.buffer.home
    requires ParseBody(reader.Remaining(), n, w) == Some(es) && |es| == n
    requires data.Length == |Image(es)| && nv.Length == |Pairs(es)|
    modifies reader, data, nv
    ensures data[..] == Image(es) && nv[..] == Rows(es) && bad == !Clean(es)
  {
    ghost var rests := ReadsAhead(reader.Remaining(), n, w);
    ghost var pos, filled;
    pos, filled, bad := FillAll(reader, w, data, nv, n, es, rests);
    assert es[..n] == es;
    RowsCount(es);
    LaidAll(data[..], nv[..], es, pos, filled, bad);
  }

  datatype Status = Ok | InvalidFrame | InvalidHeaderBlock

  /** What decoding `input` must say, and the table it must leave. */
  ghost predicate Decoded(content: seq<byte>, w: nat, status: Status, image: seq<byte>, rows: seq<Row>) {
    match Parse(content, w)
    case None => status == InvalidFrame
    case Some(es) =>
      && (status == Ok <==> Clean(es) && DistinctNames(es))
      && (status != Ok ==> status == InvalidHeaderBlock)
      && image == Image(es) && |rows| == |Pairs(es)|
      && (status == Ok ==> Sorted(image, rows) && multiset(Strings(image, rows)) == multiset(Pairs(es)))
  }

  lemma CleanNames(es: seq<Entry>)
    requires Clean(es)
    ensures forall e <- es :: 0 !in e.name
  {
    forall e | e in es ensures 0 !in e.name {
      assert NameOk(e.name) && !NameByte(0);
    }
  }

  lemma StringsArePairs(es: seq<Entry>)
    requires Clean(es)
    ensures Strings(Image(es), Rows(es)) == Pairs(es)
  {
    CleanNames(es);
    RowsCount(es);
    forall k | 0 <= k < |Pairs(es)| ensures Strings(Image(es), Rows(es))[k] == Pairs(es)[k] {
      DerefRows(es, k);
    }
  }

  /** The checks after the filling loop. */
  lemma Judged(es: seq<Entry>, sorted: seq<Row>)
    requires Clean(es) && multiset(sorted) == multiset(Rows(es)) && Sorted(Image(es), sorted)
    ensures NeighbourConflict(Image(es), sorted, |sorted|) <==> !DistinctNames(es)
    ensures multiset(Strings(Image(es), sorted)) == multiset(Pairs(es)) && |sorted| == |Pairs(es)|
  {
    CleanNames(es);
    NeighboursDecide(Image(es), Rows(es), sorted);
    ClashIsDuplicate(es);
    StringsPermute(Image(es), Rows(es), sorted);
    StringsArePairs(es);
    RowsCount(es);
    assert |sorted| == |multiset(sorted)| == |Rows(es)|;
  }

  /** spdylay_frame_unpack_nv. */
  method UnpackNv(input: Buffer, w: nat) returns (status: Status, image: seq<byte>, rows: seq<Row>)
    requires input.Valid()
    ensures Decoded(input.Content(), w, status, image, rows)
  {
    var ok, nvlen, buflen := CountUnpackNvSpace(input, w);
    if !ok {
      return InvalidFrame, [], [];
    }
    ghost var es := Parse(input.Content(), w).value;
    var table, bad;
    image, table, bad := Fill(input, w, buflen - (nvlen * 2 + 1) * POINTER_SIZE, nvlen, es);
    status, rows := Judge(image, table, bad, es);
  }

  /** The second pass, into freshly allocated space. */
  method Fill(input: Buffer, w: nat, size: nat, nvlen: nat, ghost es: seq<Entry>)
    returns (image: seq<byte>, table: seq<Row>, bad: bool)
    requires input.Valid() && Parse(input.Content(), w) == Some(es) && size == |Image(es)| && nvlen == |Pairs(es)|
    ensures image == Image(es) && table == Rows(es) && bad == !Clean(es)
  {
    var data := new byte[size];
    var nv := new Row[nvlen](_ => Row(0, 0));
    var reader := new Reader(input);
    var word := reader.Data(w);
    ParseBodyIs(input.Content()[w..], Number(word), w);
    bad := FillTable(reader, w, data, nv, Number(word), es);
    image, table := data[..], nv[..];
  }

  /** What follows the filling loop. */
  method Judge(image: seq<byte>, table: seq<Row>, bad: bool, ghost es: seq<Entry>) returns (status: Status, rows: seq<Row>)
    requires image == Image(es) && table == Rows(es) && bad == !Clean(es)
    ensures status == (if Clean(es) && DistinctNames(es) then Ok else InvalidHeaderBlock) && |rows| == |Pairs(es)|
    ensures status == Ok ==> Sorted(image, rows) && multiset(Strings(image, rows)) == multiset(Pairs(es))
  {
    RowsCount(es);
    if bad {
      return InvalidHeaderBlock, table;
    }
    rows := NameSort(image, table);
    var found := FindConflict(image, rows);
    Judged(es, rows);
    status := if found then InvalidHeaderBlock else Ok;
  }
}
