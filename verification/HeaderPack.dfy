/** spdylay_frame_count_nv_space and spdylay_frame_pack_nv: writing a name/value list as a
    header block, with the lengths of joined values patched in afterwards. */
module HeaderPack {
  import opened Base
  import opened HeaderWire

  // ---------- growth of the block ----------

  lemma Assoc(a: seq<byte>, b: seq<byte>, c: seq<byte>)
    ensures a + b + c == a + (b + c)
  {
  }

  lemma {:induction false} BodySnoc(g: seq<Entry>, e: Entry, w: nat)
    ensures Body(g + [e], w) == Body(g, w) + EntryBytes(e, w)
  {
    if g == [] {
      assert [e][1..] == [];
      assert Body([e][1..], w) == [];
    } else {
      BodySnoc(g[1..], e, w);
      assert (g + [e])[1..] == g[1..] + [e];
      Assoc(EntryBytes(g[0], w), Body(g[1..], w), EntryBytes(e, w));
    }
  }

  /** The body up to the length word of the last value. */
  ghost function HeadOf(g: seq<Entry>, w: nat): seq<byte>
    requires g != []
  {
    Body(g[..|g| - 1], w) + Str(g[|g| - 1].name, w)
  }

  lemma HeadAndValue(g: seq<Entry>, w: nat)
    requires g != []
    ensures Body(g, w) == HeadOf(g, w) + Str(g[|g| - 1].value, w)
  {
    var front, e := g[..|g| - 1], g[|g| - 1];
    assert g == front + [e];
    BodySnoc(front, e, w);
    Assoc(Body(front, w), Str(e.name, w), Str(e.value, w));
  }

  /** The two ways the body grows. */
  lemma BodyStep(nv: seq<Pair>, i: nat, w: nat)
    requires i < |nv|
    ensures var g, g' := Group(nv[..i]), Group(nv[..i + 1]);
      if Joins(nv, i)
      then g != [] && HeadOf(g', w) == HeadOf(g, w) && g'[|g'| - 1].value == g[|g| - 1].value + [0] + nv[i].1
      else HeadOf(g', w) == Body(g, w) + Str(nv[i].0, w) && g'[|g'| - 1].value == nv[i].1
  {
    GroupStep(nv, i);
    var g, g' := Group(nv[..i]), Group(nv[..i + 1]);
    if Joins(nv, i) {
      assert g'[..|g'| - 1] == g[..|g| - 1];
    } else {
      assert g'[..|g'| - 1] == g;
    }
  }

  function Space(nv: seq<Pair>, i: nat, w: nat): nat
    requires i <= |nv|
  {
    |Body(Group(nv[..i]), w)|
  }

  lemma SpaceStep(nv: seq<Pair>, i: nat, w: nat)
    requires i < |nv|
    ensures Space(nv, i + 1, w) - Space(nv, i, w)
         == if Joins(nv, i) then |nv[i].1| + 1 else |nv[i].0| + |nv[i].1| + w * 2
  {
    BodyStep(nv, i, w);
    HeadAndValue(Group(nv[..i + 1]), w);
    if Joins(nv, i) {
      HeadAndValue(Group(nv[..i]), w);
    }
  }

  lemma {:induction false} SpaceGrows(nv: seq<Pair>, i: nat, w: nat)
    requires i <= |nv|
    ensures Space(nv, i, w) + w <= |Block(Group(nv), w)|
    decreases |nv| - i
  {
    if i < |nv| {
      SpaceStep(nv, i, w);
      SpaceGrows(nv, i + 1, w);
    } else {
      assert nv[..i] == nv;
    }
  }

  /** What spdylay_frame_nv_check_null has made sure of, as far as it matters here. */
  predicate Packable(nv: seq<Pair>) {
    nv != [] ==> nv[0].0 != []
  }

  // ---------- counting ----------

  /** spdylay_frame_count_nv_space. */
  method CountNvSpace(nv: seq<Pair>, w: nat) returns (sum: nat)
    requires Packable(nv)
    ensures sum == |Block(Group(nv), w)|
  {
    sum := w;
    var prev: seq<byte> := [];
    for i := 0 to |nv|
      invariant sum == w + Space(nv, i, w)
      invariant prev == if i == 0 then [] else nv[i - 1].0
    {
      SpaceStep(nv, i, w);
      var (key, val) := nv[i];
      if prev == key {
        sum := sum + |val| + 1;
      } else {
        prev := key;
        sum := sum + |key| + |val| + w * 2;
      }
    }
    assert nv[..|nv|] == nv;
  }

  // ---------- packing ----------

  /** A new entry at `pos`; `lenAt` is where the length of its value stands. */
  method PutEntry(buf: array<byte>, pos: nat, e: Entry, w: nat) returns (lenAt: nat, next: nat)
    requires pos + |EntryBytes(e, w)| <= buf.Length
    modifies buf
    ensures pos <= lenAt == pos + |Str(e.name, w)| && next == lenAt + w + |e.value| <= buf.Length
    ensures buf[..pos] == old(buf[..pos]) && buf[pos..lenAt] == Str(e.name, w) && buf[lenAt..next] == Str(e.value, w)
  {
    Put(buf, pos, Str(e.name, w));
    lenAt := pos + w + |e.name|;
    ghost var before := buf[..];
    Put(buf, lenAt, Str(e.value, w));
    next := lenAt + w + |e.value|;
    assert buf[..][..lenAt] == before[..lenAt];
  }

  /** One more value joined to the last entry, whose length word is written again. */
  method PutJoined(buf: array<byte>, lenAt: nat, pos: nat, ghost value: seq<byte>, len: nat, val: seq<byte>, w: nat)
    returns (next: nat)
    requires lenAt + w + |value| == pos && len == |value| + 1 + |val| && pos + 1 + |val| <= buf.Length
    requires buf[lenAt..pos] == Str(value, w)
    modifies buf
    ensures next == pos + 1 + |val|
    ensures buf[..lenAt] == old(buf[..lenAt]) && buf[lenAt..next] == Str(value + [0] + val, w)
  {
    assert buf[lenAt + w..pos] == value by {
      assert buf[lenAt + w..pos] == Str(value, w)[w..];
    }
    Put(buf, lenAt, Word(len, w));
    ghost var patched := buf[..];
    assert patched[lenAt..pos] == Word(len, w) + value;
    Put(buf, pos, [0] + val);
    next := pos + 1 + |val|;
    assert buf[..][..pos] == patched[..pos];
  }

  /** Behind the room for the count: `head`, then the value that is being built. */
  ghost predicate InPlace(s: seq<byte>, w: nat, head: seq<byte>, value: seq<byte>, lenAt: nat, len: nat, pos: nat) {
    && lenAt == w + |head| && len == |value| && pos == lenAt + w + len <= |s|
    && s[w..lenAt] == head && s[lenAt..pos] == Str(value, w)
  }

  /** The first `i` pairs are in place. */
  ghost predicate Packed(s: seq<byte>, nv: seq<Pair>, i: nat, w: nat, lenAt: nat, len: nat, pos: nat)
    requires i <= |nv|
  {
    var g := Group(nv[..i]);
    if i == 0 then pos == w <= |s| else InPlace(s, w, HeadOf(g, w), g[|g| - 1].value, lenAt, len, pos)
  }

  lemma CutAt(s: seq<byte>, a: nat, b: nat, c: nat)
    requires a <= b <= c <= |s|
    ensures s[a..c] == s[a..b] + s[b..c]
  {
  }

  lemma PackedBody(s: seq<byte>, nv: seq<Pair>, i: nat, w: nat, lenAt: nat, len: nat, pos: nat)
    requires i <= |nv| && Packed(s, nv, i, w, lenAt, len, pos)
    ensures w <= pos <= |s| && s[w..pos] == Body(Group(nv[..i]), w)
  {
    if i > 0 {
      HeadAndValue(Group(nv[..i]), w);
      CutAt(s, w, lenAt, pos);
    }
  }

  lemma PackedJoined(s: seq<byte>, s': seq<byte>, nv: seq<Pair>, i: nat, w: nat, lenAt: nat, len: nat, pos: nat, pos': nat)
    requires i < |nv| && Joins(nv, i) && Packed(s, nv, i, w, lenAt, len, pos)
    requires pos' == pos + 1 + |nv[i].1| <= |s'| && s'[..lenAt] == s[..lenAt]
    requires s'[lenAt..pos'] == Str(Group(nv[..i])[|Group(nv[..i])| - 1].value + [0] + nv[i].1, w)
    ensures Packed(s', nv, i + 1, w, lenAt, len + |nv[i].1| + 1, pos')
  {
    BodyStep(nv, i, w);
    assert s'[w..lenAt] == s'[..lenAt][w..] == s[w..lenAt];
  }

  lemma Grown(s: seq<byte>, s': seq<byte>, from: nat, pos: nat, end: nat, more: seq<byte>)
    requires from <= pos <= end <= |s'| && pos <= |s| && s'[..pos] == s[..pos] && s'[pos..end] == more
    ensures s'[from..end] == s[from..pos] + more
  {
    assert s'[from..pos] == s'[..pos][from..] == s[..pos][from..] == s[from..pos];
    assert s'[from..end] == s'[from..pos] + s'[pos..end];
  }

  lemma PackedEntry(s: seq<byte>, s': seq<byte>, nv: seq<Pair>, i: nat, w: nat, at: nat, len: nat, pos: nat, lenAt: nat, pos': nat)
    requires i < |nv| && !Joins(nv, i) && Packed(s, nv, i, w, at, len, pos)
    requires lenAt == pos + |Str(nv[i].0, w)| && pos' == lenAt + w + |nv[i].1| <= |s'| && s'[..pos] == s[..pos]
    requires s'[pos..lenAt] == Str(nv[i].0, w) && s'[lenAt..pos'] == Str(nv[i].1, w)
    ensures Packed(s', nv, i + 1, w, lenAt, |nv[i].1|, pos')
  {
    BodyStep(nv, i, w);
    PackedBody(s, nv, i, w, at, len, pos);
    Grown(s, s', w, pos, lenAt, Str(nv[i].0, w));
  }

  /** There is room for the next pair. */
  lemma Room(s: seq<byte>, nv: seq<Pair>, i: nat, w: nat, lenAt: nat, len: nat, pos: nat)
    requires i < |nv| && Packed(s, nv, i, w, lenAt, len, pos) && |Block(Group(nv), w)| <= |s|
    ensures pos + (if Joins(nv, i) then |nv[i].1| + 1 else |nv[i].0| + |nv[i].1| + w * 2) <= |s|
  {
    PackedSpace(s, nv, i, w, lenAt, len, pos);
    SpaceLeft(nv, i, w);
  }

  lemma PackedSpace(s: seq<byte>, nv: seq<Pair>, i: nat, w: nat, lenAt: nat, len: nat, pos: nat)
    requires i <= |nv| && Packed(s, nv, i, w, lenAt, len, pos)
    ensures pos == w + Space(nv, i, w)
  {
    PackedBody(s, nv, i, w, lenAt, len, pos);
    assert |s[w..pos]| == pos - w;
  }

  lemma SpaceLeft(nv: seq<Pair>, i: nat, w: nat)
    requires i < |nv|
    ensures w + Space(nv, i, w) + (if Joins(nv, i) then |nv[i].1| + 1 else |nv[i].0| + |nv[i].1| + w * 2) <= |Block(Group(nv), w)|
  {
    SpaceStep(nv, i, w);
    SpaceGrows(nv, i + 1, w);
  }

  /** The loop body of spdylay_frame_pack_nv where the name is the previous one. */
  method PackAgain(buf: array<byte>, ghost nv: seq<Pair>, ghost i: nat, val: seq<byte>, w: nat, lenAt: nat, len: nat, pos: nat)
    returns (len': nat, pos': nat)
    requires i < |nv| && Joins(nv, i) && val == nv[i].1 && |Block(Group(nv), w)| <= buf.Length
    requires Packed(buf[..], nv, i, w, lenAt, len, pos)
    modifies buf
    ensures Packed(buf[..], nv, i + 1, w, lenAt, len', pos') && |Group(nv[..i + 1])| == |Group(nv[..i])|
  {
    GroupStep(nv, i);
    ghost var s, g := buf[..], Group(nv[..i]);
    Room(s, nv, i, w, lenAt, len, pos);
    len' := len + |val| + 1;
    pos' := PutJoined(buf, lenAt, pos, g[|g| - 1].value, len', val, w);
    PackedJoined(s, buf[..], nv, i, w, lenAt, len, pos, pos');
  }

  /** The loop body where the name is new. */
  method PackNew(buf: array<byte>, ghost nv: seq<Pair>, ghost i: nat, e: Entry, w: nat, ghost at: nat, ghost len: nat, pos: nat)
    returns (lenAt: nat, pos': nat)
    requires i < |nv| && !Joins(nv, i) && nv[i] == (e.name, e.value) && |Block(Group(nv), w)| <= buf.Length
    requires Packed(buf[..], nv, i, w, at, len, pos)
    modifies buf
    ensures Packed(buf[..], nv, i + 1, w, lenAt, |e.value|, pos') && |Group(nv[..i + 1])| == |Group(nv[..i])| + 1
  {
    GroupStep(nv, i);
    ghost var s := buf[..];
    Room(s, nv, i, w, at, len, pos);
    lenAt, pos' := PutEntry(buf, pos, e, w);
    PackedEntry(s, buf[..], nv, i, w, at, len, pos, lenAt, pos');
  }

  /** What the loop carries from pair to pair. */
  datatype Cursor = Cursor(prev: seq<byte>, count: nat, lenAt: nat, len: nat, pos: nat)

  ghost predicate Tracks(s: seq<byte>, nv: seq<Pair>, i: nat, w: nat, c: Cursor)
    requires i <= |nv|
  {
    && Packed(s, nv, i, w, c.lenAt, c.len, c.pos)
    && c.prev == (if i == 0 then [] else nv[i - 1].0) && c.count == |Group(nv[..i])|
  }

  /** The loop body of spdylay_frame_pack_nv. */
  method PackPair(buf: array<byte>, nv: seq<Pair>, i: nat, w: nat, c: Cursor) returns (c': Cursor)
    requires Packable(nv) && i < |nv| && |Block(Group(nv), w)| <= buf.Length
    requires Tracks(buf[..], nv, i, w, c)
    modifies buf
    ensures Tracks(buf[..], nv, i + 1, w, c')
  {
    var (key, val) := nv[i];
    if c.prev == key {
      var len, pos := PackAgain(buf, nv, i, val, w, c.lenAt, c.len, c.pos);
      return c.(len := len, pos := pos);
    }
    var lenAt, pos := PackNew(buf, nv, i, Entry(key, val), w, c.lenAt, c.len, c.pos);
    return Cursor(key, c.count + 1, lenAt, |val|, pos);
  }

  /** The loop of spdylay_frame_pack_nv. */
  method PackPairs(buf: array<byte>, nv: seq<Pair>, w: nat) returns (c: Cursor)
    requires Packable(nv) && |Block(Group(nv), w)| <= buf.Length
    modifies buf
    ensures Tracks(buf[..], nv, |nv|, w, c)
  {
    c := Cursor([], 0, 0, 0, w);
    assert nv[..0] == [] && Group([]) == [];
    for i := 0 to |nv|
      invariant Tracks(buf[..], nv, i, w, c)
    {
      c := PackPair(buf, nv, i, w, c);
    }
  }

  lemma TracksAll(s: seq<byte>, nv: seq<Pair>, w: nat, c: Cursor)
    requires Tracks(s, nv, |nv|, w, c)
    ensures c.count == |Group(nv)| && w <= c.pos <= |s| && s[w..c.pos] == Body(Group(nv), w)
  {
    PackedBody(s, nv, |nv|, w, c.lenAt, c.len, c.pos);
    assert nv[..|nv|] == nv;
  }

  lemma CountInFront(s: seq<byte>, s': seq<byte>, word: seq<byte>, pos: nat)
    requires |word| <= pos <= |s| && s' == s[..0] + word + s[|word|..]
    ensures s'[..pos] == word + s[|word|..pos]
  {
  }

  /** spdylay_frame_pack_nv. */
  method PackNv(buf: array<byte>, nv: seq<Pair>, w: nat) returns (n: nat)
    requires Packable(nv) && |Block(Group(nv), w)| <= buf.Length
    modifies buf
    ensures n == |Block(Group(nv), w)| && buf[..n] == Block(Group(nv), w)
    ensures IsWord(buf[..n], 0, |Group(nv)|, w) && (nv != [] ==> IsWord(buf[..n], w, |nv[0].0|, w))
  {
    var c := PackPairs(buf, nv, w);
    ghost var s := buf[..];
    TracksAll(s, nv, w, c);
    Put(buf, 0, Word(c.count, w));
    CountInFront(s, buf[..], Word(c.count, w), c.pos);
    n := c.pos;
    assert buf[..n] == buf[..][..n];
    BlockWords(Group(nv), w);
    FirstName(nv);
  }

  lemma {:induction false} FirstName(nv: seq<Pair>)
    ensures nv != [] ==> Group(nv) != [] && Group(nv)[0].name == nv[0].0
  {
    if |nv| > 1 {
      FirstName(nv[..|nv| - 1]);
    }
  }

  /** spdylay_frame_alloc_pack_nv up to the compression: count, reserve, pack. */
  method PackedBlock(nv: seq<Pair>, w: nat) returns (buf: array<byte>)
    requires Packable(nv)
    ensures buf[..] == Block(Group(nv), w)
  {
    var space := CountNvSpace(nv, w);
    buf := new byte[space];
    var n := PackNv(buf, nv, w);
    assert buf[..n] == buf[..];
  }
}
