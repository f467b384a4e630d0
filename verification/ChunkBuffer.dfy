/** spdylay_buffer: a growing byte buffer over a linked list of fixed-size chunks, which a
    reset keeps for reuse, and the sequential reader over it. */
module ChunkBuffer {
  import opened Base

  // ---------- content as blocks ----------

  /** The bytes of the blocks from number `k` on. */
  function Flat(blocks: seq<seq<byte>>, k: nat): seq<byte>
    decreases |blocks| - k
  {
    if k >= |blocks| then [] else blocks[k] + Flat(blocks, k + 1)
  }

  /** A new empty block changes nothing. */
  lemma {:induction false} FlatEmptyBlock(blocks: seq<seq<byte>>, k: nat)
    requires k <= |blocks|
    ensures Flat(blocks + [[]], k) == Flat(blocks, k)
    decreases |blocks| - k
  {
    if k < |blocks| {
      FlatEmptyBlock(blocks, k + 1);
    } else {
      assert Flat(blocks + [[]], k + 1) == [];
    }
  }

  /** Bytes added to the last block are added to the content. */
  lemma {:induction false} FlatExtend(blocks: seq<seq<byte>>, more: seq<byte>, k: nat)
    requires k < |blocks|
    ensures var n := |blocks| - 1; Flat(blocks[n := blocks[n] + more], k) == Flat(blocks, k) + more
    decreases |blocks| - k
  {
    var n := |blocks| - 1;
    if k < n {
      FlatExtend(blocks, more, k + 1);
    } else {
      assert Flat(blocks, k + 1) == [] && Flat(blocks[n := blocks[n] + more], k + 1) == [];
    }
  }

  /** The bytes of the first `k` blocks. */
  ghost function UpTo(blocks: seq<seq<byte>>, k: nat): seq<byte>
    requires k <= |blocks|
  {
    if k == 0 then [] else UpTo(blocks, k - 1) + blocks[k - 1]
  }

  lemma {:induction false} FlatUpTo(blocks: seq<seq<byte>>, k: nat)
    requires k <= |blocks|
    ensures UpTo(blocks, k) + Flat(blocks, k) == Flat(blocks, 0)
  {
    if k > 0 {
      FlatUpTo(blocks, k - 1);
      assert UpTo(blocks, k) + Flat(blocks, k) == UpTo(blocks, k - 1) + (blocks[k - 1] + Flat(blocks, k));
    }
  }

  // ---------- chunks ----------

  class Chunk {
    const data: array<byte>
    /** The position in the list. */
    ghost const position: nat
    var next: Chunk?

    constructor (capacity: nat, ghost where: nat)
      ensures fresh(data) && data.Length == capacity && next == null && position == where
    {
      data, position := new byte[capacity], where;
      next := null;
    }
  }

  ghost function At(chunks: seq<Chunk>, i: nat): Chunk? {
    if i < |chunks| then chunks[i] else null
  }

  /** Distinct chunks of one capacity, none of them the root, with arrays of their own. */
  ghost predicate Pool(root: Chunk, chunks: seq<Chunk>, home: map<array<byte>, nat>, capacity: nat) {
    forall i :: 0 <= i < |chunks| ==>
      && chunks[i] != root && chunks[i].position == i
      && chunks[i].data.Length == capacity
      && chunks[i].data in home && home[chunks[i].data] == i
  }

  class Buffer {
    const root: Chunk
    const capacity: nat
    var current: Chunk
    var len: nat
    var lastOffset: nat
    /** The chunks after the root, in list order. */
    ghost var chunks: seq<Chunk>
    /** The arrays of those chunks, with the position of each. */
    ghost var home: map<array<byte>, nat>
    /** What the chunks in use hold. */
    ghost var blocks: seq<seq<byte>>

    ghost predicate Linked()
      reads this, root, chunks
    {
      && root.next == At(chunks, 0)
      && (forall i {:trigger chunks[i].next} :: 0 <= i < |chunks| ==> chunks[i].next == At(chunks, i + 1))
    }

    ghost predicate Shaped()
      reads this
    {
      && capacity > 0 && |blocks| <= |chunks|
      && Pool(root, chunks, home, capacity)
      && current == (if blocks == [] then root else chunks[|blocks| - 1])
      && lastOffset <= capacity && (blocks == [] ==> lastOffset == capacity)
    }

    /** Full chunks, and the current one up to `lastOffset`. */
    ghost predicate Filled()
      reads this, home.Keys
      requires Shaped()
    {
      && (forall k :: 0 <= k < |blocks| - 1 ==> blocks[k] == chunks[k].data[..])
      && (blocks != [] ==> blocks[|blocks| - 1] == current.data[..lastOffset])
    }

    /** The list as it was, perhaps with new chunks at its end. */
    twostate predicate Grown(was: seq<Chunk>, wasHome: map<array<byte>, nat>)
      reads this
    {
      && was <= chunks && wasHome.Keys <= home.Keys
      && (forall i :: |was| <= i < |chunks| ==> fresh(chunks[i]))
      && (forall a <- home.Keys :: a in wasHome || fresh(a))
    }

    /** What has been written since the last reset. */
    ghost function Content(): seq<byte>
      reads this
    {
      Flat(blocks, 0)
    }

    ghost predicate Valid()
      reads this, root, chunks, home.Keys
    {
      Shaped() && Linked() && Filled() && len == |Content()|
    }

    lemma BlockFits(k: nat)
      requires Valid() && k < |blocks|
      ensures |blocks[k]| <= capacity && (k < |blocks| - 1 ==> |blocks[k]| == capacity)
    {
    }

    /** spdylay_buffer_init. */
    constructor (chunkCapacity: nat)
      requires chunkCapacity > 0
      ensures Valid() && Content() == [] && chunks == [] && home == map[] && fresh(root)
    {
      var r := new Chunk(0, 0);
      root, current := r, r;
      capacity := chunkCapacity;
      len, lastOffset, chunks, home, blocks := 0, chunkCapacity, [], map[], [];
    }

    /** spdylay_buffer_reset: the chunks stay linked for reuse. */
    method Reset()
      requires Valid()
      modifies this`current, this`len, this`lastOffset, this`blocks
      ensures Valid() && Content() == [] && blocks == []
    {
      current, len, lastOffset := root, 0, capacity;
      blocks := [];
    }

    /** The part of spdylay_buffer_alloc that appends a chunk to the list. */
    method AppendChunk()
      requires Valid() && |blocks| == |chunks|
      modifies this`chunks, this`home, current
      ensures Valid() && |chunks| == |blocks| + 1 && old(chunks) < chunks
      ensures fresh(chunks[|blocks|]) && home.Keys == old(home.Keys) + {chunks[|blocks|].data} && fresh(chunks[|blocks|].data)
    {
      var chunk := new Chunk(capacity, |chunks|);
      current.next := chunk;
      ghost var before := chunks;
      home := home[chunk.data := |chunks|];
      chunks := chunks + [chunk];
      assert forall i :: 0 <= i < |before| ==> chunks[i] == before[i];
      assert Linked();
    }

    /** The rest of it: move on to the next chunk of the list. */
    method NextChunk()
      requires Valid() && lastOffset == capacity && |blocks| < |chunks|
      modifies this`current, this`len, this`lastOffset, this`blocks
      ensures Valid() && Content() == old(Content()) && lastOffset == 0 && |blocks| > 0
    {
      FlatEmptyBlock(blocks, 0);
      assert blocks != [] ==> current.data[..lastOffset] == current.data[..];
      assert current.next == chunks[|blocks|];
      current := current.next;
      len := len + (capacity - lastOffset);
      lastOffset := 0;
      ghost var before := blocks;
      blocks := blocks + [[]];
      assert Shaped();
      assert forall k :: 0 <= k < |before| ==> blocks[k] == before[k] && blocks[k] == chunks[k].data[..];
      assert blocks[|before|] == [] == current.data[..0];
      assert Filled();
    }

    /** What is left of the current chunk. */
    ghost function Room(): seq<byte>
      requires Shaped()
      reads this, home.Keys
    {
      if blocks == [] then [] else current.data[lastOffset..]
    }

    /** The rest of the current chunk counts as written. */
    method PadOut()
      requires Valid()
      modifies this`len, this`lastOffset, this`blocks
      ensures Valid() && lastOffset == capacity && |blocks| == old(|blocks|) && Content() == old(Content()) + old(Room())
    {
      if lastOffset < capacity {
        ghost var n, rest := |blocks| - 1, current.data[lastOffset..];
        FlatExtend(blocks, rest, 0);
        blocks := blocks[n := blocks[n] + rest];
        len := len + (capacity - lastOffset);
        lastOffset := capacity;
        assert blocks[n] == current.data[..lastOffset];
      }
    }

    /** spdylay_buffer_alloc: moves on to a new or reused chunk, whatever room is left. */
    method Alloc()
      requires Valid()
      modifies this`chunks, this`home, this`current, this`len, this`lastOffset, this`blocks, current
      ensures Valid() && Content() == old(Content()) + old(Room()) && lastOffset == 0 && blocks != []
      ensures Grown(old(chunks), old(home))
    {
      PadOut();
      AllocNext();
    }

    /** With no room left. */
    method AllocNext()
      requires Valid() && lastOffset == capacity
      modifies this`chunks, this`home, this`current, this`len, this`lastOffset, this`blocks, current
      ensures Valid() && Content() == old(Content()) && lastOffset == 0 && blocks != []
      ensures Grown(old(chunks), old(home))
    {
      assert |blocks| <= |chunks|;
      if current.next == null {
        AppendChunk();
      }
      NextChunk();
    }

    /** The copy into the current chunk and spdylay_buffer_advance. */
    method Fill(part: seq<byte>)
      requires Valid() && blocks != [] && |part| <= capacity - lastOffset
      modifies this`len, this`lastOffset, this`blocks, current.data
      ensures Valid() && Content() == old(Content()) + part
    {
      var data, start := current.data, lastOffset;
      ghost var n := |blocks| - 1;
      Put(data, start, part);
      FlatExtend(blocks, part, 0);
      blocks := blocks[n := blocks[n] + part];
      lastOffset := lastOffset + |part|;
      len := len + |part|;
      assert blocks[n] == data[..lastOffset];
    }

    /** One round of spdylay_buffer_write: at most what the current chunk has room for. */
    method WriteSome(data: seq<byte>) returns (n: nat)
      requires Valid() && data != []
      modifies this`chunks, this`home, this`current, this`len, this`lastOffset, this`blocks, root, chunks, home.Keys
      ensures Valid() && 0 < n <= |data| && Content() == old(Content()) + data[..n]
      ensures Grown(old(chunks), old(home))
    {
      if lastOffset == capacity {
        assert current == root || current in chunks;
        Alloc();
      }
      n := if capacity - lastOffset < |data| then capacity - lastOffset else |data|;
      Fill(data[..n]);
    }

    /** spdylay_buffer_write. */
    method Write(data: seq<byte>)
      requires Valid()
      modifies this`chunks, this`home, this`current, this`len, this`lastOffset, this`blocks, root, chunks, home.Keys
      ensures Valid() && Content() == old(Content()) + data && len == old(len) + |data|
      ensures Grown(old(chunks), old(home))
    {
      var done := 0;
      while done < |data|
        invariant done <= |data|
        invariant Valid() && Content() == old(Content()) + data[..done]
        invariant Grown(old(chunks), old(home))
      {
        var n := WriteSome(data[done..]);
        assert data[..done] + data[done..][..n] == data[..done + n];
        done := done + n;
      }
    }

    /** spdylay_buffer_serialize: it walks the whole list, past the current chunk. */
    method Serialize() returns (out: seq<byte>)
      requires Valid()
      ensures Content() <= out && (out == Content() <==> |blocks| == |chunks|)
    {
      out := [];
      var p := root.next;
      ghost var k := 0;
      FlatUpTo(blocks, |blocks|);
      while p != null
        invariant k <= |chunks| && p == At(chunks, k)
        invariant k <= |blocks| ==> out == UpTo(blocks, k)
        invariant k >= |blocks| ==> Content() <= out && (k > |blocks| ==> |out| > len)
        decreases |chunks| - k
      {
        var n := if p == current then lastOffset else capacity;
        assert k < |blocks| ==> blocks[k] == p.data[..n];
        out := out + p.data[..n];
        p := p.next;
        k := k + 1;
      }
    }
  }

  // ---------- the reader ----------

  /** What is left of the blocks from offset `o` of block `k`. */
  ghost function Rest(blocks: seq<seq<byte>>, k: nat, o: nat): seq<byte> {
    if k < |blocks| && o <= |blocks[k]| then blocks[k][o..] + Flat(blocks, k + 1) else []
  }

  lemma RestSplit(blocks: seq<seq<byte>>, k: nat, o: nat, m: nat)
    requires k < |blocks| && o + m <= |blocks[k]|
    ensures m <= |Rest(blocks, k, o)|
    ensures Rest(blocks, k, o)[..m] == blocks[k][o..o + m] && Rest(blocks, k, o)[m..] == Rest(blocks, k, o + m)
  {
  }

  lemma RestNext(blocks: seq<seq<byte>>, k: nat)
    requires k < |blocks|
    ensures Rest(blocks, k, |blocks[k]|) == Rest(blocks, k + 1, 0)
  {
  }

  class Reader {
    const buffer: Buffer
    var current: Chunk?
    var offset: nat
    ghost var k: nat

    ghost predicate Valid()
      reads this, buffer, buffer.root, buffer.chunks, buffer.home.Keys
    {
      && buffer.Valid()
      && k <= |buffer.chunks| && current == At(buffer.chunks, k) && offset < buffer.capacity
      && (k < |buffer.blocks| ==> offset <= |buffer.blocks[k]|)
    }

    /** What this reader has yet to return. */
    ghost function Remaining(): seq<byte>
      reads this, buffer
    {
      Rest(buffer.blocks, k, offset)
    }

    /** spdylay_buffer_reader_init. */
    constructor (b: Buffer)
      requires b.Valid()
      ensures Valid() && buffer == b && Remaining() == b.Content()
    {
      buffer, current, offset, k := b, b.root.next, 0, 0;
    }

    /** The rest of `n` bytes that the current chunk holds. */
    method Peek(n: nat) returns (piece: seq<byte>)
      requires Valid() && 0 < n <= |Remaining()|
      ensures Valid() && 0 < |piece| <= n && k < |buffer.blocks| && offset + |piece| <= |buffer.blocks[k]|
      ensures piece == buffer.blocks[k][offset..offset + |piece|]
    {
      var room := buffer.capacity - offset;
      var m := if room < n then room else n;
      piece := current.data[offset..offset + m];
    }

    /** Past `m` bytes of the current chunk, and on to the next one at its end. */
    method Skip(m: nat)
      requires Valid() && 0 < m && k < |buffer.blocks| && offset + m <= |buffer.blocks[k]|
      modifies this`current, this`offset, this`k
      ensures Valid() && Remaining() == Rest(buffer.blocks, old(k), old(offset) + m)
    {
      buffer.BlockFits(k);
      offset := offset + m;
      if offset == buffer.capacity {
        RestNext(buffer.blocks, k);
        current, offset, k := current.next, 0, k + 1;
      }
    }

    /** One round of the reading loops. */
    method Piece(n: nat) returns (piece: seq<byte>)
      requires Valid() && 0 < n <= |Remaining()|
      modifies this
      ensures Valid() && 0 < |piece| <= n
      ensures piece == old(Remaining())[..|piece|] && Remaining() == old(Remaining())[|piece|..]
    {
      piece := Peek(n);
      RestSplit(buffer.blocks, k, offset, |piece|);
      Skip(|piece|);
    }

    /** spdylay_buffer_reader_data. */
    method Data(n: nat) returns (out: seq<byte>)
      requires Valid() && n <= |Remaining()|
      modifies this
      ensures Valid() && out == old(Remaining())[..n] && Remaining() == old(Remaining())[n..]
    {
      out := [];
      while |out| < n
        invariant Valid() && |out| <= n && out == old(Remaining())[..|out|] && Remaining() == old(Remaining())[|out|..]
      {
        var piece := Piece(n - |out|);
        out := out + piece;
      }
    }

    /** spdylay_buffer_reader_advance. */
    method Advance(n: nat)
      requires Valid() && n <= |Remaining()|
      modifies this
      ensures Valid() && Remaining() == old(Remaining())[n..]
    {
      var done := 0;
      while done < n
        invariant Valid() && done <= n && Remaining() == old(Remaining())[done..]
      {
        var piece := Piece(n - done);
        done := done + |piece|;
      }
    }
  }

  // ---------- histories ----------

  datatype Op = Append(data: seq<byte>) | Clear

  /** The bytes written since the last reset. */
  function SinceReset(ops: seq<Op>): seq<byte> {
    if ops == [] then []
    else
      match ops[|ops| - 1]
      case Append(data) => SinceReset(ops[..|ops| - 1]) + data
      case Clear => []
  }

  /** Any history of writes and resets on one buffer, read back at the end. */
  method ReadBack(capacity: nat, ops: seq<Op>) returns (out: seq<byte>, len: nat)
    requires capacity > 0
    ensures out == SinceReset(ops) && len == |out|
  {
    var buffer := new Buffer(capacity);
    for i := 0 to |ops|
      invariant buffer.Valid() && buffer.Content() == SinceReset(ops[..i])
      invariant fresh(buffer) && fresh(buffer.root) && fresh(buffer.chunks) && fresh(buffer.home.Keys)
    {
      assert ops[..i + 1][..i] == ops[..i];
      match ops[i]
      case Append(data) => buffer.Write(data);
      case Clear => buffer.Reset();
    }
    assert ops[..|ops|] == ops;
    var reader := new Reader(buffer);
    len := buffer.len;
    out := reader.Data(len);
  }

  /** A buffer that has been written to and reset holds nothing, but serializes to stale bytes. */
  method SerializeStale(capacity: nat, data: seq<byte>) returns (out: seq<byte>, len: nat)
    requires capacity > 0 && data != []
    ensures len == 0 && out != []
  {
    var buffer := new Buffer(capacity);
    buffer.Write(data);
    buffer.Reset();
    out := buffer.Serialize();
    len := buffer.len;
  }
}
