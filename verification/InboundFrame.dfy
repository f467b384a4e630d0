/** spdylay_session_mem_recv itself: the loop over an input buffer, with the fields of
    spdylay_inbound_frame updated in place. */
module InboundFrame {
  import opened Base
  import opened FrameReceiver

  function Min(a: nat, b: nat): nat { if a <= b then a else b }

  lemma NextPiece(input: seq<byte>, mark: nat, n: nat)
    requires mark + n <= |input|
    ensures input[..mark + n] == input[..mark] + input[mark..][..n]
  {
  }

  class Inbound<S(!new), Z(!new)> {
    const env: Env<S, Z>
    const headbuf: array<byte>
    var state: Phase
    var headbufoff: nat
    /** The bytes stored in `buf`, which has room for `bufmax`. */
    var buf: seq<byte>
    var bufmax: nat
    var buflen: nat
    var payloadlen: nat
    var off: nat
    var inflatebuf: seq<byte>
    var errorCode: int
    var session: S
    var inflater: Option<Z>

    /** The state of the automaton that the fields stand for. */
    ghost function View(): Recv<S, Z>
      reads this, headbuf
      requires headbufoff <= headbuf.Length
    {
      Recv(state, headbuf[..headbufoff], payloadlen, off, buf,
           if errorCode == 0 then inflatebuf else [], errorCode, session, inflater)
    }

    ghost predicate Fits()
      reads this, headbuf
    {
      && headbuf.Length == 8 && headbufoff <= 8
      && |buf| <= buflen <= bufmax
      && (!state.InHead? ==> headbufoff == 8)
      && (state.InPreNv? || state.InNv? ==> IsControl(headbuf[..8]))
      && (!state.InHead? && IsControl(headbuf[..8]) ==>
            && (state.InPayload? ==> |buf| == off && payloadlen <= buflen)
            && (state.InPreNv? ==> |buf| == off && buflen == NvStart(headbuf[..8])))
    }

    ghost predicate Valid()
      reads this, headbuf
    {
      Fits() && Stable(View())
    }

    constructor (env: Env<S, Z>, session: S, inflater: Option<Z>)
      ensures Valid() && View() == Fresh(session, inflater) && fresh(headbuf) && this.env == env
    {
      this.env := env;
      headbuf := new byte[8];
      state, headbufoff, buf, bufmax, buflen := InHead, 0, [], 4104, 0;
      payloadlen, off, inflatebuf, errorCode := 0, 0, [], 0;
      this.session, this.inflater := session, inflater;
    }

    /** spdylay_inbound_frame_reset. */
    method Reset()
      requires headbuf.Length == 8
      modifies this
      ensures Valid() && View() == Fresh(session, inflater)
      ensures session == old(session) && inflater == old(inflater)
    {
      state, payloadlen, buflen, off, headbufoff := InHead, 0, 0, 0, 0;
      buf, inflatebuf, errorCode := [], [], 0;
      assert headbuf[..0] == [];
    }

    /** spdylay_reserve_buffer, keeping only the size: room is rounded up to 4096 bytes. */
    method Reserve(length: nat)
      modifies this`bufmax
      ensures length <= bufmax && bufmax >= old(bufmax)
    {
      if length > bufmax {
        bufmax := (length + 4095) / 4096 * 4096;
      }
    }

    /** Header bytes into headbuf. */
    method CopyHead(bytes: seq<byte>)
      requires headbuf.Length == 8 && headbufoff + |bytes| <= 8
      modifies this`headbufoff, headbuf
      ensures headbufoff == old(headbufoff) + |bytes|
      ensures headbuf[..headbufoff] == old(headbuf[..headbufoff]) + bytes
    {
      ghost var was := headbuf[..headbufoff];
      for i := 0 to |bytes|
        modifies headbuf
        invariant headbuf[..headbufoff + i] == was + bytes[..i]
      {
        headbuf[headbufoff + i] := bytes[i];
        assert headbuf[..headbufoff + i + 1] == headbuf[..headbufoff + i] + [bytes[i]];
        assert bytes[..i + 1] == bytes[..i] + [bytes[i]];
      }
      headbufoff := headbufoff + |bytes|;
      assert bytes[..|bytes|] == bytes;
    }

    /** The header is complete. */
    method StartPayload()
      requires headbuf.Length == 8 && headbufoff == 8 && View() == Fresh(session, inflater).(head := headbuf[..8])
      modifies this
      ensures Fits() && headbufoff == 8 && View() == Classify(env, old(View()))
    {
      var h: Head := headbuf[..8];
      state := InPayload;
      payloadlen := PayloadLength(h);
      buflen := 0;
      if IsControl(h) {
        if NvOffset(h).None? {
          if payloadlen > env.max {
            errorCode := FRAME_TOO_LARGE;
            state := Ignoring;
          } else {
            buflen := payloadlen;
          }
        } else {
          buflen := NvOffset(h).value;
          if buflen < payloadlen {
            if payloadlen > env.max {
              errorCode := FRAME_TOO_LARGE;
            }
            state := InPreNv;
          }
        }
        Reserve(buflen);
      } else if !env.allowed(session, StreamId(h)) {
        state := Ignoring;
      }
    }

    /** spdylay_zlib_inflate_hd on a piece of the name/value block, and the error rules. */
    method InflateBlock(bytes: seq<byte>)
      requires headbuf.Length == 8 && headbufoff == 8
      modifies this`inflatebuf, this`errorCode, this`inflater
      ensures View() == TakeNv(env, old(View()), bytes)
    {
      if errorCode == 0 || errorCode == FRAME_TOO_LARGE {
        if errorCode == FRAME_TOO_LARGE {
          inflatebuf := [];
        }
        match Inflate(env, inflater, bytes) {
          case None =>
            errorCode, inflater := ZLIB_ERROR, None;
          case Some((z, out)) =>
            inflatebuf, inflater := inflatebuf + out, Some(z);
            if |inflatebuf| > env.max {
              errorCode := FRAME_TOO_LARGE;
            }
        }
      }
    }

    /** Payload bytes within one phase. */
    method Store(bytes: seq<byte>)
      requires Fits() && !state.InHead?
      requires off + |bytes| <= if state.InPreNv? then NvStart(headbuf[..8]) else payloadlen
      modifies this`buf, this`off, this`inflatebuf, this`errorCode, this`inflater, this`session
      ensures Fits() && View() == Absorb(env, old(View()), bytes)
    {
      if state == InNv {
        off := off + |bytes|;
        InflateBlock(bytes);
      } else {
        if IsControl(headbuf[..8]) {
          if state != Ignoring {
            assert off + |bytes| <= bufmax;
            buf := buf + bytes;
          }
        } else if state == InPayload {
          session := Deliver(env, session, headbuf[..8], bytes);
        }
        off := off + |bytes|;
      }
    }

    /** The frame is complete: process it and start over. */
    method ProcessFrame()
      requires headbuf.Length == 8 && headbufoff == 8
      modifies this
      ensures Valid() && View() == Finish(env, old(View()))
    {
      var h: Head := headbuf[..8];
      if IsControl(h) {
        session := env.onControl(session, Control(h, buf, if errorCode == 0 then inflatebuf else [], errorCode));
      } else {
        session := env.onData(session, h);
      }
      Reset();
    }

    /** Bytes before the name/value block; with the last of them the block begins. */
    method TakePreNv(bytes: seq<byte>)
      requires Valid() && state.InPreNv? && bytes != [] && off + |bytes| <= NvStart(headbuf[..8])
      modifies this
      ensures Valid() && !state.InHead? && View() == Feed(env, old(View()), bytes)
      ensures off == old(off) + |bytes| && payloadlen == old(payloadlen)
      ensures state.InPreNv? ==> off < NvStart(headbuf[..8])
    {
      ghost var v := View();
      PayloadBytes(env, v, bytes);
      FeedStable(env, v, bytes);
      Store(bytes);
      if off == NvStart(headbuf[..8]) {
        state := InNv;
        InflateBlock([]);
      }
    }

    /** The rest of the payload that is at hand, up to the end of the frame. */
    method TakeRest(bytes: seq<byte>)
      requires Valid() && !state.InHead? && !state.InPreNv? && bytes != [] && off + |bytes| <= payloadlen
      modifies this
      ensures Valid() && View() == Feed(env, old(View()), bytes)
    {
      ghost var v := View();
      PayloadBytes(env, v, bytes);
      FeedStable(env, v, bytes);
      Store(bytes);
      if payloadlen == off {
        ProcessFrame();
      }
    }

    /** The payload part of the loop body, for `bytes` of the current frame. */
    method TakePayload(bytes: seq<byte>)
      requires Valid() && !state.InHead? && bytes != [] && off + |bytes| <= payloadlen
      modifies this
      ensures Valid() && View() == Feed(env, old(View()), bytes)
    {
      if state == InPreNv {
        var readpnvlen := Min(NvStart(headbuf[..8]) - off, |bytes|);
        ghost var v := View();
        SplitIndependence(env, v, bytes[..readpnvlen], bytes[readpnvlen..]);
        assert bytes == bytes[..readpnvlen] + bytes[readpnvlen..];
        TakePreNv(bytes[..readpnvlen]);
        if readpnvlen < |bytes| {
          TakeRest(bytes[readpnvlen..]);
        }
      } else {
        TakeRest(bytes);
      }
    }

    /** The header part of the loop body. */
    method TakeHead(bytes: seq<byte>)
      requires Valid() && state.InHead? && bytes != [] && headbufoff + |bytes| <= 8
      modifies this, headbuf
      ensures Valid() && View() == Feed(env, old(View()), bytes)
    {
      ghost var v := View();
      HeadBytes(env, v, bytes);
      FeedStable(env, v, bytes);
      CopyHead(bytes);
      if headbufoff == 8 {
        StartPayload();
        if payloadlen == 0 {
          ProcessFrame();
        }
      }
    }

    /** One round of the loop: as much as belongs to the header, or to the payload. */
    method TakeSome(input: seq<byte>) returns (readlen: nat)
      requires Valid() && input != []
      modifies this, headbuf
      ensures 0 < readlen <= |input| && Valid() && View() == Feed(env, old(View()), input[..readlen])
    {
      if state == InHead {
        readlen := Min(8 - headbufoff, |input|);
        TakeHead(input[..readlen]);
      } else {
        readlen := Min(payloadlen - off, |input|);
        TakePayload(input[..readlen]);
      }
    }

    /** The same, at offset `mark` of an input of which everything before has been fed. */
    method Advance(input: seq<byte>, mark: nat, ghost start: Recv<S, Z>) returns (next: nat)
      requires mark < |input| && Valid() && View() == Feed(env, start, input[..mark])
      modifies this, headbuf
      ensures mark < next <= |input| && Valid() && View() == Feed(env, start, input[..next])
    {
      ghost var v := View();
      var readlen := TakeSome(input[mark..]);
      next := mark + readlen;
      NextPiece(input, mark, readlen);
      FeedJoin(env, start, v, View(), input[..mark], input[mark..][..readlen], input[..next]);
    }

    /** spdylay_session_mem_recv: all bytes are consumed, and the effect is that of the
        automaton. */
    method MemRecv(input: seq<byte>) returns (consumed: nat)
      requires Valid()
      modifies this, headbuf
      ensures Valid() && View() == Feed(env, old(View()), input) && consumed == |input|
    {
      consumed := 0;
      ghost var start := View();
      while consumed < |input|
        invariant consumed <= |input| && Valid() && View() == Feed(env, start, input[..consumed])
      {
        consumed := Advance(input, consumed, start);
      }
      assert input[..consumed] == input;
    }

    /** One call for each piece: however a byte string is cut into calls, all of it is consumed,
        and the result is that of cutting the whole string into frames. */
    method MemRecvAll(pieces: seq<seq<byte>>)
      requires Valid() && View() == Fresh(session, inflater)
      modifies this, headbuf
      ensures Valid() && View() == Splitter(env, old(session), old(inflater), Concat(pieces))
    {
      ghost var start := View();
      AnySplit(env, start, pieces);
      AutomatonIsSplitter(env, session, inflater, Concat(pieces));
      MemRecvEach(pieces);
    }

    method MemRecvEach(pieces: seq<seq<byte>>)
      requires Valid()
      modifies this, headbuf
      ensures Valid() && View() == FeedPieces(env, old(View()), pieces)
      decreases pieces
    {
      if pieces != [] {
        var consumed := MemRecv(pieces[0]);
        assert consumed == |pieces[0]|;
        MemRecvEach(pieces[1..]);
      }
    }
  }
}
