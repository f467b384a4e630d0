/** spdylay_session_mem_recv as a byte automaton, and the simple reading of it: cut the byte
    stream into frames of an 8-byte header and a payload (section 2.2 of
    draft-mbelshe-httpbis-spdy-00) and hand over each frame whole. */
module FrameReceiver {
  import opened Base

  const HEAD_LEN: nat := 8
  const FRAME_TOO_LARGE: int := -522
  const ZLIB_ERROR: int := -502

  // ---------- frame headers ----------

  type Head = h: seq<byte> | |h| == 8 witness [0, 0, 0, 0, 0, 0, 0, 0]

  predicate IsControl(h: Head) { h[0] >= 128 }

  function PayloadLength(h: Head): nat { h[5] as int * 0x1_0000 + h[6] as int * 0x100 + h[7] }

  function FrameType(h: Head): nat { h[2] as int * 0x100 + h[3] }

  function Version(h: Head): nat { h[0] as int % 128 * 0x100 + h[1] }

  function StreamId(h: Head): nat {
    h[0] as int % 128 * 0x100_0000 + h[1] as int * 0x1_0000 + h[2] as int * 0x100 + h[3]
  }

  /** Payload bytes before the name/value block, or None for frames without one
      (spdylay_inbound_frame_payload_nv_offset). */
  function NvOffset(h: Head): Option<nat> {
    if FrameType(h) == 1 then Some(10)
    else if FrameType(h) == 2 || FrameType(h) == 8 then
      if Version(h) == 2 then Some(6) else if Version(h) == 3 then Some(4) else None
    else None
  }

  // ---------- what surrounds the receiver ----------

  /** A complete control frame as spdylay_session_process_ctrl_frame sees it. */
  datatype Control = Control(head: Head, body: seq<byte>, inflated: seq<byte>, error: int)

  /** The rest of the session, with state S, and a streaming decompressor with state Z. */
  datatype Env<!S, !Z> = Env(
    max: nat,                                  // max_recv_ctrl_frame_buf
    allowed: (S, nat) -> bool,                 // check_data_recv_allowed
    onControl: (S, Control) -> S,
    onByte: (S, Head, byte) -> S,              // one byte of a data chunk
    onData: (S, Head) -> S,                    // a DATA frame is complete
    inflate: (Z, byte) -> Option<(Z, seq<byte>)>)

  /** Decompressing a string; a broken stream stays broken. */
  function Inflate<S, Z>(env: Env<S, Z>, z: Option<Z>, bs: seq<byte>): Option<(Z, seq<byte>)> {
    if z.None? then None
    else if bs == [] then Some((z.value, []))
    else
      match Inflate(env, z, bs[..|bs| - 1])
      case None => None
      case Some((z1, out)) =>
        match env.inflate(z1, bs[|bs| - 1])
        case None => None
        case Some((z2, more)) => Some((z2, out + more))
  }

  function Deliver<S, Z>(env: Env<S, Z>, s: S, h: Head, bs: seq<byte>): S {
    if bs == [] then s else env.onByte(Deliver(env, s, h, bs[..|bs| - 1]), h, bs[|bs| - 1])
  }

  // ---------- the automaton ----------

  datatype Phase = InHead | InPayload | Ignoring | InPreNv | InNv

  /** spdylay_inbound_frame, with the session and the decompressor.  `inflated` is what the
      inflate buffer is worth: nothing once the frame is in error. */
  datatype Recv<S, Z> = Recv(
    phase: Phase, head: seq<byte>, payloadlen: nat, off: nat,
    body: seq<byte>, inflated: seq<byte>, error: int, s: S, z: Option<Z>)

  /** spdylay_inbound_frame_reset. */
  function Fresh<S, Z>(s: S, z: Option<Z>): Recv<S, Z> { Recv(InHead, [], 0, 0, [], [], 0, s, z) }

  /** Processing of a complete frame. */
  function Finish<S, Z>(env: Env<S, Z>, r: Recv<S, Z>): Recv<S, Z>
    requires |r.head| == 8
  {
    if IsControl(r.head) then Fresh(env.onControl(r.s, Control(r.head, r.body, r.inflated, r.error)), r.z)
    else Fresh(env.onData(r.s, r.head), r.z)
  }

  function FinishIfDone<S, Z>(env: Env<S, Z>, r: Recv<S, Z>): Recv<S, Z>
    requires |r.head| == 8
  {
    if r.off == r.payloadlen then Finish(env, r) else r
  }

  /** The header is complete: decide what to do with the payload. */
  function Classify<S, Z>(env: Env<S, Z>, r: Recv<S, Z>): Recv<S, Z>
    requires |r.head| == 8
  {
    var len := PayloadLength(r.head);
    var r1 := r.(payloadlen := len);
    if IsControl(r.head) then
      match NvOffset(r.head)
      case None =>
        if len > env.max then r1.(phase := Ignoring, error := FRAME_TOO_LARGE) else r1.(phase := InPayload)
      case Some(nv) =>
        if nv < len then r1.(phase := InPreNv, error := if len > env.max then FRAME_TOO_LARGE else 0)
        else r1.(phase := InPayload)
    else r1.(phase := if env.allowed(r.s, StreamId(r.head)) then InPayload else Ignoring)
  }

  /** Inflating `bs`, with the rules for errors: a zlib error overrides and is final for the
      frame; past the limit output is only discarded, to keep the decompressor in step. */
  function TakeNv<S, Z>(env: Env<S, Z>, r: Recv<S, Z>, bs: seq<byte>): Recv<S, Z> {
    if r.error != 0 && r.error != FRAME_TOO_LARGE then r
    else
      match Inflate(env, r.z, bs)
      case None => r.(error := ZLIB_ERROR, inflated := [], z := None)
      case Some((z1, out)) =>
        var total := r.inflated + out;
        if r.error == FRAME_TOO_LARGE || |total| > env.max
        then r.(z := Some(z1), error := FRAME_TOO_LARGE, inflated := [])
        else r.(z := Some(z1), inflated := total)
  }

  function NvStart(h: Head): nat { if NvOffset(h).Some? then NvOffset(h).value else 0 }

  /** Consume payload bytes that stay within the current phase. */
  function Absorb<S, Z>(env: Env<S, Z>, r: Recv<S, Z>, bs: seq<byte>): Recv<S, Z>
    requires |r.head| == 8
  {
    var r1 := r.(off := r.off + |bs|);
    match r.phase
    case InHead => r
    case Ignoring => r1
    case InPreNv => r1.(body := r.body + bs)
    case InNv => TakeNv(env, r1, bs)
    case InPayload =>
      if IsControl(r.head) then r1.(body := r.body + bs) else r1.(s := Deliver(env, r.s, r.head, bs))
  }

  /** Leaving the part before the name/value block. */
  function EnterNv<S, Z>(env: Env<S, Z>, r: Recv<S, Z>): Recv<S, Z>
    requires |r.head| == 8
  {
    if r.phase.InPreNv? && r.off == NvStart(r.head) then TakeNv(env, r.(phase := InNv), []) else r
  }

  function ByteStep<S, Z>(env: Env<S, Z>, r: Recv<S, Z>, b: byte): Recv<S, Z> {
    if r.phase.InHead? then
      var r1 := r.(head := r.head + [b]);
      if |r1.head| == 8 then FinishIfDone(env, Classify(env, r1)) else r1
    else if |r.head| != 8 then r
    else FinishIfDone(env, EnterNv(env, Absorb(env, r, [b])))
  }

  /** The automaton on a string. */
  function Feed<S, Z>(env: Env<S, Z>, r: Recv<S, Z>, bs: seq<byte>): Recv<S, Z> {
    if bs == [] then r else ByteStep(env, Feed(env, r, bs[..|bs| - 1]), bs[|bs| - 1])
  }

  /** Feeding in pieces is feeding the whole: however the bytes are cut into calls, the same
      frames, data bytes, error codes and receive state result. */
  lemma {:induction false} SplitIndependence<S, Z>(env: Env<S, Z>, r: Recv<S, Z>, a: seq<byte>, b: seq<byte>)
    ensures Feed(env, Feed(env, r, a), b) == Feed(env, r, a + b)
    decreases |b|
  {
    if b == [] {
      assert a + b == a;
    } else {
      SplitIndependence(env, r, a, b[..|b| - 1]);
      assert (a + b)[..|a + b| - 1] == a + b[..|b| - 1];
    }
  }

  lemma FeedJoin<S, Z>(env: Env<S, Z>, start: Recv<S, Z>, r: Recv<S, Z>, t: Recv<S, Z>,
      a: seq<byte>, b: seq<byte>, ab: seq<byte>)
    requires r == Feed(env, start, a) && t == Feed(env, r, b) && ab == a + b
    ensures t == Feed(env, start, ab)
  {
    SplitIndependence(env, start, a, b);
  }

  function Concat(pieces: seq<seq<byte>>): seq<byte> {
    if pieces == [] then [] else pieces[0] + Concat(pieces[1..])
  }

  function FeedPieces<S, Z>(env: Env<S, Z>, r: Recv<S, Z>, pieces: seq<seq<byte>>): Recv<S, Z>
    decreases pieces
  {
    if pieces == [] then r else FeedPieces(env, Feed(env, r, pieces[0]), pieces[1..])
  }

  lemma {:induction false} AnySplit<S, Z>(env: Env<S, Z>, r: Recv<S, Z>, pieces: seq<seq<byte>>)
    ensures FeedPieces(env, r, pieces) == Feed(env, r, Concat(pieces))
    decreases pieces
  {
    if pieces != [] {
      AnySplit(env, Feed(env, r, pieces[0]), pieces[1..]);
      SplitIndependence(env, r, pieces[0], Concat(pieces[1..]));
    }
  }

  // ---------- several bytes at once ----------

  lemma {:induction false} InflateConcat<S, Z>(env: Env<S, Z>, z: Option<Z>, a: seq<byte>, b: seq<byte>)
    ensures Inflate(env, z, a + b) ==
      match Inflate(env, z, a)
      case None => None
      case Some((z1, out)) =>
        match Inflate(env, Some(z1), b)
        case None => None
        case Some((z2, more)) => Some((z2, out + more))
    decreases |b|
  {
    if b == [] {
      assert a + b == a;
      match Inflate(env, z, a)
      case None =>
      case Some((z1, out)) => assert out + [] == out;
    } else {
      var c := b[..|b| - 1];
      InflateConcat(env, z, a, c);
      assert (a + b)[..|a + b| - 1] == a + c;
      match Inflate(env, z, a)
      case None =>
      case Some((z1, out)) =>
        match Inflate(env, Some(z1), c)
        case None =>
        case Some((z2, more)) =>
          match env.inflate(z2, b[|b| - 1])
          case None =>
          case Some((z3, last)) => assert out + more + last == out + (more + last);
    }
  }

  lemma TakeNvConcat<S, Z>(env: Env<S, Z>, r: Recv<S, Z>, a: seq<byte>, b: seq<byte>)
    ensures TakeNv(env, TakeNv(env, r, a), b) == TakeNv(env, r, a + b)
  {
    InflateConcat(env, r.z, a, b);
    match Inflate(env, r.z, a)
    case None =>
    case Some((z1, out)) =>
      match Inflate(env, Some(z1), b)
      case None =>
      case Some((_, more)) => assert r.inflated + (out + more) == r.inflated + out + more;
  }

  lemma {:induction false} DeliverConcat<S, Z>(env: Env<S, Z>, s: S, h: Head, a: seq<byte>, b: seq<byte>)
    ensures Deliver(env, Deliver(env, s, h, a), h, b) == Deliver(env, s, h, a + b)
    decreases |b|
  {
    if b == [] {
      assert a + b == a;
    } else {
      DeliverConcat(env, s, h, a, b[..|b| - 1]);
      assert (a + b)[..|a + b| - 1] == a + b[..|b| - 1];
    }
  }

  lemma AbsorbConcat<S, Z>(env: Env<S, Z>, r: Recv<S, Z>, a: seq<byte>, b: seq<byte>)
    requires |r.head| == 8 && !r.phase.InHead?
    ensures var r1 := Absorb(env, r, a); r1.head == r.head && r1.phase == r.phase && r1.payloadlen == r.payloadlen
    ensures Absorb(env, Absorb(env, r, a), b) == Absorb(env, r, a + b)
  {
    assert r.body + a + b == r.body + (a + b);
    if r.phase.InNv? {
      AbsorbNvConcat(env, r, a, b);
    } else {
      DeliverConcat(env, r.s, r.head, a, b);
    }
  }

  lemma AbsorbNvConcat<S, Z>(env: Env<S, Z>, r: Recv<S, Z>, a: seq<byte>, b: seq<byte>)
    requires |r.head| == 8 && r.phase.InNv?
    ensures Absorb(env, Absorb(env, r, a), b) == Absorb(env, r, a + b)
  {
    var o := r.off + |a| + |b|;
    TakeNvConcat(env, r.(off := o), a, b);
    TakeNvOff(env, r, a, o);
    TakeNvOff(env, r, a, r.off + |a|);
  }

  lemma TakeNvOff<S, Z>(env: Env<S, Z>, r: Recv<S, Z>, bs: seq<byte>, o: nat)
    ensures TakeNv(env, r.(off := o), bs) == TakeNv(env, r, bs).(off := o)
  {
  }

  /** What holds between bytes. */
  ghost predicate Stable<S, Z>(r: Recv<S, Z>) {
    if r.phase.InHead? then r == Fresh(r.s, r.z).(head := r.head) && |r.head| < 8
    else
      && |r.head| == 8 && r.off < r.payloadlen == PayloadLength(r.head)
      && (r.phase.InPreNv? ==> IsControl(r.head) && NvOffset(r.head).Some? && r.off < NvStart(r.head) < r.payloadlen)
      && (r.phase.InNv? ==> IsControl(r.head) && NvOffset(r.head).Some? && NvStart(r.head) <= r.off)
  }

  /** Header bytes in one go. */
  lemma {:induction false} HeadBytes<S, Z>(env: Env<S, Z>, r: Recv<S, Z>, bs: seq<byte>)
    requires r.phase.InHead? && |r.head| < 8 && bs != [] && |r.head| + |bs| <= 8
    ensures var r1 := r.(head := r.head + bs);
            Feed(env, r, bs) == if |r1.head| == 8 then FinishIfDone(env, Classify(env, r1)) else r1
    decreases |bs|
  {
    var c := bs[..|bs| - 1];
    if c == [] {
      assert Feed(env, r, c) == r;
      assert bs == [bs[|bs| - 1]];
    } else {
      HeadBytes(env, r, c);
      assert r.head + bs == r.head + c + [bs[|bs| - 1]];
    }
  }

  /** Payload bytes that do not go past the phase, in one go. */
  lemma {:induction false} PayloadBytes<S, Z>(env: Env<S, Z>, r: Recv<S, Z>, bs: seq<byte>)
    requires Stable(r) && !r.phase.InHead? && bs != []
    requires r.off + |bs| <= if r.phase.InPreNv? then NvStart(r.head) else r.payloadlen
    ensures Feed(env, r, bs) == FinishIfDone(env, EnterNv(env, Absorb(env, r, bs)))
    decreases |bs|
  {
    var c, b := bs[..|bs| - 1], bs[|bs| - 1];
    assert bs == c + [b];
    AbsorbConcat(env, r, c, [b]);
    if c == [] {
      assert Feed(env, r, c) == r;
      assert bs == [b];
    } else {
      PayloadBytes(env, r, c);
      var r1 := Absorb(env, r, c);
      assert r1.off == r.off + |c|;
      assert Feed(env, r, c) == r1;
    }
  }

  lemma AbsorbOff<S, Z>(env: Env<S, Z>, r: Recv<S, Z>, bs: seq<byte>)
    requires |r.head| == 8 && !r.phase.InHead?
    ensures Absorb(env, r, bs).off == r.off + |bs|
  {
  }

  /** The bounds of spdylay_inbound_frame: between bytes the header is partial or the
      payload is, and a complete frame is never left lying around. */
  lemma StableStep<S, Z>(env: Env<S, Z>, r: Recv<S, Z>, b: byte)
    requires Stable(r)
    ensures Stable(ByteStep(env, r, b))
  {
    if !r.phase.InHead? {
      AbsorbConcat(env, r, [b], []);
      AbsorbOff(env, r, [b]);
    }
  }

  lemma {:induction false} FeedStable<S, Z>(env: Env<S, Z>, r: Recv<S, Z>, bs: seq<byte>)
    requires Stable(r)
    ensures Stable(Feed(env, r, bs))
    decreases |bs|
  {
    if bs != [] {
      FeedStable(env, r, bs[..|bs| - 1]);
      StableStep(env, Feed(env, r, bs[..|bs| - 1]), bs[|bs| - 1]);
    }
  }

  // ---------- the frame splitter ----------

  /** A whole frame, processed at once. */
  function WholeFrame<S, Z>(env: Env<S, Z>, s: S, z: Option<Z>, h: Head, payload: seq<byte>): (S, Option<Z>) {
    if !IsControl(h) then
      (env.onData(if env.allowed(s, StreamId(h)) then Deliver(env, s, h, payload) else s, h), z)
    else
      var large := |payload| > env.max;
      match NvOffset(h)
      case None =>
        (env.onControl(s, if large then Control(h, [], [], FRAME_TOO_LARGE) else Control(h, payload, [], 0)), z)
      case Some(nv) =>
        if |payload| <= nv then (env.onControl(s, Control(h, payload, [], 0)), z)
        else
          match Inflate(env, z, payload[nv..])
          case None => (env.onControl(s, Control(h, payload[..nv], [], ZLIB_ERROR)), None)
          case Some((z1, out)) =>
            var c := if large || |out| > env.max then Control(h, payload[..nv], [], FRAME_TOO_LARGE)
                     else Control(h, payload[..nv], out, 0);
            (env.onControl(s, c), Some(z1))
  }

  /** What an incomplete frame leaves behind: part of a header, or a header and the part of the
      payload that has been stored, delivered, inflated or ignored as a whole. */
  function Remainder<S, Z>(env: Env<S, Z>, s: S, z: Option<Z>, bs: seq<byte>): Recv<S, Z>
    requires |bs| < 8 || |bs| < 8 + PayloadLength(bs[..8])
  {
    if |bs| < 8 then Fresh(s, z).(head := bs)
    else
      var r := Classify(env, Fresh(s, z).(head := bs[..8]));
      var part, nv := bs[8..], NvStart(bs[..8]);
      if r.phase.InPreNv? then
        if |part| < nv then r.(off := |part|, body := part)
        else TakeNv(env, r.(off := |part|, body := part[..nv], phase := InNv), part[nv..])
      else Absorb(env, r, part)
  }

  /** Cut off whole frames as long as there are any, then keep the rest. */
  function Splitter<S, Z>(env: Env<S, Z>, s: S, z: Option<Z>, bs: seq<byte>): Recv<S, Z>
    decreases |bs|
  {
    if |bs| < 8 || |bs| < 8 + PayloadLength(bs[..8]) then Remainder(env, s, z, bs)
    else
      var n := 8 + PayloadLength(bs[..8]);
      var (s1, z1) := WholeFrame(env, s, z, bs[..8], bs[8..n]);
      Splitter(env, s1, z1, bs[n..])
  }

  /** One frame through the automaton is one frame processed whole. */
  lemma OneFrame<S, Z>(env: Env<S, Z>, s: S, z: Option<Z>, h: Head, payload: seq<byte>)
    requires |payload| == PayloadLength(h)
    ensures var (s1, z1) := WholeFrame(env, s, z, h, payload);
            Feed(env, Fresh(s, z), h + payload) == Fresh(s1, z1)
  {
    var r0 := Fresh(s, z);
    var r := Classify(env, r0.(head := h));
    WholeHead(env, r0, r, h);
    if payload == [] {
      assert h + payload == h;
      EmptyFrame(env, s, z, h, payload);
    } else {
      SplitIndependence(env, r0, h, payload);
      if r.phase.InPreNv? {
        NvFrame(env, s, z, h, payload);
      } else {
        PlainFrame(env, s, z, h, payload);
      }
    }
  }

  /** The header alone. */
  lemma WholeHead<S, Z>(env: Env<S, Z>, r0: Recv<S, Z>, r: Recv<S, Z>, h: Head)
    requires r0 == Fresh(r0.s, r0.z) && r == Classify(env, r0.(head := h))
    ensures Feed(env, r0, h) == if PayloadLength(h) == 0 then Finish(env, r) else r
  {
    assert r0.head + h == h;
    HeadBytes(env, r0, h);
    ClassifyLength(env, r0.(head := h));
  }

  lemma ClassifyLength<S, Z>(env: Env<S, Z>, r: Recv<S, Z>)
    requires |r.head| == 8
    ensures Classify(env, r).head == r.head && Classify(env, r).off == r.off
    ensures Classify(env, r).payloadlen == PayloadLength(r.head)
  {
  }

  /** The payload of a frame without a name/value block to inflate. */
  lemma PlainFrame<S, Z>(env: Env<S, Z>, s: S, z: Option<Z>, h: Head, payload: seq<byte>)
    requires |payload| == PayloadLength(h) && payload != []
    requires !Classify(env, Fresh(s, z).(head := h)).phase.InPreNv?
    ensures var (s1, z1) := WholeFrame(env, s, z, h, payload);
            Feed(env, Classify(env, Fresh(s, z).(head := h)), payload) == Fresh(s1, z1)
  {
    PayloadBytes(env, Classify(env, Fresh(s, z).(head := h)), payload);
    assert [] + payload == payload;
  }

  lemma EmptyFrame<S, Z>(env: Env<S, Z>, s: S, z: Option<Z>, h: Head, payload: seq<byte>)
    requires payload == [] && PayloadLength(h) == 0
    ensures var (s1, z1) := WholeFrame(env, s, z, h, payload);
            Finish(env, Classify(env, Fresh(s, z).(head := h))) == Fresh(s1, z1)
  {
  }

  lemma NvFrame<S, Z>(env: Env<S, Z>, s: S, z: Option<Z>, h: Head, payload: seq<byte>)
    requires |payload| == PayloadLength(h) && IsControl(h) && NvOffset(h).Some? && NvStart(h) < |payload|
    ensures var (s1, z1) := WholeFrame(env, s, z, h, payload);
            Feed(env, Classify(env, Fresh(s, z).(head := h)), payload) == Fresh(s1, z1)
  {
    var r := Classify(env, Fresh(s, z).(head := h));
    var pre, block := payload[..NvStart(h)], payload[NvStart(h)..];
    assert payload == pre + block;
    SplitIndependence(env, r, pre, block);
    var r1 := r.(off := |pre|, body := pre, phase := InNv);
    BeforeNv(env, r, pre);
    NvBlock(env, r1, block);
    match Inflate(env, z, block)
    case None =>
    case Some((_, out)) => assert [] + out == out;
  }

  /** The bytes before the name/value block. */
  lemma BeforeNv<S, Z>(env: Env<S, Z>, r: Recv<S, Z>, pre: seq<byte>)
    requires Stable(r) && r.phase.InPreNv? && r.off == 0 && r.body == [] && |pre| == NvStart(r.head)
    ensures Feed(env, r, pre) == TakeNv(env, r.(off := |pre|, body := pre, phase := InNv), [])
  {
    PayloadBytes(env, r, pre);
    assert [] + pre == pre;
  }

  /** The block itself. */
  lemma NvBlock<S, Z>(env: Env<S, Z>, r: Recv<S, Z>, block: seq<byte>)
    requires Stable(r) && r.phase.InNv? && r.off + |block| == r.payloadlen
    ensures Feed(env, TakeNv(env, r, []), block) == Finish(env, TakeNv(env, r.(off := r.payloadlen), block))
  {
    NvBlockFrom(env, r, TakeNv(env, r, []), block);
  }

  lemma NvBlockFrom<S, Z>(env: Env<S, Z>, r: Recv<S, Z>, r1: Recv<S, Z>, block: seq<byte>)
    requires Stable(r) && r.phase.InNv? && r.off + |block| == r.payloadlen && r1 == TakeNv(env, r, [])
    ensures Feed(env, r1, block) == Finish(env, TakeNv(env, r.(off := r.payloadlen), block))
  {
    PayloadBytes(env, r1, block);
    TakeNvKeeps(env, r1.(off := r.payloadlen), block);
    TakeNvFrom(env, r, r1, r.payloadlen, block);
  }

  lemma TakeNvKeeps<S, Z>(env: Env<S, Z>, r: Recv<S, Z>, bs: seq<byte>)
    ensures var t := TakeNv(env, r, bs);
      t.phase == r.phase && t.head == r.head && t.off == r.off && t.payloadlen == r.payloadlen
  {
  }

  lemma TakeNvFrom<S, Z>(env: Env<S, Z>, r: Recv<S, Z>, r1: Recv<S, Z>, o: nat, block: seq<byte>)
    requires r1 == TakeNv(env, r, [])
    ensures TakeNv(env, r1.(off := o), block) == TakeNv(env, r.(off := o), block)
  {
    TakeNvOff(env, r, [], o);
    TakeNvConcat(env, r.(off := o), [], block);
    assert [] + block == block;
  }

  /** An incomplete frame leaves the automaton as described. */
  lemma LeavesRemainder<S, Z>(env: Env<S, Z>, s: S, z: Option<Z>, bs: seq<byte>)
    requires |bs| < 8 || |bs| < 8 + PayloadLength(bs[..8])
    ensures Feed(env, Fresh(s, z), bs) == Remainder(env, s, z, bs)
  {
    var r0 := Fresh(s, z);
    if |bs| < 8 {
      PartialHead(env, r0, bs);
    } else {
      var r := Classify(env, r0.(head := bs[..8]));
      assert bs == bs[..8] + bs[8..];
      BehindHead(env, r0, r, bs[..8], bs[8..], bs);
      ClassifyStable(env, r0, r, bs[..8]);
      PartialPayload(env, r, bs[8..]);
    }
  }

  lemma BehindHead<S, Z>(env: Env<S, Z>, r0: Recv<S, Z>, r: Recv<S, Z>, h: Head, part: seq<byte>, bs: seq<byte>)
    requires r0 == Fresh(r0.s, r0.z) && r == Classify(env, r0.(head := h)) && bs == h + part && PayloadLength(h) > 0
    ensures Feed(env, r0, bs) == Feed(env, r, part)
  {
    WholeHead(env, r0, r, h);
    SplitIndependence(env, r0, h, part);
  }

  lemma ClassifyStable<S, Z>(env: Env<S, Z>, r0: Recv<S, Z>, r: Recv<S, Z>, h: Head)
    requires r0 == Fresh(r0.s, r0.z) && r == Classify(env, r0.(head := h)) && PayloadLength(h) > 0
    ensures Stable(r) && !r.phase.InHead? && !r.phase.InNv? && r.off == 0 && r.body == []
    ensures r.head == h && r.payloadlen == PayloadLength(h)
  {
  }

  lemma PartialHead<S, Z>(env: Env<S, Z>, r0: Recv<S, Z>, bs: seq<byte>)
    requires r0 == Fresh(r0.s, r0.z) && |bs| < 8
    ensures Feed(env, r0, bs) == r0.(head := bs)
  {
    if bs == [] {
      assert Feed(env, r0, bs) == r0;
    } else {
      HeadBytes(env, r0, bs);
      assert r0.head + bs == bs;
    }
  }

  /** Part of a payload, from the state behind the header. */
  lemma PartialPayload<S, Z>(env: Env<S, Z>, r: Recv<S, Z>, part: seq<byte>)
    requires Stable(r) && !r.phase.InHead? && !r.phase.InNv? && r.off == 0 && r.body == [] && |part| < r.payloadlen
    ensures Feed(env, r, part) ==
      if r.phase.InPreNv? then
        if |part| < NvStart(r.head) then r.(off := |part|, body := part)
        else TakeNv(env, r.(off := |part|, body := part[..NvStart(r.head)], phase := InNv), part[NvStart(r.head)..])
      else Absorb(env, r, part)
  {
    assert r.body + part == part;
    if part == [] {
      assert Feed(env, r, part) == r;
      AbsorbNothing(env, r);
    } else if !r.phase.InPreNv? || |part| < NvStart(r.head) {
      PayloadBytes(env, r, part);
      AbsorbOff(env, r, part);
    } else {
      var nv := NvStart(r.head);
      assert part == part[..nv] + part[nv..];
      PartialNv(env, r, part[..nv], part[nv..], part);
    }
  }

  lemma AbsorbNothing<S, Z>(env: Env<S, Z>, r: Recv<S, Z>)
    requires |r.head| == 8 && !r.phase.InNv?
    ensures Absorb(env, r, []) == r
  {
    assert r.body + [] == r.body;
  }

  /** Everything before the name/value block and part of it. */
  lemma PartialNv<S, Z>(env: Env<S, Z>, r: Recv<S, Z>, pre: seq<byte>, block: seq<byte>, part: seq<byte>)
    requires Stable(r) && r.phase.InPreNv? && r.off == 0 && r.body == []
    requires part == pre + block && |pre| == NvStart(r.head) && |part| < r.payloadlen
    ensures Feed(env, r, part) == TakeNv(env, r.(off := |part|, body := pre, phase := InNv), block)
  {
    var r1 := r.(off := |pre|, body := pre, phase := InNv);
    var t := TakeNv(env, r1, []);
    BeforeNv(env, r, pre);
    JoinNv(env, r, t, pre, block, part);
    PartialBlock(env, r1, t, block);
  }

  lemma JoinNv<S, Z>(env: Env<S, Z>, r: Recv<S, Z>, t: Recv<S, Z>, pre: seq<byte>, block: seq<byte>, part: seq<byte>)
    requires Feed(env, r, pre) == t && part == pre + block
    ensures Feed(env, r, part) == Feed(env, t, block)
  {
    SplitIndependence(env, r, pre, block);
  }

  lemma PartialBlock<S, Z>(env: Env<S, Z>, r: Recv<S, Z>, r1: Recv<S, Z>, block: seq<byte>)
    requires Stable(r) && r.phase.InNv? && r.off + |block| < r.payloadlen && r1 == TakeNv(env, r, [])
    ensures Feed(env, r1, block) == TakeNv(env, r.(off := r.off + |block|), block)
  {
    TakeNvKeeps(env, r, []);
    if block == [] {
      assert Feed(env, r1, block) == r1;
    } else {
      PayloadBytes(env, r1, block);
      TakeNvKeeps(env, r1.(off := r.off + |block|), block);
      TakeNvFrom(env, r, r1, r.off + |block|, block);
    }
  }

  /** For every byte string, the automaton does what the frame splitter does. */
  lemma {:induction false} AutomatonIsSplitter<S, Z>(env: Env<S, Z>, s: S, z: Option<Z>, bs: seq<byte>)
    ensures Feed(env, Fresh(s, z), bs) == Splitter(env, s, z, bs)
    decreases |bs|
  {
    if |bs| < 8 || |bs| < 8 + PayloadLength(bs[..8]) {
      LeavesRemainder(env, s, z, bs);
    } else {
      var n := 8 + PayloadLength(bs[..8]);
      var (s1, z1) := WholeFrame(env, s, z, bs[..8], bs[8..n]);
      OneFrame(env, s, z, bs[..8], bs[8..n]);
      assert bs[..8] + bs[8..n] == bs[..n];
      SplitIndependence(env, Fresh(s, z), bs[..n], bs[n..]);
      assert bs[..n] + bs[n..] == bs;
      AutomatonIsSplitter(env, s1, z1, bs[n..]);
    }
  }
}
