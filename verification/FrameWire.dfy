/** Frames as a peer writes them (spdylay_frame_pack_ctrl_hd, spdylay_session_pack_data and the
    fixed fields of the packing functions), and what the receiver makes of their bytes. */
module FrameWire {
  import opened Base
  import opened HeaderWire
  import opened FrameReceiver
  import opened InboundFrame

  datatype WireFrame =
    | ControlFrame(version: nat, kind: nat, flags: byte, payload: seq<byte>)
    | DataFrame(id: nat, flags: byte, payload: seq<byte>)
  {
    /** Every field fits its place. */
    predicate Fits() {
      |payload| < 0x100_0000 && if ControlFrame? then version < 0x8000 && kind < 0x1_0000 else id < 0x8000_0000
    }
  }

  const SYN_STREAM: nat := 1
  const SYN_REPLY: nat := 2
  const HEADERS: nat := 8

  /** The first bit tells a control frame; numbers are in network order, the length on 24 bits. */
  function Header(f: WireFrame): seq<byte> {
    (if f.ControlFrame? then Word(0x8000 + f.version, 2) + Word(f.kind, 2) else Word(f.id, 4))
      + [f.flags] + Word(|f.payload|, 3)
  }

  function Bytes(fs: seq<WireFrame>): seq<byte> {
    if fs == [] then [] else Header(fs[0]) + fs[0].payload + Bytes(fs[1..])
  }

  predicate AllFit(fs: seq<WireFrame>) {
    forall f <- fs :: f.Fits()
  }

  // ---------- reading a header ----------

  lemma Two(s: seq<byte>)
    requires |s| == 2
    ensures Number(s) == s[0] as int * 256 + s[1]
  {
    var one := s[..1];
    assert one[..0] == [] && Number(one) == 256 * Number(one[..0]) + one[0];
  }

  lemma Three(s: seq<byte>)
    requires |s| == 3
    ensures Number(s) == s[0] as int * 0x1_0000 + s[1] as int * 256 + s[2]
  {
    Two(s[..2]);
  }

  lemma Four(s: seq<byte>)
    requires |s| == 4
    ensures Number(s) == s[0] as int * 0x100_0000 + s[1] as int * 0x1_0000 + s[2] as int * 256 + s[3]
  {
    Three(s[..3]);
  }

  lemma Bounds()
    ensures Bound(2) == 0x1_0000 && Bound(3) == 0x100_0000 && Bound(4) == 0x1_0000_0000
  {
  }

  /** The receiver reads from a header what was written to it. */
  lemma HeaderRead(f: WireFrame)
    requires f.Fits()
    ensures |Header(f)| == 8
    ensures var h := Header(f);
      && h[4] == f.flags && PayloadLength(h) == |f.payload| && (IsControl(h) <==> f.ControlFrame?)
      && if f.ControlFrame? then Version(h) == f.version && FrameType(h) == f.kind else StreamId(h) == f.id
  {
    var h := Header(f);
    Bounds();
    WordNumber(|f.payload|, 3);
    assert h[5..8] == Word(|f.payload|, 3);
    Three(h[5..8]);
    if f.ControlFrame? {
      ControlRead(f, h);
    } else {
      WordNumber(f.id, 4);
      assert h[..4] == Word(f.id, 4);
      Four(h[..4]);
    }
  }

  lemma ControlRead(f: WireFrame, h: seq<byte>)
    requires f.ControlFrame? && f.Fits() && |h| == 8 && h[..4] == Word(0x8000 + f.version, 2) + Word(f.kind, 2)
    ensures IsControl(h) && Version(h) == f.version && FrameType(h) == f.kind
  {
    Bounds();
    WordNumber(0x8000 + f.version, 2);
    WordNumber(f.kind, 2);
    assert h[..4][..2] == Word(0x8000 + f.version, 2) && h[..4][2..] == Word(f.kind, 2);
    Two(h[..4][..2]);
    Two(h[..4][2..]);
    TopBit(h[0], h[1], f.version);
  }

  lemma TopBit(a: byte, b: byte, v: nat)
    requires a as int * 256 + b == 0x8000 + v && v < 0x8000
    ensures a >= 128 && a as int % 128 * 256 + b == v
  {
  }

  // ---------- frames with a name/value block ----------

  function Sum(xs: seq<nat>): nat {
    if xs == [] then 0 else xs[0] + Sum(xs[1..])
  }

  /** The widths of the fields before the name/value block: the stream ID; in SYN_STREAM the
      associated stream ID, priority and slot; in SPDY/2 answers two unused bytes. */
  function FixedFields(version: nat, kind: nat): Option<seq<nat>> {
    if kind == SYN_STREAM then Some([4, 4, 1, 1])
    else if kind == SYN_REPLY || kind == HEADERS then
      if version == 2 then Some([4, 2]) else if version == 3 then Some([4]) else None
    else None
  }

  /** The receiver looks for the block right behind them. */
  lemma BlockBehindFields(f: WireFrame)
    requires f.ControlFrame? && f.Fits()
    ensures |Header(f)| == 8
    ensures NvOffset(Header(f)) ==
      match FixedFields(f.version, f.kind) case None => None case Some(widths) => Some(Sum(widths))
  {
    HeaderRead(f);
    assert [4, 4, 1, 1][1..] == [4, 1, 1] && [4, 1, 1][1..] == [1, 1] && [1, 1][1..] == [1] && [1][1..] == [];
    assert [4, 2][1..] == [2] && [2][1..] == [] && [4][1..] == [];
  }

  // ---------- what is handed over ----------

  /** One frame: DATA of a stream that may receive it byte by byte and then as a whole; a control
      frame with its block inflated, or with the error for what is too large or does not inflate. */
  function Handled<S, Z>(env: Env<S, Z>, s: S, z: Option<Z>, f: WireFrame): (S, Option<Z>)
    requires |Header(f)| == 8
  {
    var h, n := Header(f), |f.payload|;
    if f.DataFrame? then
      (env.onData(if env.allowed(s, f.id) then Deliver(env, s, h, f.payload) else s, h), z)
    else
      match FixedFields(f.version, f.kind)
      case Some(widths) =>
        var at := Sum(widths);
        if n <= at then (env.onControl(s, Control(h, f.payload, [], 0)), z)
        else WithBlock(env, s, z, h, f.payload[..at], f.payload[at..], n > env.max)
      case None =>
        (env.onControl(s, if n > env.max then Control(h, [], [], FRAME_TOO_LARGE) else Control(h, f.payload, [], 0)), z)
  }

  function WithBlock<S, Z>(env: Env<S, Z>, s: S, z: Option<Z>, h: Head, fields: seq<byte>, block: seq<byte>, large: bool): (S, Option<Z>) {
    match Inflate(env, z, block)
    case None => (env.onControl(s, Control(h, fields, [], ZLIB_ERROR)), None)
    case Some((z1, out)) =>
      (env.onControl(s, if large || |out| > env.max then Control(h, fields, [], FRAME_TOO_LARGE) else Control(h, fields, out, 0)), Some(z1))
  }

  lemma WholeIsHandled<S, Z>(env: Env<S, Z>, s: S, z: Option<Z>, f: WireFrame)
    requires f.Fits()
    ensures |Header(f)| == 8 && WholeFrame(env, s, z, Header(f), f.payload) == Handled(env, s, z, f)
  {
    HeaderRead(f);
    if f.ControlFrame? {
      BlockBehindFields(f);
    }
  }

  /** Frames one after the other. */
  function HandledAll<S, Z>(env: Env<S, Z>, s: S, z: Option<Z>, fs: seq<WireFrame>): (S, Option<Z>)
    requires AllFit(fs)
    decreases fs
  {
    if fs == [] then (s, z)
    else
      HeaderRead(fs[0]);
      var (s1, z1) := Handled(env, s, z, fs[0]);
      HandledAll(env, s1, z1, fs[1..])
  }

  /** The bytes of whole frames are cut where they were put together. */
  lemma {:induction false} FramesArrive<S, Z>(env: Env<S, Z>, s: S, z: Option<Z>, fs: seq<WireFrame>)
    requires AllFit(fs)
    ensures var (s1, z1) := HandledAll(env, s, z, fs); Splitter(env, s, z, Bytes(fs)) == Fresh(s1, z1)
    decreases fs
  {
    if fs == [] {
      assert Bytes(fs) == [];
    } else {
      var f, bs := fs[0], Bytes(fs);
      HeaderRead(f);
      var n := 8 + |f.payload|;
      assert bs[..8] == Header(f) && bs[8..n] == f.payload && bs[n..] == Bytes(fs[1..]);
      WholeIsHandled(env, s, z, f);
      var (s1, z1) := Handled(env, s, z, f);
      FramesArrive(env, s1, z1, fs[1..]);
    }
  }

  /** However the bytes of frames are cut into calls of spdylay_session_mem_recv, each frame is
      handled once, in order, and the receiver is ready for the next. */
  method ReceiveFrames<S(!new), Z(!new)>(r: Inbound<S, Z>, fs: seq<WireFrame>, pieces: seq<seq<byte>>)
    requires r.Valid() && r.View() == Fresh(r.session, r.inflater) && AllFit(fs) && Concat(pieces) == Bytes(fs)
    modifies r, r.headbuf
    ensures r.Valid()
    ensures var (s, z) := HandledAll(r.env, old(r.session), old(r.inflater), fs); r.View() == Fresh(s, z)
  {
    FramesArrive(r.env, r.session, r.inflater, fs);
    r.MemRecvAll(pieces);
  }

  // ---------- nothing but those frames ----------

  /** What has been handed over: frames, and the bytes of the DATA frame under way. */
  type Record = (seq<(Head, seq<byte>)>, seq<byte>)

  /** A session that takes everything down, and a block that inflates to itself. */
  function Recorder(max: nat): Env<Record, bool> {
    Env(max, (s, id) => true,
        (s: Record, c: Control) => (s.0 + [(c.head, c.body + c.inflated)], s.1),
        (s: Record, h, b) => (s.0, s.1 + [b]),
        (s: Record, h) => (s.0 + [(h, s.1)], []),
        (z, b) => Some((z, [b])))
  }

  function Frames(fs: seq<WireFrame>): seq<(Head, seq<byte>)>
    requires AllFit(fs)
  {
    if fs == [] then []
    else
      HeaderRead(fs[0]);
      [(Header(fs[0]), fs[0].payload)] + Frames(fs[1..])
  }

  lemma {:induction false} InflatesToItself(max: nat, bs: seq<byte>)
    ensures Inflate(Recorder(max), Some(true), bs) == Some((true, bs))
    decreases |bs|
  {
    if bs != [] {
      InflatesToItself(max, bs[..|bs| - 1]);
      assert bs == bs[..|bs| - 1] + [bs[|bs| - 1]];
    }
  }

  lemma {:induction false} DeliversAll(max: nat, s: Record, h: Head, bs: seq<byte>)
    ensures Deliver(Recorder(max), s, h, bs) == (s.0, s.1 + bs)
    decreases |bs|
  {
    if bs == [] {
      assert s.1 + bs == s.1;
    } else {
      DeliversAll(max, s, h, bs[..|bs| - 1]);
      assert s.1 + bs == s.1 + bs[..|bs| - 1] + [bs[|bs| - 1]];
    }
  }

  lemma OneRecorded(max: nat, done: seq<(Head, seq<byte>)>, f: WireFrame)
    requires f.Fits() && |f.payload| <= max
    ensures |Header(f)| == 8 && Handled(Recorder(max), (done, []), Some(true), f) == ((done + [(Header(f), f.payload)], []), Some(true))
  {
    HeaderRead(f);
    var none: seq<byte> := [];
    if f.DataFrame? {
      DeliversAll(max, (done, none), Header(f), f.payload);
      assert none + f.payload == f.payload;
    } else {
      assert f.payload + none == f.payload;
      if FixedFields(f.version, f.kind).Some? && Sum(FixedFields(f.version, f.kind).value) < |f.payload| {
        var at := Sum(FixedFields(f.version, f.kind).value);
        InflatesToItself(max, f.payload[at..]);
        assert f.payload[..at] + f.payload[at..] == f.payload;
      }
    }
  }

  /** Exactly the frames sent are handed over, in order, with their payloads. */
  lemma {:induction false} ExactlyTheFrames(max: nat, done: seq<(Head, seq<byte>)>, fs: seq<WireFrame>)
    requires AllFit(fs) && forall f <- fs :: |f.payload| <= max
    ensures HandledAll(Recorder(max), (done, []), Some(true), fs) == ((done + Frames(fs), []), Some(true))
    decreases fs
  {
    if fs == [] {
      assert done + Frames(fs) == done;
    } else {
      HeaderRead(fs[0]);
      var first := (Header(fs[0]), fs[0].payload);
      FirstRecorded(max, done, fs, done + [first]);
      ExactlyTheFrames(max, done + [first], fs[1..]);
      FramesCons(done, fs);
    }
  }

  lemma FirstRecorded(max: nat, done: seq<(Head, seq<byte>)>, fs: seq<WireFrame>, more: seq<(Head, seq<byte>)>)
    requires AllFit(fs) && fs != [] && |fs[0].payload| <= max
    requires |Header(fs[0])| == 8 && more == done + [(Header(fs[0]), fs[0].payload)]
    ensures HandledAll(Recorder(max), (done, []), Some(true), fs) == HandledAll(Recorder(max), (more, []), Some(true), fs[1..])
  {
    OneRecorded(max, done, fs[0]);
  }

  lemma FramesCons(done: seq<(Head, seq<byte>)>, fs: seq<WireFrame>)
    requires AllFit(fs) && fs != [] && |Header(fs[0])| == 8
    ensures done + Frames(fs) == done + [(Header(fs[0]), fs[0].payload)] + Frames(fs[1..])
  {
  }
}
