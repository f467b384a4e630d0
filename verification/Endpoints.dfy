/** Two sessions and the two wires between them, for one stream on which `a` sends DATA and `b`
    receives it. Everything else that may happen to either session, including frames of other
    streams in both directions, is arbitrary. */
module Endpoints {
  import opened Base
  import opened SessionTypes
  import opened SessionInvariant
  import opened SessionMoves
  import opened SessionCore
  import opened SessionSend
  import opened SessionReceive
  import opened SessionRuns
  import opened Ports
  import opened FlowSession
  import FC = FlowControl

  /** The wires hold what flow control is about: the payload sizes of the stream's DATA frames,
      and WINDOW_UPDATE frames of the stream and SETTINGS frames with an initial window size. */
  datatype Pair = Pair(a: Session, b: Session, data: seq<nat>, ctl: seq<Frame>,
    /** History: the stream has been opened at `a`, and at `b`. */
    atA: bool, atB: bool)

  datatype Move =
    | AtA(i: Input)      // anything at the sender that does not come off the control wire
    | AtB(i: Input)      // anything at the receiver but the header of a DATA frame of the stream
    | DataArrives        // that header
    | ControlArrives     // the next frame off the control wire

  /** Packing a WINDOW_UPDATE or SETTINGS frame fails only for lack of memory. */
  predicate Packable(s: Session, packed: Option<nat>, id: int)
    requires s.hand.None? && s.active.None?
  {
    PopNext(s).hand.Some? && Meaning(PopNext(s).hand.value.frame, id).Some? ==> packed.Some?
  }

  /** Frames of the stream arrive behind the one that opens it at that end. */
  ghost predicate Allowed(p: Pair, id: StreamId, m: Move)
    requires p.a.hand.None? && p.b.hand.None?
  {
    match m
    case AtA(i) => !(i.RecvWindowUpdate? && i.id == id) && !(i.RecvSettings? && HasWindow(i.entries))
    case AtB(i) =>
      && !(i.RecvDataHead? && i.id == id)
      && (i.SubmitWindowUpdate? ==> i.amount <= INT32_MAX)
      && (i.SubmitSettings? ==> 0 <= Lookup(i.entries, SETTINGS_INITIAL_WINDOW_SIZE, 0) <= INT32_MAX)
      && (i.PullItem? && p.b.active.None? ==> Packable(p.b, i.packed, id))
    case DataArrives => p.data != [] && p.b.receiving.None? && DataAllowed(p.b, id)
    case ControlArrives => p.ctl != [] && p.a.receiving.None? && (p.ctl[0].WindowUpdate? ==> id in p.a.streams)
  }

  /** The frame in the buffer goes out with this input. */
  predicate Completes(s: Session, i: Input) {
    i.PushBytes? && s.active.Some? && s.active.value.offset + i.sent == s.active.value.length
  }

  predicate SendsData(s: Session, id: int) {
    s.active.Some? && s.active.value.item.frame.Data? && s.active.value.item.frame.id == id
  }

  /** A DATA frame of the stream is in the buffer only while the stream is open. */
  predicate SendsOpen(s: Session, id: int) {
    SendsData(s, id) ==> id in s.streams
  }

  function DataOut(s: Session, i: Input, id: int): seq<nat> {
    if Completes(s, i) && SendsData(s, id) && s.active.value.length >= 8 then [s.active.value.length - 8] else []
  }

  function ControlOut(s: Session, i: Input, id: int): seq<Frame> {
    if Completes(s, i) && Meaning(s.active.value.item.frame, id).Some? then [s.active.value.item.frame] else []
  }

  function Arrival(f: Frame, id: StreamId): Input {
    match f
    case WindowUpdate(_, d) => if 0 <= d <= INT32_MAX then RecvWindowUpdate(id, d) else RecvMalformed
    case Settings(entries) => RecvSettings(entries)
    case _ => RecvMalformed
  }

  ghost function Next(p: Pair, id: StreamId, m: Move): (r: Pair)
    requires p.a.hand.None? && p.b.hand.None? && Allowed(p, id, m)
    ensures r.a.hand.None? && r.b.hand.None?
    ensures Inv(p.a) && Inv(p.b) ==> Inv(r.a) && Inv(r.b)
  {
    match m
    case AtA(i) => WithA(p.(data := p.data + DataOut(p.a, i, id)), Step(p.a, i), id)
    case AtB(i) => WithB(p.(ctl := p.ctl + ControlOut(p.b, i, id)), Step(p.b, i), id)
    case DataArrives => WithB(p.(data := p.data[1..]), Step(p.b, RecvDataHead(id, false, p.data[0])), id)
    case ControlArrives => WithA(p.(ctl := p.ctl[1..]), Step(p.a, Arrival(p.ctl[0], id)), id)
  }

  function WithA(p: Pair, a: Session, id: int): Pair {
    p.(a := a, atA := p.atA || id in a.streams)
  }

  function WithB(p: Pair, b: Session, id: int): Pair {
    p.(b := b, atB := p.atB || id in b.streams)
  }

  /** Once open at an end, the stream is neither FIN'd nor reset there. */
  predicate Live(p: Pair, id: StreamId) {
    && p.a.flowControl && p.b.flowControl && (p.atA ==> id in p.a.streams) && (p.atB ==> Undisturbed(p.b, id))
    && NoFin(p.a, id) && (Started(p.b, id) != [] ==> DataAllowed(p.b, id))
  }

  predicate Undisturbed(s: Session, id: int) {
    id in s.streams && !s.streams[id].shutRd && !s.streams[id].state.Closing?
  }

  predicate NoFin(s: Session, id: int) {
    SendsData(s, id) ==> s.active.value.length == s.active.value.word + 8
  }

  // ---------- the protocol behind it ----------

  function Meanings(fs: seq<Frame>, id: int): seq<FC.Control> {
    if fs == [] then [] else AsSeq(Meaning(fs[0], id)) + Meanings(fs[1..], id)
  }

  ghost predicate QueueMatches(outq: seq<FC.Control>, waiting: seq<FC.Control>) {
    multiset(outq) == multiset(waiting) && SettingsOf(outq) == SettingsOf(waiting)
  }

  predicate OnlySettings(cs: seq<FC.Control>) {
    forall c <- cs :: c.Setting?
  }

  /** `n` is the protocol state of the stream. */
  ghost predicate Matches(n: FC.Net, p: Pair, id: StreamId) {
    && Sends(n, p.a, id) && Receives(n, p.b, id)
    && n.dataWire == Started(p.b, id) + p.data
    && (p.b.receiving.Some? && p.b.receiving.value.id == id ==> !p.b.receiving.value.ignored && !p.b.receiving.value.fin)
    && n.ctlWire == Meanings(p.ctl, id) && (forall f <- p.ctl :: Meaning(f, id).Some?)
    && QueueMatches(n.outq, Waiting(p.b, id)) && (id !in p.b.streams ==> OnlySettings(n.outq))
    && (id in p.a.streams ==> p.atA) && (id in p.b.streams ==> p.atB) && SendsOpen(p.a, id)
    && p.a.hand.None? && p.b.hand.None? && Inv(p.a) && Inv(p.b)
  }

  // ---------- the receiver's queue ----------

  /** The first announcement in `cs` is at `i`. */
  ghost predicate FirstAt(cs: seq<FC.Control>, i: nat) {
    i < |cs| && cs[i].Setting? && forall j :: 0 <= j < i ==> cs[j].Credit?
  }

  lemma {:induction false} FirstSetting(cs: seq<FC.Control>) returns (i: nat)
    requires SettingsOf(cs) != []
    ensures FirstAt(cs, i)
  {
    if cs[0].Setting? {
      i := 0;
    } else {
      var k := FirstSetting(cs[1..]);
      i := k + 1;
      assert forall j :: 0 < j <= i ==> cs[j] == cs[1..][j - 1];
    }
  }

  lemma {:induction false} NoSettings(cs: seq<FC.Control>)
    requires forall j :: 0 <= j < |cs| ==> cs[j].Credit?
    ensures SettingsOf(cs) == []
  {
    if cs != [] {
      NoSettings(cs[1..]);
    }
  }

  lemma SettingGone(cs: seq<FC.Control>, i: nat)
    requires FirstAt(cs, i)
    ensures SettingsOf(cs) == [cs[i].value] + SettingsOf(cs[..i] + cs[i + 1..])
  {
    var front, rest := cs[..i], cs[i + 1..];
    assert cs == front + ([cs[i]] + rest);
    NoSettings(front);
    SettingsConcat(front, [cs[i]] + rest);
    SettingsConcat(front, rest);
    SettingsCons(cs[i], rest);
  }

  lemma {:induction false} CreditGone(cs: seq<FC.Control>, i: nat)
    requires i < |cs| && cs[i].Credit?
    ensures SettingsOf(cs[..i] + cs[i + 1..]) == SettingsOf(cs)
  {
    assert cs == cs[..i] + ([cs[i]] + cs[i + 1..]);
    SettingsConcat(cs[..i], cs[i + 1..]);
    SettingsConcat(cs[..i], [cs[i]] + cs[i + 1..]);
  }

  lemma SettingsCons(c: FC.Control, rest: seq<FC.Control>)
    ensures SettingsOf([c] + rest) == (if c.Setting? then [c.value] else []) + SettingsOf(rest)
  {
    assert ([c] + rest)[1..] == rest;
  }

  /** The next waiting frame can be transmitted. */
  lemma TransmitFirst(outq: seq<FC.Control>, c: FC.Control, rest: seq<FC.Control>) returns (i: nat)
    requires QueueMatches(outq, [c] + rest)
    ensures i < |outq| && outq[i] == c && (c.Setting? ==> forall j :: 0 <= j < i ==> outq[j].Credit?)
    ensures QueueMatches(outq[..i] + outq[i + 1..], rest)
  {
    SettingsCons(c, rest);
    if c.Setting? {
      i := TransmitSetting(outq, c, rest);
    } else {
      i := CreditIn(outq, c, rest);
      CreditGone(outq, i);
    }
    WithoutOne(outq, i, c, rest);
  }

  lemma TransmitSetting(outq: seq<FC.Control>, c: FC.Control, rest: seq<FC.Control>) returns (i: nat)
    requires c.Setting? && SettingsOf(outq) == [c.value] + SettingsOf(rest)
    ensures FirstAt(outq, i) && outq[i] == c && SettingsOf(outq[..i] + outq[i + 1..]) == SettingsOf(rest)
  {
    i := FirstSetting(outq);
    SettingGone(outq, i);
    SameCons(outq[i].value, SettingsOf(outq[..i] + outq[i + 1..]), c.value, SettingsOf(rest));
  }

  lemma SameCons(x: int, xs: seq<int>, y: int, ys: seq<int>)
    requires [x] + xs == [y] + ys
    ensures x == y && xs == ys
  {
    assert ([x] + xs)[0] == x && ([x] + xs)[1..] == xs && ([y] + ys)[0] == y && ([y] + ys)[1..] == ys;
  }

  lemma CreditIn(outq: seq<FC.Control>, c: FC.Control, rest: seq<FC.Control>) returns (i: nat)
    requires multiset(outq) == multiset([c] + rest)
    ensures i < |outq| && outq[i] == c
  {
    assert ([c] + rest)[0] in multiset(outq);
    i :| 0 <= i < |outq| && outq[i] == c;
  }

  lemma WithoutOne(outq: seq<FC.Control>, i: nat, c: FC.Control, rest: seq<FC.Control>)
    requires i < |outq| && outq[i] == c && multiset(outq) == multiset([c] + rest)
    ensures multiset(outq[..i] + outq[i + 1..]) == multiset(rest)
  {
    assert outq == outq[..i] + [c] + outq[i + 1..];
    assert multiset([c] + rest) == multiset{c} + multiset(rest);
    assert multiset(outq[..i] + [c] + outq[i + 1..]) == multiset{c} + multiset(outq[..i] + outq[i + 1..]);
    CancelOne(c, multiset(rest), multiset(outq[..i] + outq[i + 1..]));
  }

  lemma CancelOne(c: FC.Control, a: multiset<FC.Control>, b: multiset<FC.Control>)
    requires multiset{c} + a == multiset{c} + b
    ensures a == b
  {
    assert a == multiset{c} + a - multiset{c};
    assert b == multiset{c} + b - multiset{c};
  }

  // ---------- the sender ----------

  /** The sending side of `id` has not moved. */
  predicate OutStill(s: Session, r: Session, id: int) {
    && r.flowControl == s.flowControl && r.active == s.active && r.cfg.remoteInit == s.cfg.remoteInit
    && (Stays(s, r, id) ==> WindowOf(r, id) == WindowOf(s, id))
  }

  lemma CountOut(s: Session, id: int, n: nat)
    ensures OutStill(s, CountReceived(s, id, n), id)
    ensures CountReceived(s, id, n).streams.Keys == s.streams.Keys
  {
  }

  lemma BytesOut(s: Session, n: nat, id: int)
    requires s.receiving.Some? && n <= s.receiving.value.remaining && s.receiving.value.id == id
    ensures OutStill(s, DataBytes(s, n), id)
  {
    var b := s.receiving.value;
    var s1 := if b.ignored then s else s.(log := s.log + [Chunk(b.id, n)]);
    CountOut(s1, b.id, n);
    var s2 := if s.flowControl && !b.ignored && n > 0 && (b.remaining - n > 0 || !b.fin) then CountReceived(s1, b.id, n) else s1;
    if b.remaining == n {
      DataStill(s2.(receiving := None), b.id, b.fin, id);
    }
  }

  lemma HeadOut(s: Session, id: StreamId, fin: bool, length: nat)
    requires s.receiving.None?
    ensures OutStill(s, DataHead(s, id, fin, length), id)
  {
    var s1 := s.(receiving := Some(Inbound(id, fin, !DataAllowed(s, id), length)));
    if length == 0 {
      BytesOut(s1, 0, id);
    }
  }

  lemma CallOut(s: Session, i: Input, id: StreamId)
    requires s.hand.None? && (i.SubmitSettings? || i.SetNoAutoWindowUpdate? || (i.SubmitWindowUpdate? && i.id == id))
    ensures OutStill(s, Step(s, i), id)
  {
  }

  /** Whatever the sender does apart from sending, and whatever it receives that does not come
      off the control wire, its window stays. */
  lemma OtherAtA(s: Session, i: Input, id: StreamId)
    requires Inv(s) && s.hand.None? && !i.PullItem? && !i.PushBytes?
    requires !(i.RecvWindowUpdate? && i.id == id) && !(i.RecvSettings? && HasWindow(i.entries))
    ensures OutStill(s, Step(s, i), id)
  {
    if !Special(s, i, id) {
      StepStill(s, i, id);
    } else if IsCall(i) {
      CallOut(s, i, id);
    } else if i.RecvSettings? {
      SettingsDone(s, i.entries, {}, id);
    } else if i.RecvDataHead? {
      if s.receiving.None? {
        HeadOut(s, i.id, i.fin, i.length);
      }
    } else if i.count <= s.receiving.value.remaining {
      BytesOut(s, i.count, id);
    }
  }

  lemma Nothing(n: FC.Net)
    ensures FC.CanRun(n, []) && FC.Run(n, []) == n
    ensures FC.Prudent(n, []) && FC.WholeFrames(n, []) && FC.NeverLowered(n, []) && FC.StaysAuto([])
  {
  }

  lemma One(n: FC.Net, e: FC.Event)
    requires FC.Enabled(n, e)
    ensures FC.CanRun(n, [e]) && FC.Run(n, [e]) == FC.Step(n, e)
    ensures FC.Prudent(n, [e]) <==> (e.GrantCredit? ==> e.delta <= n.recv)
    ensures FC.WholeFrames(n, [e]) <==> (e.SendCall? ==> e.sent == n.pending.payload + 8)
    ensures FC.NeverLowered(n, [e]) <==> (e.ChangeInit? ==> e.value >= n.localInit)
    ensures FC.StaysAuto([e]) <==> (e.Switch? ==> e.on)
  {
    assert [e][1..] == [];
    Nothing(FC.Step(n, e));
  }

  lemma Two(n: FC.Net, e: FC.Event, f: FC.Event)
    requires FC.Enabled(n, e) && FC.Enabled(FC.Step(n, e), f) && e.SendCall? && f.Pack?
    ensures FC.CanRun(n, [e, f]) && FC.Run(n, [e, f]) == FC.Step(FC.Step(n, e), f)
    ensures FC.Prudent(n, [e, f]) && FC.NeverLowered(n, [e, f]) && FC.StaysAuto([e, f])
    ensures FC.WholeFrames(n, [e, f]) <==> e.sent == n.pending.payload + 8
  {
    assert [e, f][1..] == [f];
    One(FC.Step(n, e), f);
  }

  /** Only the sending half of the protocol state has moved. */
  predicate SenderMoved(n: FC.Net, r: FC.Net) {
    r == n.(window := r.window, remoteInit := r.remoteInit, pending := r.pending, dataWire := r.dataWire, lost := r.lost)
  }

  /** What the sender does is a sequence of protocol steps. */
  ghost predicate SenderRuns(n: FC.Net, es: seq<FC.Event>, r: Session, id: int, out: seq<nat>, again: int) {
    && FC.CanRun(n, es) && SenderMoved(n, FC.Run(n, es)) && Sends(FC.Run(n, es), r, id)
    && FC.Run(n, es).dataWire == n.dataWire + out && FC.Run(n, es).lost == n.lost + again
    && FC.Prudent(n, es) && FC.NeverLowered(n, es) && FC.StaysAuto(es)
  }

  /** Payload charged to the window although it has been charged already. */
  function ChargedAgain(s: Session, i: Input, id: int): nat {
    if i.PushBytes? && SendsData(s, id) && s.active.value.offset + i.sent <= s.active.value.length
       && s.active.value.calls > 0 && s.active.value.length >= 8
    then s.active.value.length - 8 else 0
  }

  /** A DATA frame in the buffer that fits the window is a Pack step. */
  lemma PackEnabled(n: FC.Net, s: Session, r: Session, id: int)
    requires s.flowControl && WindowOf(s, id) == n.window && n.pending.NoFrame?
    requires Packed(s, r, id) && SendsData(r, id) && NoFin(r, id)
    requires r.flowControl && WindowOf(r, id) == n.window && r.cfg.remoteInit == n.remoteInit <= INT32_MAX
    ensures var e := FC.Pack(r.active.value.length - 8); FC.Enabled(n, e) && Sends(FC.Step(n, e), r, id)
  {
  }

  lemma PullAtA(n: FC.Net, s: Session, read: ReadResult, packed: Option<nat>, id: StreamId) returns (es: seq<FC.Event>)
    requires Sends(n, s, id) && Inv(s) && s.hand.None? && s.active.None?
    requires var r := Pull(s, read, packed); Stays(s, r, id) && NoFin(r, id)
    ensures SenderRuns(n, es, Pull(s, read, packed), id, [], 0) && FC.WholeFrames(n, es) && SendsOpen(Pull(s, read, packed), id)
  {
    var r := Pull(s, read, packed);
    PullDone(s, read, packed, id);
    if SendsData(r, id) {
      PackEnabled(n, s, r, id);
      es := [FC.Pack(r.active.value.length - 8)];
      One(n, es[0]);
    } else {
      es := [];
      Nothing(n);
    }
    assert n.dataWire + [] == n.dataWire;
  }

  /** A send callback for a frame of something else. */
  lemma PushOther(n: FC.Net, s: Session, sent: nat, read: ReadResult, id: StreamId) returns (es: seq<FC.Event>)
    requires Sends(n, s, id) && s.hand.None? && s.active.Some? && !SendsData(s, id) && Stays(s, Push(s, sent, read), id)
    ensures SenderRuns(n, es, Push(s, sent, read), id, DataOut(s, PushBytes(sent, read), id), ChargedAgain(s, PushBytes(sent, read), id))
    ensures SendsWhole(s, PushBytes(sent, read), id) ==> FC.WholeFrames(n, es)
    ensures SendsOpen(Push(s, sent, read), id)
  {
    PushDone(s, sent, read, id);
    es := [];
    Nothing(n);
    assert n.dataWire + [] == n.dataWire;
  }

  /** One send callback, and perhaps the next frame. */
  lemma SendThenPack(n: FC.Net, sent: nat, r: Session, id: StreamId, again: bool) returns (es: seq<FC.Event>)
    requires FC.Enabled(n, FC.SendCall(sent))
    requires var n1 := FC.Step(n, FC.SendCall(sent));
      if again then SendsData(r, id) && r.active.value.length >= 8
        && FC.Enabled(n1, FC.Pack(r.active.value.length - 8)) && Sends(FC.Step(n1, FC.Pack(r.active.value.length - 8)), r, id)
      else Sends(n1, r, id)
    ensures SenderRuns(n, es, r, id, if n.pending.sent + sent == n.pending.payload + 8 then [n.pending.payload] else [],
      if n.pending.calls > 0 then n.pending.payload else 0)
    ensures FC.WholeFrames(n, es) <==> sent == n.pending.payload + 8
  {
    if again {
      es := [FC.SendCall(sent), FC.Pack(r.active.value.length - 8)];
      Two(n, es[0], es[1]);
    } else {
      es := [FC.SendCall(sent)];
      One(n, es[0]);
    }
    assert n.dataWire + [] == n.dataWire;
  }

  /** A send callback for a DATA frame of the stream that does not get it out. */
  lemma PushPart(n: FC.Net, s: Session, sent: nat, read: ReadResult, id: StreamId) returns (es: seq<FC.Event>)
    requires Sends(n, s, id) && id in s.streams && s.hand.None? && SendsData(s, id)
    requires s.active.value.offset + sent < s.active.value.length
    ensures SenderRuns(n, es, Push(s, sent, read), id, DataOut(s, PushBytes(sent, read), id), ChargedAgain(s, PushBytes(sent, read), id))
    ensures SendsWhole(s, PushBytes(sent, read), id) ==> FC.WholeFrames(n, es)
    ensures SendsOpen(Push(s, sent, read), id)
  {
    ChargeIsStep(n, s, id, sent);
    es := SendThenPack(n, sent, Push(s, sent, read), id, false);
  }

  /** One that does: the next frame may be packed at once. */
  lemma PushLast(n: FC.Net, s: Session, sent: nat, read: ReadResult, id: StreamId) returns (es: seq<FC.Event>)
    requires Sends(n, s, id) && id in s.streams && s.hand.None? && SendsData(s, id)
    requires s.active.value.offset + sent == s.active.value.length
    requires var r := Push(s, sent, read); Stays(s, r, id) && NoFin(r, id)
    ensures SenderRuns(n, es, Push(s, sent, read), id, DataOut(s, PushBytes(sent, read), id), ChargedAgain(s, PushBytes(sent, read), id))
    ensures SendsWhole(s, PushBytes(sent, read), id) ==> FC.WholeFrames(n, es)
    ensures SendsOpen(Push(s, sent, read), id)
  {
    PushDone(s, sent, read, id);
    ChargeIsStep(n, s, id, sent);
    LastOut(n, s, sent, read, id);
    es := AfterLast(n, Charge(s, sent), Push(s, sent, read), sent, id);
  }

  /** What leaves with the last callback for a frame. */
  lemma LastOut(n: FC.Net, s: Session, sent: nat, read: ReadResult, id: StreamId)
    requires Sends(n, s, id) && SendsData(s, id) && s.active.value.offset + sent == s.active.value.length
    ensures n.pending.Frame? && FC.Enabled(n, FC.SendCall(sent)) && n.pending.sent + sent == n.pending.payload + 8
    ensures DataOut(s, PushBytes(sent, read), id) == [n.pending.payload]
    ensures ChargedAgain(s, PushBytes(sent, read), id) == if n.pending.calls > 0 then n.pending.payload else 0
    ensures SendsWhole(s, PushBytes(sent, read), id) ==> sent == n.pending.payload + 8
  {
  }

  /** The frame is out, and `s`, which has been charged for it, has gone on to `r`. */
  lemma AfterLast(n: FC.Net, s: Session, r: Session, sent: nat, id: StreamId) returns (es: seq<FC.Event>)
    requires FC.Enabled(n, FC.SendCall(sent)) && n.pending.sent + sent == n.pending.payload + 8
    requires s.flowControl && WindowOf(s, id) == n.window - n.pending.payload
    requires r.flowControl && SameWindows(s, r, id) && r.cfg.remoteInit == n.remoteInit <= INT32_MAX && Stays(s, r, id)
    requires SendsData(r, id) ==> Packed(s, r, id) && NoFin(r, id)
    ensures SenderRuns(n, es, r, id, [n.pending.payload], if n.pending.calls > 0 then n.pending.payload else 0)
    ensures (FC.WholeFrames(n, es) <==> sent == n.pending.payload + 8) && SendsOpen(r, id)
  {
    MayPackNext(FC.Step(n, FC.SendCall(sent)), s, r, id);
    es := SendThenPack(n, sent, r, id, SendsData(r, id));
  }

  /** With the frame out, the next one is in the buffer or none is. */
  lemma MayPackNext(n: FC.Net, s: Session, r: Session, id: StreamId)
    requires s.flowControl && WindowOf(s, id) == n.window && n.pending.NoFrame?
    requires r.flowControl && SameWindows(s, r, id) && r.cfg.remoteInit == n.remoteInit <= INT32_MAX
    requires SendsData(r, id) ==> Packed(s, r, id) && NoFin(r, id)
    ensures if SendsData(r, id)
      then FC.Enabled(n, FC.Pack(r.active.value.length - 8)) && Sends(FC.Step(n, FC.Pack(r.active.value.length - 8)), r, id)
      else Sends(n, r, id)
  {
    if SendsData(r, id) {
      PackEnabled(n, s, r, id);
    }
  }

  /** A send callback that concerns a DATA frame of the stream takes all of it. */
  predicate SendsWhole(s: Session, i: Input, id: int) {
    i.PushBytes? && SendsData(s, id) && s.active.value.offset + i.sent <= s.active.value.length ==> i.sent == s.active.value.length
  }

  /** Any input at the sender. */
  lemma StepAtA(n: FC.Net, s: Session, i: Input, id: StreamId) returns (es: seq<FC.Event>)
    requires Sends(n, s, id) && Inv(s) && s.hand.None?
    requires !(i.RecvWindowUpdate? && i.id == id) && !(i.RecvSettings? && HasWindow(i.entries))
    requires SendsOpen(s, id) && Stays(s, Step(s, i), id) && NoFin(Step(s, i), id)
    ensures SenderRuns(n, es, Step(s, i), id, DataOut(s, i, id), ChargedAgain(s, i, id))
    ensures SendsWhole(s, i, id) ==> FC.WholeFrames(n, es)
    ensures SendsOpen(Step(s, i), id)
  {
    if i.PullItem? && s.active.None? {
      StepPull(s, i.read, i.packed);
      es := PullAtA(n, s, i.read, i.packed, id);
    } else if i.PushBytes? && s.active.Some? && s.active.value.offset + i.sent <= s.active.value.length {
      StepPush(s, i.sent, i.read);
      es := PushAtA(n, s, i.sent, i.read, id);
    } else {
      es := StayAtA(n, s, i, id);
    }
  }

  lemma PushAtA(n: FC.Net, s: Session, sent: nat, read: ReadResult, id: StreamId) returns (es: seq<FC.Event>)
    requires Sends(n, s, id) && SendsOpen(s, id) && s.hand.None?
    requires s.active.Some? && s.active.value.offset + sent <= s.active.value.length
    requires var r := Push(s, sent, read); Stays(s, r, id) && NoFin(r, id)
    ensures SenderRuns(n, es, Push(s, sent, read), id, DataOut(s, PushBytes(sent, read), id), ChargedAgain(s, PushBytes(sent, read), id))
    ensures SendsWhole(s, PushBytes(sent, read), id) ==> FC.WholeFrames(n, es)
    ensures SendsOpen(Push(s, sent, read), id)
  {
    if SendsData(s, id) && s.active.value.offset + sent == s.active.value.length {
      es := PushLast(n, s, sent, read, id);
    } else if SendsData(s, id) {
      es := PushPart(n, s, sent, read, id);
    } else {
      es := PushOther(n, s, sent, read, id);
    }
  }

  lemma StayAtA(n: FC.Net, s: Session, i: Input, id: StreamId) returns (es: seq<FC.Event>)
    requires Sends(n, s, id) && SendsOpen(s, id) && Inv(s) && s.hand.None?
    requires !(i.RecvWindowUpdate? && i.id == id) && !(i.RecvSettings? && HasWindow(i.entries)) && Stays(s, Step(s, i), id)
    requires i.PullItem? ==> s.active.Some?
    requires i.PushBytes? ==> !(s.active.Some? && s.active.value.offset + i.sent <= s.active.value.length)
    ensures SenderRuns(n, es, Step(s, i), id, DataOut(s, i, id), ChargedAgain(s, i, id)) && FC.WholeFrames(n, es)
    ensures SendsOpen(Step(s, i), id)
  {
    if !i.PullItem? && !i.PushBytes? {
      OtherAtA(s, i, id);
    }
    es := [];
    Nothing(n);
    assert n.dataWire + [] == n.dataWire;
  }

  // ---------- off the control wire ----------

  lemma {:induction false} MeaningsHead(fs: seq<Frame>, id: int)
    requires fs != [] && forall f <- fs :: Meaning(f, id).Some?
    ensures Meanings(fs, id) == [Meaning(fs[0], id).value] + Meanings(fs[1..], id)
    ensures forall f <- fs[1..] :: Meaning(f, id).Some?
  {
    assert fs[0] in fs && forall f :: f in fs[1..] ==> f in fs;
  }

  lemma {:induction false} MeaningsSnoc(fs: seq<Frame>, f: Frame, id: int)
    requires Meaning(f, id).Some?
    ensures Meanings(fs + [f], id) == Meanings(fs, id) + [Meaning(f, id).value]
  {
    if fs == [] {
      assert (fs + [f])[1..] == [];
    } else {
      MeaningsSnoc(fs[1..], f, id);
      assert (fs + [f])[1..] == fs[1..] + [f];
    }
  }

  lemma CreditArrives(n: FC.Net, s: Session, f: Frame, id: StreamId)
    requires Sends(n, s, id) && id in s.streams && s.hand.None? && s.receiving.None? && FC.Conserved(n)
    requires f.WindowUpdate? && Meaning(f, id).Some? && n.ctlWire != [] && n.ctlWire[0] == Meaning(f, id).value
    ensures Sends(FC.Step(n, FC.Deliver), Step(s, Arrival(f, id)), id)
  {
    assert n.ctlWire[0] in n.ctlWire;
    CreditArrivesBounded(n, s, f.delta, id);
  }

  lemma CreditArrivesBounded(n: FC.Net, s: Session, d: StreamId, id: StreamId)
    requires Sends(n, s, id) && id in s.streams && s.hand.None? && s.receiving.None?
    requires n.ctlWire != [] && n.ctlWire[0] == FC.Credit(d)
    ensures Sends(FC.Step(n, FC.Deliver), Step(s, RecvWindowUpdate(id, d)), id)
  {
    CreditIsStep(n, s, id, d);
    StepWindowUpdate(s, id, d);
  }

  lemma SettingArrives(n: FC.Net, s: Session, f: Frame, id: StreamId)
    requires Sends(n, s, id) && Inv(s) && s.hand.None? && s.receiving.None? && FC.Conserved(n)
    requires f.Settings? && Meaning(f, id).Some? && n.ctlWire != [] && n.ctlWire[0] == Meaning(f, id).value
    ensures Sends(FC.Step(n, FC.Deliver), Step(s, Arrival(f, id)), id)
  {
    assert n.ctlWire[0] in n.ctlWire;
    SettingsSend(n, s, f.entries, id);
    StepSettings(s, f.entries);
  }

  lemma SettingsSend(n: FC.Net, s: Session, entries: seq<(int, int)>, id: StreamId)
    requires Sends(n, s, id) && Inv(s) && HasWindow(entries)
    requires n.ctlWire != [] && n.ctlWire[0].Setting? && n.ctlWire[0].value == Lookup(entries, SETTINGS_INITIAL_WINDOW_SIZE, 0) <= INT32_MAX
    ensures Sends(FC.Step(n, FC.Deliver), OnSettings(s, entries, {}), id)
  {
    SettingsDone(s, entries, {}, id);
    SettingSends(n, s, OnSettings(s, entries, {}), id, n.ctlWire[0].value);
  }

  // ---------- the receiver ----------

  /** Only the receiving half of the protocol state has moved. */
  predicate ReceiverMoved(n: FC.Net, r: FC.Net) {
    r == n.(dataWire := r.dataWire, recv := r.recv, localInit := r.localInit, outq := r.outq, ctlWire := r.ctlWire,
            auto := r.auto, lost := r.lost, extra := r.extra)
  }

  ghost predicate AtReceiver(n: FC.Net, s: Session, data: seq<nat>, id: int) {
    && Receives(n, s, id) && n.dataWire == Started(s, id) + data
    && (s.receiving.Some? && s.receiving.value.id == id ==> !s.receiving.value.ignored && !s.receiving.value.fin)
    && QueueMatches(n.outq, Waiting(s, id)) && (id !in s.streams ==> OnlySettings(n.outq))
  }

  /** What the receiver does is a sequence of protocol steps. */
  ghost predicate ReceiverRuns(n: FC.Net, es: seq<FC.Event>, r: Session, data: seq<nat>, id: int, out: seq<FC.Control>,
                               dropped: int, unbacked: int) {
    && FC.CanRun(n, es) && ReceiverMoved(n, FC.Run(n, es)) && AtReceiver(FC.Run(n, es), r, data, id)
    && FC.Run(n, es).ctlWire == n.ctlWire + out && FC.WholeFrames(n, es)
    && FC.Run(n, es).lost == n.lost + dropped && FC.Run(n, es).extra == n.extra + unbacked
  }

  /** Received bytes that the saturating counter drops. */
  function DroppedBy(s: Session, i: Input, id: int): int {
    if i.RecvDataBytes? && s.receiving.Some? && s.receiving.value.id == id && i.count <= s.receiving.value.remaining
    then Excess(s, id, i.count) else 0
  }

  function Excess(s: Session, id: int, k: nat): int {
    if k > 0 && id in s.streams && s.streams[id].recvWindow + k > INT32_MAX then s.streams[id].recvWindow + k - INT32_MAX else 0
  }

  /** Credit granted beyond what has been received. */
  function UnbackedBy(s: Session, i: Input, id: int): int {
    if i.SubmitWindowUpdate? && i.id == id && id in s.streams && i.amount > s.streams[id].recvWindow && i.amount > 0
    then i.amount - s.streams[id].recvWindow else 0
  }

  lemma NumsBelow(s: Session)
    requires Inv(s)
    ensures forall y <- s.obPq :: y.num < s.nextSeq
  {
    forall y | y in s.obPq ensures y.num < s.nextSeq {
      CountZero(s.obPq, y.num);
      assert Holders(s, y.num) == if y.num < s.nextSeq then 1 else 0;
    }
  }

  lemma SettingsSnoc(outq: seq<FC.Control>, c: FC.Control)
    ensures SettingsOf(outq + [c]) == SettingsOf(outq) + if c.Setting? then [c.value] else []
  {
    SettingsConcat(outq, [c]);
    SettingsCons(c, []);
    assert [c] + [] == [c];
  }

  lemma SettingsBehind(front: seq<FC.Control>, q: seq<FC.Control>, q': seq<FC.Control>, more: seq<int>)
    requires SettingsOf(q') == SettingsOf(q) + more
    ensures SettingsOf(front + q') == SettingsOf(front + q) + more
  {
    SettingsConcat(front, q);
    SettingsConcat(front, q');
    Reassociate(SettingsOf(front), SettingsOf(q), more);
  }

  /** A queue that gets one more frame still matches. */
  lemma QueueGrows(outq: seq<FC.Control>, front: seq<FC.Control>, q: seq<FC.Control>, q': seq<FC.Control>, c: FC.Control)
    requires QueueMatches(outq, front + q) && multiset(q') == multiset(q) + multiset{c}
    requires SettingsOf(q') == SettingsOf(q) + if c.Setting? then [c.value] else []
    ensures QueueMatches(outq + [c], front + q')
  {
    SettingsSnoc(outq, c);
    SettingsBehind(front, q, q', if c.Setting? then [c.value] else []);
    assert multiset(front + q) == multiset(front) + multiset(q);
    assert multiset(front + q') == multiset(front) + multiset(q');
  }

  lemma CreditGrows(outq: seq<FC.Control>, front: seq<FC.Control>, q: seq<FC.Control>, q': seq<FC.Control>, d: int)
    requires QueueMatches(outq, front + q) && multiset(q') == multiset(q) + multiset{FC.Credit(d)} && SettingsOf(q') == SettingsOf(q)
    ensures QueueMatches(outq + [FC.Credit(d)], front + q')
  {
    assert SettingsOf(q) + [] == SettingsOf(q);
    QueueGrows(outq, front, q, q', FC.Credit(d));
  }

  lemma CreditQueued(front: seq<FC.Control>, q: seq<Item>, x: Item, d: int, outq: seq<FC.Control>, id: int)
    requires x.frame == WindowUpdate(id, d) && QueueMatches(outq, front + Controls(q, id))
    ensures QueueMatches(outq + [FC.Credit(d)], front + Controls(Enqueue(q, x), id))
  {
    EnqueueControl(q, x, id);
    EnqueueCredit(q, x, id);
    CreditGrows(outq, front, Controls(q, id), Controls(Enqueue(q, x), id), d);
  }

  lemma AddCredit(s: Session, d: int, outq: seq<FC.Control>, id: int)
    requires QueueMatches(outq, Waiting(s, id))
    ensures QueueMatches(outq + [FC.Credit(d)], Waiting(AddFrame(s, WindowUpdate(id, d)), id))
  {
    var f := WindowUpdate(id, d);
    var front := if s.active.Some? then AsSeq(Meaning(s.active.value.item.frame, id)) else [];
    CreditQueued(front, s.obPq, Item(s.nextSeq, Priority(s, f), f), d, outq, id);
  }

  lemma AddSetting(s: Session, entries: seq<(int, int)>, outq: seq<FC.Control>, id: int)
    requires Inv(s) && QueueMatches(outq, Waiting(s, id)) && Meaning(Settings(entries), id).Some?
    ensures QueueMatches(outq + [Meaning(Settings(entries), id).value], Waiting(AddFrame(s, Settings(entries)), id))
  {
    var f := Settings(entries);
    var x := Item(s.nextSeq, Priority(s, f), f);
    NumsBelow(s);
    EnqueueControl(s.obPq, x, id);
    EnqueueSetting(s.obPq, x, id);
    var front := if s.active.Some? then AsSeq(Meaning(s.active.value.item.frame, id)) else [];
    QueueGrows(outq, front, Controls(s.obPq, id), Controls(Enqueue(s.obPq, x), id), Meaning(f, id).value);
  }

  /** Counting received bytes, with the WINDOW_UPDATE it may queue. */
  lemma CountMatches(n: FC.Net, s: Session, id: int, k: nat)
    requires Receives(n, s, id) && id in s.streams && QueueMatches(n.outq, Waiting(s, id))
    ensures var n', r := FC.Count(n, k), CountReceived(s, id, k);
      && Receives(n', r, id) && QueueMatches(n'.outq, Waiting(r, id)) && r.receiving == s.receiving
      && r.streams[id] == s.streams[id].(recvWindow := r.streams[id].recvWindow) && r.server == s.server
  {
    CountIsStep(n, s, id, k);
    CountKeeps(s, id, k);
    var n' := FC.Count(n, k);
    if n'.outq != n.outq {
      var s1 := PutStream(s, id, s.streams[id].(recvWindow := 0));
      assert Waiting(s1, id) == Waiting(s, id);
      AddCredit(s1, n'.outq[|n.outq|].delta, n.outq, id);
    }
  }

  /** Apart from the count and the queue nothing changes. */
  lemma CountKeeps(s: Session, id: int, k: nat)
    requires id in s.streams
    ensures var r := CountReceived(s, id, k);
      && r.receiving == s.receiving && r.server == s.server && id in r.streams
      && r.streams[id] == s.streams[id].(recvWindow := r.streams[id].recvWindow)
      && (r.nextSeq == s.nextSeq ==> r.obPq == s.obPq && r.active == s.active)
  {
  }

  // Nothing the protocol sees.

  lemma Unmoved(n: FC.Net, s: Session, r: Session, data: seq<nat>, id: int) returns (es: seq<FC.Event>)
    requires AtReceiver(n, s, data, id) && Stays(s, r, id) && Receives(n, r, id) && Waiting(r, id) == Waiting(s, id)
    requires s.receiving == r.receiving || (Started(s, id) == [] && Started(r, id) == [])
    ensures ReceiverRuns(n, es, r, data, id, [], 0, 0) && FC.Prudent(n, es) && FC.NeverLowered(n, es) && FC.StaysAuto(es)
  {
    es := [];
    Nothing(n);
    assert n.ctlWire + [] == n.ctlWire;
  }

  lemma OtherAtB(n: FC.Net, s: Session, i: Input, data: seq<nat>, id: StreamId) returns (es: seq<FC.Event>)
    requires AtReceiver(n, s, data, id) && Inv(s) && s.hand.None? && !Special(s, i, id) && Stays(s, Step(s, i), id)
    ensures InputRuns(n, es, s, i, Step(s, i), data, id)
  {
    StepStill(s, i, id);
    es := StillInput(n, s, i, Step(s, i), data, id);
  }

  lemma StillInput(n: FC.Net, s: Session, i: Input, r: Session, data: seq<nat>, id: StreamId) returns (es: seq<FC.Event>)
    requires AtReceiver(n, s, data, id) && !Special(s, i, id) && Stays(s, r, id) && Still(s, r, id)
    requires s.receiving == r.receiving || (Started(s, id) == [] && Started(r, id) == [])
    ensures InputRuns(n, es, s, i, r, data, id)
  {
    es := QuietInput(n, s, i, r, data, id);
  }

  /** An input that is no send callback, grants nothing and brings no byte of the stream. */
  lemma QuietInput(n: FC.Net, s: Session, i: Input, r: Session, data: seq<nat>, id: int) returns (es: seq<FC.Event>)
    requires AtReceiver(n, s, data, id) && Stays(s, r, id) && Receives(n, r, id) && Waiting(r, id) == Waiting(s, id)
    requires s.receiving == r.receiving || (Started(s, id) == [] && Started(r, id) == [])
    requires !Completes(s, i) && !(i.SubmitWindowUpdate? && i.id == id)
    requires !(i.RecvDataBytes? && s.receiving.Some? && s.receiving.value.id == id && i.count <= s.receiving.value.remaining)
    ensures InputRuns(n, es, s, i, r, data, id)
  {
    es := Unmoved(n, s, r, data, id);
  }

  /** WINDOW_UPDATE and SETTINGS frames the receiver gets concern what it sends itself. */
  lemma WindowsAtB(n: FC.Net, s: Session, i: Input, data: seq<nat>, id: StreamId) returns (es: seq<FC.Event>)
    requires AtReceiver(n, s, data, id) && Inv(s) && s.hand.None? && s.receiving.None?
    requires (i.RecvWindowUpdate? && i.id == id) || i.RecvSettings?
    ensures InputRuns(n, es, s, i, Step(s, i), data, id)
  {
    if i.RecvSettings? {
      StepSettings(s, i.entries);
      SettingsDone(s, i.entries, {}, id);
    } else {
      StepWindowUpdate(s, i.id, i.delta);
      UpdateStill(s, i.id, i.delta, id);
    }
    es := QuietInput(n, s, i, Step(s, i), data, id);
  }

  // What the application grants and announces.

  lemma GrantAtB(n: FC.Net, s: Session, i: Input, data: seq<nat>, id: StreamId) returns (es: seq<FC.Event>)
    requires AtReceiver(n, s, data, id) && i.SubmitWindowUpdate? && i.id == id && i.amount <= INT32_MAX
    ensures ReceiverRuns(n, es, OnSubmitWindowUpdate(s, id, i.amount), data, id, [], 0, UnbackedBy(s, i, id))
    ensures FC.NeverLowered(n, es) && FC.StaysAuto(es) && (GrantsBacked(s, i, id) ==> FC.Prudent(n, es))
  {
    if i.amount <= 0 || id !in s.streams {
      es := Unmoved(n, s, s, data, id);
    } else {
      GrantMatches(n, s, i.amount, data, id);
      es := GrantRuns(n, i.amount, OnSubmitWindowUpdate(s, id, i.amount), data, id);
    }
  }

  lemma GrantRuns(n: FC.Net, d: nat, r: Session, data: seq<nat>, id: StreamId) returns (es: seq<FC.Event>)
    requires 0 < d <= INT32_MAX && AtReceiver(FC.Step(n, FC.GrantCredit(d)), r, data, id)
    ensures ReceiverRuns(n, es, r, data, id, [], 0, if d > n.recv then d - n.recv else 0)
    ensures FC.NeverLowered(n, es) && FC.StaysAuto(es) && (d <= n.recv ==> FC.Prudent(n, es))
  {
    GrantAdds(n, d);
    es := ByOne(n, FC.GrantCredit(d), r, data, id);
  }

  lemma GrantAdds(n: FC.Net, d: nat)
    requires 0 < d <= INT32_MAX
    ensures var r := FC.Step(n, FC.GrantCredit(d)); r.lost == n.lost && r.extra == n.extra + if d > n.recv then d - n.recv else 0
  {
  }

  lemma GrantMatches(n: FC.Net, s: Session, d: nat, data: seq<nat>, id: StreamId)
    requires AtReceiver(n, s, data, id) && id in s.streams && 0 < d <= INT32_MAX
    ensures AtReceiver(FC.Step(n, FC.GrantCredit(d)), OnSubmitWindowUpdate(s, id, d), data, id)
  {
    GrantIsStep(n, s, id, d);
    var s1 := PutStream(s, id, s.streams[id].(recvWindow := Uncounted(s.streams[id].recvWindow, d)));
    AddCredit(s1, d, n.outq, id);
  }

  /** Automatic WINDOW_UPDATE is switched on or off. */
  lemma SwitchAtB(n: FC.Net, s: Session, value: bool, data: seq<nat>, id: StreamId) returns (es: seq<FC.Event>)
    requires AtReceiver(n, s, data, id)
    ensures ReceiverRuns(n, es, OnSetOption(s, value), data, id, [], 0, 0) && FC.Prudent(n, es) && FC.NeverLowered(n, es)
    ensures !value ==> FC.StaysAuto(es)
  {
    es := ByOne(n, FC.Switch(!value), OnSetOption(s, value), data, id);
  }

  lemma {:induction false} LookupNone(entries: seq<(int, int)>, current: int)
    requires !HasWindow(entries)
    ensures Lookup(entries, SETTINGS_INITIAL_WINDOW_SIZE, current) == current
  {
    if entries != [] {
      HasWindowCons(entries);
      LookupNone(entries[1..], current);
    }
  }

  lemma {:induction false} LookupSome(entries: seq<(int, int)>, a: int, b: int)
    requires HasWindow(entries)
    ensures Lookup(entries, SETTINGS_INITIAL_WINDOW_SIZE, a) == Lookup(entries, SETTINGS_INITIAL_WINDOW_SIZE, b)
  {
    HasWindowCons(entries);
    if entries[0].0 != SETTINGS_INITIAL_WINDOW_SIZE {
      LookupSome(entries[1..], a, b);
    }
  }

  /** A SETTINGS frame that announces an initial window announces no smaller one. */
  predicate NotLower(s: Session, entries: seq<(int, int)>) {
    ValidSettings(entries) && HasWindow(entries) ==> Lookup(entries, SETTINGS_INITIAL_WINDOW_SIZE, 0) >= s.cfg.localInit
  }

  lemma AnnounceAtB(n: FC.Net, s: Session, entries: seq<(int, int)>, data: seq<nat>, id: StreamId) returns (es: seq<FC.Event>)
    requires AtReceiver(n, s, data, id) && Inv(s) && 0 <= Lookup(entries, SETTINGS_INITIAL_WINDOW_SIZE, 0) <= INT32_MAX
    ensures ReceiverRuns(n, es, OnSubmitSettings(s, entries), data, id, [], 0, 0) && FC.Prudent(n, es) && FC.StaysAuto(es)
    ensures NotLower(s, entries) ==> FC.NeverLowered(n, es)
  {
    if ValidSettings(entries) && HasWindow(entries) {
      es := AnnounceWindow(n, s, entries, data, id);
    } else {
      es := AnnounceOther(n, s, entries, data, id);
    }
  }

  lemma AnnounceOther(n: FC.Net, s: Session, entries: seq<(int, int)>, data: seq<nat>, id: StreamId) returns (es: seq<FC.Event>)
    requires AtReceiver(n, s, data, id) && !(ValidSettings(entries) && HasWindow(entries))
    ensures ReceiverRuns(n, es, OnSubmitSettings(s, entries), data, id, [], 0, 0) && FC.Prudent(n, es) && FC.NeverLowered(n, es) && FC.StaysAuto(es)
  {
    if ValidSettings(entries) {
      LookupNone(entries, s.cfg.localInit);
      AddFrameStill(s, Settings(entries), id);
    }
    es := Unmoved(n, s, OnSubmitSettings(s, entries), data, id);
  }

  lemma AnnounceWindow(n: FC.Net, s: Session, entries: seq<(int, int)>, data: seq<nat>, id: StreamId) returns (es: seq<FC.Event>)
    requires AtReceiver(n, s, data, id) && Inv(s) && 0 <= Lookup(entries, SETTINGS_INITIAL_WINDOW_SIZE, 0) <= INT32_MAX
    requires ValidSettings(entries) && HasWindow(entries)
    ensures ReceiverRuns(n, es, OnSubmitSettings(s, entries), data, id, [], 0, 0) && FC.Prudent(n, es) && FC.StaysAuto(es)
    ensures NotLower(s, entries) ==> FC.NeverLowered(n, es)
  {
    var v := Lookup(entries, SETTINGS_INITIAL_WINDOW_SIZE, 0);
    AnnounceMatches(n, s, entries, v, data, id);
    es := ByOne(n, FC.ChangeInit(v), OnSubmitSettings(s, entries), data, id);
  }

  lemma AnnounceMatches(n: FC.Net, s: Session, entries: seq<(int, int)>, v: nat, data: seq<nat>, id: StreamId)
    requires AtReceiver(n, s, data, id) && Inv(s) && ValidSettings(entries) && HasWindow(entries)
    requires v == Lookup(entries, SETTINGS_INITIAL_WINDOW_SIZE, 0) <= INT32_MAX
    ensures AtReceiver(FC.Step(n, FC.ChangeInit(v)), OnSubmitSettings(s, entries), data, id)
  {
    var s1 := AddFrame(s, Settings(entries));
    assert QueueMatches(n.outq + [FC.Setting(v)], Waiting(s1, id)) by {
      AddSetting(s, entries, n.outq, id);
    }
    AnnounceIs(s, entries, v);
    Announced(n, s, s1, OnSubmitSettings(s, entries), v, data, id);
  }

  lemma AnnounceIs(s: Session, entries: seq<(int, int)>, v: int)
    requires ValidSettings(entries) && HasWindow(entries) && v == Lookup(entries, SETTINGS_INITIAL_WINDOW_SIZE, 0)
    ensures var r, s1 := OnSubmitSettings(s, entries), AddFrame(s, Settings(entries));
      && r == s1.(cfg := r.cfg) && s1.streams == s.streams && s1.receiving == s.receiving && s1.flowControl == s.flowControl
      && r.cfg.localInit == v && r.cfg.noAutoWindowUpdate == s.cfg.noAutoWindowUpdate
  {
    LookupSome(entries, 0, s.cfg.localInit);
  }

  lemma Announced(n: FC.Net, s: Session, s1: Session, r: Session, v: nat, data: seq<nat>, id: StreamId)
    requires AtReceiver(n, s, data, id) && QueueMatches(n.outq + [FC.Setting(v)], Waiting(s1, id))
    requires r == s1.(cfg := r.cfg) && s1.streams == s.streams && s1.receiving == s.receiving && s1.flowControl == s.flowControl
    requires r.cfg.localInit == v <= INT32_MAX && r.cfg.noAutoWindowUpdate == s.cfg.noAutoWindowUpdate
    ensures AtReceiver(FC.Step(n, FC.ChangeInit(v)), r, data, id)
  {
    var n' := n.(localInit := v, outq := n.outq + [FC.Setting(v)]);
    assert FC.Step(n, FC.ChangeInit(v)) == n';
    assert Receives(n', r, id);
    assert Waiting(r, id) == Waiting(s1, id);
    assert n'.dataWire == Started(r, id) + data;
  }

  predicate IsReceivers(e: FC.Event) {
    e.GrantCredit? || e.ChangeInit? || e.Receive? || e.Switch?
  }

  /** A single protocol step at the receiver. */
  lemma ByOne(n: FC.Net, e: FC.Event, r: Session, data: seq<nat>, id: int) returns (es: seq<FC.Event>)
    requires IsReceivers(e) && FC.Enabled(n, e) && AtReceiver(FC.Step(n, e), r, data, id)
    ensures es == [e] && ReceiverRuns(n, es, r, data, id, [], FC.Step(n, e).lost - n.lost, FC.Step(n, e).extra - n.extra)
    ensures FC.Prudent(n, es) <==> (e.GrantCredit? ==> e.delta <= n.recv)
    ensures FC.NeverLowered(n, es) <==> (e.ChangeInit? ==> e.value >= n.localInit)
    ensures FC.StaysAuto(es) <==> (e.Switch? ==> e.on)
  {
    es := [e];
    One(n, e);
    MovesReceiver(n, e);
    assert n.ctlWire + [] == n.ctlWire;
  }

  lemma MovesReceiver(n: FC.Net, e: FC.Event)
    requires IsReceivers(e) && FC.Enabled(n, e)
    ensures ReceiverMoved(n, FC.Step(n, e)) && FC.Step(n, e).ctlWire == n.ctlWire
  {
  }

  // DATA.

  /** Bytes of a DATA frame of the stream. */
  lemma BytesAtB(n: FC.Net, s: Session, k: nat, data: seq<nat>, id: StreamId) returns (es: seq<FC.Event>)
    requires AtReceiver(n, s, data, id) && DataAllowed(s, id)
    requires s.receiving.Some? && s.receiving.value.id == id && k <= s.receiving.value.remaining
    ensures ReceiverRuns(n, es, DataBytes(s, k), data, id, [], Excess(s, id, k), 0)
    ensures FC.Prudent(n, es) && FC.NeverLowered(n, es) && FC.StaysAuto(es)
  {
    BytesAre(s, k, id);
    es := BytesRun(n, s, DataBytes(s, k), k, data, id);
  }

  lemma BytesRun(n: FC.Net, s: Session, r: Session, k: nat, data: seq<nat>, id: int) returns (es: seq<FC.Event>)
    requires AtReceiver(n, s, data, id) && id in s.streams
    requires s.receiving.Some? && s.receiving.value.id == id && k <= s.receiving.value.remaining && BytesCounted(s, r, k, id)
    ensures ReceiverRuns(n, es, r, data, id, [], Excess(s, id, k), 0)
    ensures FC.Prudent(n, es) && FC.NeverLowered(n, es) && FC.StaysAuto(es)
  {
    if k == 0 && s.receiving.value.remaining > 0 {
      assert r == s.(log := s.log + [Chunk(id, k)]);
      es := Unmoved(n, s, r, data, id);
    } else {
      BytesMatch(n, s, r, k, data, id);
      ReceiveLoses(n, k);
      es := ByOne(n, FC.Receive(k), r, data, id);
    }
  }

  /** The bytes are handed on and counted, and the frame is shorter by them. */
  predicate BytesCounted(s: Session, r: Session, k: nat, id: int)
    requires s.receiving.Some?
  {
    var b, s1 := s.receiving.value, s.(log := s.log + [Chunk(id, k)]);
    r == (if k > 0 then CountReceived(s1, id, k) else s1).(receiving := if k < b.remaining then Some(b.(remaining := b.remaining - k)) else None)
  }

  lemma ReceiveLoses(n: FC.Net, k: nat)
    requires FC.Enabled(n, FC.Receive(k))
    ensures var r := FC.Step(n, FC.Receive(k));
      r.extra == n.extra && r.lost == n.lost + if k > 0 && n.recv + k > INT32_MAX then n.recv + k - INT32_MAX else 0
  {
  }

  lemma BytesMatch(n: FC.Net, s: Session, r: Session, k: nat, data: seq<nat>, id: int)
    requires AtReceiver(n, s, data, id) && id in s.streams
    requires s.receiving.Some? && s.receiving.value.id == id && k <= s.receiving.value.remaining
    requires k > 0 || s.receiving.value.remaining == 0
    requires BytesCounted(s, r, k, id)
    ensures FC.Enabled(n, FC.Receive(k)) && AtReceiver(FC.Step(n, FC.Receive(k)), r, data, id)
  {
    ConsumeIs(n, s, r, k, data, id);
    ReceiveIs(n, k);
    var n1, s1 := n.(dataWire := FC.Consume(n.dataWire, k)), s.(log := s.log + [Chunk(id, k)]);
    assert Waiting(s1, id) == Waiting(s, id);
    if k > 0 {
      CountedMatch(n1, s1, r, k, data, id);
    } else {
      Received(n1, s1, r, data, id);
    }
  }

  lemma ReceiveIs(n: FC.Net, k: nat)
    requires FC.Enabled(n, FC.Receive(k))
    ensures var n1 := n.(dataWire := FC.Consume(n.dataWire, k));
      FC.Step(n, FC.Receive(k)) == if k > 0 then FC.Count(n1, k) else n1
  {
  }

  lemma CountedMatch(n: FC.Net, s: Session, r: Session, k: nat, data: seq<nat>, id: int)
    requires Receives(n, s, id) && id in s.streams && QueueMatches(n.outq, Waiting(s, id))
    requires r == CountReceived(s, id, k).(receiving := r.receiving) && n.dataWire == Started(r, id) + data
    requires r.receiving.Some? && r.receiving.value.id == id ==> !r.receiving.value.ignored && !r.receiving.value.fin
    ensures AtReceiver(FC.Count(n, k), r, data, id)
  {
    CountMatches(n, s, id, k);
    CountKeeps(s, id, k);
    assert FC.Count(n, k).dataWire == n.dataWire;
    Received(FC.Count(n, k), CountReceived(s, id, k), r, data, id);
  }

  lemma Received(n: FC.Net, s: Session, r: Session, data: seq<nat>, id: int)
    requires Receives(n, s, id) && QueueMatches(n.outq, Waiting(s, id)) && r == s.(receiving := r.receiving) && id in s.streams
    requires n.dataWire == Started(r, id) + data
    requires r.receiving.Some? && r.receiving.value.id == id ==> !r.receiving.value.ignored && !r.receiving.value.fin
    ensures AtReceiver(n, r, data, id)
  {
  }

  /** What is left of the wire. */
  lemma ConsumeIs(n: FC.Net, s: Session, r: Session, k: nat, data: seq<nat>, id: int)
    requires s.receiving.Some? && s.receiving.value.id == id && k <= s.receiving.value.remaining
    requires n.dataWire == Started(s, id) + data
    requires r.receiving == if k < s.receiving.value.remaining then Some(s.receiving.value.(remaining := s.receiving.value.remaining - k)) else None
    ensures FC.Consume(n.dataWire, k) == Started(r, id) + data
  {
    assert n.dataWire[1..] == data;
  }

  /** The bytes are counted, and at the end of the frame nothing more happens. */
  lemma BytesAre(s: Session, k: nat, id: int)
    requires s.flowControl && DataAllowed(s, id)
    requires s.receiving.Some? && s.receiving.value.id == id && k <= s.receiving.value.remaining
    requires !s.receiving.value.ignored && !s.receiving.value.fin
    ensures BytesCounted(s, DataBytes(s, k), k, id)
  {
    var s1 := s.(log := s.log + [Chunk(id, k)]);
    CountAllowed(s1, id, k);
  }

  lemma CountAllowed(s: Session, id: int, k: nat)
    requires DataAllowed(s, id)
    ensures DataAllowed(CountReceived(s, id, k), id)
  {
  }

  /** The header of the next DATA frame comes off the wire. */
  lemma HeadAtB(n: FC.Net, s: Session, length: nat, data: seq<nat>, id: StreamId) returns (es: seq<FC.Event>)
    requires AtReceiver(n, s, [length] + data, id) && s.receiving.None? && DataAllowed(s, id)
    ensures ReceiverRuns(n, es, DataHead(s, id, false, length), data, id, [], 0, 0) && FC.Prudent(n, es) && FC.NeverLowered(n, es) && FC.StaysAuto(es)
  {
    var s1 := s.(receiving := Some(Inbound(id, false, false, length)));
    assert [] + ([length] + data) == [length] + data;
    Received(n, s, s1, data, id);
    if length == 0 {
      es := BytesAtB(n, s1, 0, data, id);
    } else {
      es := Unmoved(n, s1, s1, data, id);
    }
  }

  // What the receiver sends.

  lemma PullAtB(n: FC.Net, s: Session, read: ReadResult, packed: Option<nat>, data: seq<nat>, id: StreamId) returns (es: seq<FC.Event>)
    requires AtReceiver(n, s, data, id) && Inv(s) && s.hand.None? && s.active.None? && Packable(s, packed, id)
    requires (id in s.streams ==> !s.streams[id].state.Closing?) && Stays(s, Pull(s, read, packed), id)
    ensures ReceiverRuns(n, es, Pull(s, read, packed), data, id, [], 0, 0) && FC.Prudent(n, es) && FC.NeverLowered(n, es) && FC.StaysAuto(es)
  {
    PullDone(s, read, packed, id);
    if PopNext(s).hand.Some? {
      NoStray(n, s, data, id);
    }
    es := Unmoved(n, s, Pull(s, read, packed), data, id);
  }

  /** No WINDOW_UPDATE waits for a stream that is not open. */
  lemma NoStray(n: FC.Net, s: Session, data: seq<nat>, id: int)
    requires AtReceiver(n, s, data, id) && Inv(s) && s.hand.None? && s.active.None? && PopNext(s).hand.Some?
    ensures PopNext(s).hand.value.frame.WindowUpdate? && Meaning(PopNext(s).hand.value.frame, id).Some? ==> id in s.streams
  {
    PopWaits(s, id);
    var f := PopNext(s).hand.value.frame;
    if f.WindowUpdate? && Meaning(f, id).Some? {
      assert Waiting(s, id)[0] in multiset(Waiting(s, id));
      assert Waiting(s, id)[0] in n.outq;
    }
  }

  lemma PushAtB(n: FC.Net, s: Session, sent: nat, read: ReadResult, data: seq<nat>, id: StreamId) returns (es: seq<FC.Event>)
    requires AtReceiver(n, s, data, id) && s.hand.None? && s.active.Some? && s.active.value.offset + sent <= s.active.value.length
    requires Stays(s, Push(s, sent, read), id)
    ensures ReceiverRuns(n, es, Push(s, sent, read), data, id,
      if Completes(s, PushBytes(sent, read)) then AsSeq(Meaning(s.active.value.item.frame, id)) else [], 0, 0)
    ensures FC.Prudent(n, es) && FC.NeverLowered(n, es) && FC.StaysAuto(es)
  {
    var out := if Completes(s, PushBytes(sent, read)) then AsSeq(Meaning(s.active.value.item.frame, id)) else [];
    PushWaits(n, s, sent, read, id);
    es := Pushed(n, s, Push(s, sent, read), out, data, id);
  }

  lemma Pushed(n: FC.Net, s: Session, r: Session, out: seq<FC.Control>, data: seq<nat>, id: StreamId) returns (es: seq<FC.Event>)
    requires AtReceiver(n, s, data, id) && Stays(s, r, id) && Receives(n, r, id) && s.receiving == r.receiving
    requires Waiting(s, id) == out + Waiting(r, id) && |out| <= 1
    ensures ReceiverRuns(n, es, r, data, id, out, 0, 0) && FC.Prudent(n, es) && FC.NeverLowered(n, es) && FC.StaysAuto(es)
  {
    if |out| == 1 {
      assert out == [out[0]];
      es := Transmitted(n, s, r, data, id, out[0]);
    } else {
      assert out == [] && out + Waiting(r, id) == Waiting(r, id);
      es := Unmoved(n, s, r, data, id);
    }
  }

  /** A control frame waits until it is out. */
  lemma PushWaits(n: FC.Net, s: Session, sent: nat, read: ReadResult, id: StreamId)
    requires Receives(n, s, id) && s.hand.None? && s.active.Some? && Stays(s, Push(s, sent, read), id)
    ensures var r := Push(s, sent, read);
      && Receives(n, r, id) && r.receiving == s.receiving
      && Waiting(s, id) == (if s.active.value.offset + sent == s.active.value.length
                            then AsSeq(Meaning(s.active.value.item.frame, id)) else []) + Waiting(r, id)
  {
    PushDone(s, sent, read, id);
    assert [] + Controls(s.obPq, id) == Controls(s.obPq, id);
    assert [] + Waiting(s, id) == Waiting(s, id);
  }

  lemma Transmitted(n: FC.Net, s: Session, r: Session, data: seq<nat>, id: StreamId, c: FC.Control) returns (es: seq<FC.Event>)
    requires AtReceiver(n, s, data, id) && Stays(s, r, id) && Receives(n, r, id)
    requires Waiting(s, id) == [c] + Waiting(r, id) && s.receiving == r.receiving
    ensures ReceiverRuns(n, es, r, data, id, [c], 0, 0) && FC.Prudent(n, es) && FC.NeverLowered(n, es) && FC.StaysAuto(es)
  {
    var k := TransmitFirst(n.outq, c, Waiting(r, id));
    TransmitIs(n, k);
    TransmitMatches(n, FC.Step(n, FC.Transmit(k)), s, r, data, id, k);
    es := [FC.Transmit(k)];
    One(n, es[0]);
  }

  lemma TransmitIs(n: FC.Net, k: nat)
    requires FC.Enabled(n, FC.Transmit(k))
    ensures FC.Step(n, FC.Transmit(k)) == n.(outq := n.outq[..k] + n.outq[k + 1..], ctlWire := n.ctlWire + [n.outq[k]])
  {
  }

  lemma TransmitMatches(n: FC.Net, n': FC.Net, s: Session, r: Session, data: seq<nat>, id: StreamId, k: nat)
    requires AtReceiver(n, s, data, id) && Stays(s, r, id) && Receives(n, r, id) && s.receiving == r.receiving && k < |n.outq|
    requires n' == n.(outq := n.outq[..k] + n.outq[k + 1..], ctlWire := n.ctlWire + [n.outq[k]])
    requires QueueMatches(n.outq[..k] + n.outq[k + 1..], Waiting(r, id))
    ensures AtReceiver(n', r, data, id)
  {
    assert forall c <- n'.outq :: c in n.outq;
  }

  /** What leaves the receiver with an input. */
  function Leaves(s: Session, i: Input, id: int): seq<FC.Control> {
    if Completes(s, i) then AsSeq(Meaning(s.active.value.item.frame, id)) else []
  }

  /** The receiver never announces a smaller initial window with this input. */
  predicate Raises(s: Session, i: Input) {
    i.SubmitSettings? ==> NotLower(s, i.entries)
  }

  /** Automatic WINDOW_UPDATE is not switched off with this input. */
  predicate KeepsAuto(i: Input) {
    i.SetNoAutoWindowUpdate? ==> !i.value
  }

  /** An input that takes the receiver to `r` is a sequence of protocol steps. */
  ghost predicate InputRuns(n: FC.Net, es: seq<FC.Event>, s: Session, i: Input, r: Session, data: seq<nat>, id: int) {
    && ReceiverRuns(n, es, r, data, id, Leaves(s, i, id), DroppedBy(s, i, id), UnbackedBy(s, i, id))
    && (GrantsBacked(s, i, id) ==> FC.Prudent(n, es)) && (Raises(s, i) ==> FC.NeverLowered(n, es))
    && (KeepsAuto(i) ==> FC.StaysAuto(es))
  }

  /** Any input at the receiver. */
  lemma StepAtB(n: FC.Net, s: Session, i: Input, data: seq<nat>, id: StreamId) returns (es: seq<FC.Event>)
    requires AtReceiver(n, s, data, id) && Inv(s) && s.hand.None? && Stays(s, Step(s, i), id)
    requires (id in s.streams ==> !s.streams[id].state.Closing?) && (Started(s, id) != [] ==> DataAllowed(s, id))
    requires !(i.RecvDataHead? && i.id == id)
    requires i.SubmitWindowUpdate? ==> i.amount <= INT32_MAX
    requires i.SubmitSettings? ==> 0 <= Lookup(i.entries, SETTINGS_INITIAL_WINDOW_SIZE, 0) <= INT32_MAX
    requires i.PullItem? && s.active.None? ==> Packable(s, i.packed, id)
    ensures InputRuns(n, es, s, i, Step(s, i), data, id)
  {
    if !Special(s, i, id) {
      es := OtherAtB(n, s, i, data, id);
    } else if i.PullItem? && s.active.None? {
      es := PullInput(n, s, i, data, id);
    } else if Pushes(s, i) {
      es := PushInput(n, s, i, data, id);
    } else if i.PullItem? || i.PushBytes? {
      es := IdleInput(n, s, i, data, id);
    } else if IsCall(i) {
      es := CallAtB(n, s, i, data, id);
    } else {
      es := ReceiveAtB(n, s, i, data, id);
    }
  }

  /** The application grants no more than has been received. */
  predicate GrantsBacked(s: Session, i: Input, id: int) {
    i.SubmitWindowUpdate? && i.id == id && id in s.streams ==> i.amount <= s.streams[id].recvWindow
  }

  /** A send callback for the frame in the buffer. */
  predicate Pushes(s: Session, i: Input) {
    i.PushBytes? && s.active.Some? && s.active.value.offset + i.sent <= s.active.value.length
  }

  lemma PullInput(n: FC.Net, s: Session, i: Input, data: seq<nat>, id: StreamId) returns (es: seq<FC.Event>)
    requires AtReceiver(n, s, data, id) && Inv(s) && s.hand.None? && Stays(s, Step(s, i), id)
    requires i.PullItem? && s.active.None? && Packable(s, i.packed, id) && (id in s.streams ==> !s.streams[id].state.Closing?)
    ensures InputRuns(n, es, s, i, Step(s, i), data, id)
  {
    StepPull(s, i.read, i.packed);
    es := PullAtB(n, s, i.read, i.packed, data, id);
  }

  lemma PushInput(n: FC.Net, s: Session, i: Input, data: seq<nat>, id: StreamId) returns (es: seq<FC.Event>)
    requires AtReceiver(n, s, data, id) && s.hand.None? && Stays(s, Step(s, i), id) && Pushes(s, i)
    ensures InputRuns(n, es, s, i, Step(s, i), data, id)
  {
    StepPush(s, i.sent, i.read);
    es := PushAtB(n, s, i.sent, i.read, data, id);
  }

  lemma IdleInput(n: FC.Net, s: Session, i: Input, data: seq<nat>, id: StreamId) returns (es: seq<FC.Event>)
    requires AtReceiver(n, s, data, id) && s.hand.None? && !Pushes(s, i) && (i.PushBytes? || (i.PullItem? && s.active.Some?))
    ensures InputRuns(n, es, s, i, Step(s, i), data, id)
  {
    IdleIs(s, i);
    es := QuietInput(n, s, i, s, data, id);
  }

  lemma IdleIs(s: Session, i: Input)
    requires s.hand.None? && !Pushes(s, i) && (i.PushBytes? || (i.PullItem? && s.active.Some?))
    ensures Step(s, i) == s && !Completes(s, i)
  {
  }

  lemma CallAtB(n: FC.Net, s: Session, i: Input, data: seq<nat>, id: StreamId) returns (es: seq<FC.Event>)
    requires AtReceiver(n, s, data, id) && Inv(s) && s.hand.None?
    requires i.SubmitSettings? || i.SetNoAutoWindowUpdate? || (i.SubmitWindowUpdate? && i.id == id && i.amount <= INT32_MAX)
    requires i.SubmitSettings? ==> 0 <= Lookup(i.entries, SETTINGS_INITIAL_WINDOW_SIZE, 0) <= INT32_MAX
    ensures InputRuns(n, es, s, i, Step(s, i), data, id)
  {
    CallIs(s, i);
    if i.SubmitWindowUpdate? {
      es := GrantInput(n, s, i, Step(s, i), data, id);
    } else if i.SubmitSettings? {
      es := AnnounceInput(n, s, i, Step(s, i), data, id);
    } else {
      es := SwitchInput(n, s, i, Step(s, i), data, id);
    }
  }

  lemma CallIs(s: Session, i: Input)
    requires s.hand.None?
    ensures i.SubmitWindowUpdate? ==> Step(s, i) == OnSubmitWindowUpdate(s, i.id, i.amount)
    ensures i.SubmitSettings? ==> Step(s, i) == OnSubmitSettings(s, i.entries)
    ensures i.SetNoAutoWindowUpdate? ==> Step(s, i) == OnSetOption(s, i.value)
  {
  }

  lemma GrantInput(n: FC.Net, s: Session, i: Input, r: Session, data: seq<nat>, id: StreamId) returns (es: seq<FC.Event>)
    requires AtReceiver(n, s, data, id) && i.SubmitWindowUpdate? && i.id == id && i.amount <= INT32_MAX
    requires r == OnSubmitWindowUpdate(s, id, i.amount)
    ensures InputRuns(n, es, s, i, r, data, id)
  {
    es := GrantAtB(n, s, i, data, id);
  }

  lemma AnnounceInput(n: FC.Net, s: Session, i: Input, r: Session, data: seq<nat>, id: StreamId) returns (es: seq<FC.Event>)
    requires AtReceiver(n, s, data, id) && Inv(s) && i.SubmitSettings? && r == OnSubmitSettings(s, i.entries)
    requires 0 <= Lookup(i.entries, SETTINGS_INITIAL_WINDOW_SIZE, 0) <= INT32_MAX
    ensures InputRuns(n, es, s, i, r, data, id)
  {
    es := AnnounceAtB(n, s, i.entries, data, id);
  }

  lemma SwitchInput(n: FC.Net, s: Session, i: Input, r: Session, data: seq<nat>, id: StreamId) returns (es: seq<FC.Event>)
    requires AtReceiver(n, s, data, id) && i.SetNoAutoWindowUpdate? && r == OnSetOption(s, i.value)
    ensures InputRuns(n, es, s, i, r, data, id)
  {
    es := SwitchAtB(n, s, i.value, data, id);
  }

  lemma ReceiveAtB(n: FC.Net, s: Session, i: Input, data: seq<nat>, id: StreamId) returns (es: seq<FC.Event>)
    requires AtReceiver(n, s, data, id) && Inv(s) && s.hand.None? && (Started(s, id) != [] ==> DataAllowed(s, id))
    requires i.RecvSettings? || (i.RecvWindowUpdate? && i.id == id) || (i.RecvDataBytes? && s.receiving.Some? && s.receiving.value.id == id)
    ensures InputRuns(n, es, s, i, Step(s, i), data, id)
  {
    if s.receiving.None? {
      es := WindowsAtB(n, s, i, data, id);
    } else if i.RecvDataBytes? && i.count <= s.receiving.value.remaining {
      es := BytesInput(n, s, i, data, id);
    } else {
      StepBytes(s, i);
      es := QuietInput(n, s, i, s, data, id);
    }
  }

  lemma BytesInput(n: FC.Net, s: Session, i: Input, data: seq<nat>, id: StreamId) returns (es: seq<FC.Event>)
    requires AtReceiver(n, s, data, id) && s.hand.None? && DataAllowed(s, id)
    requires s.receiving.Some? && s.receiving.value.id == id && i.RecvDataBytes? && i.count <= s.receiving.value.remaining
    ensures InputRuns(n, es, s, i, Step(s, i), data, id)
  {
    StepBytes(s, i);
    es := BytesAtB(n, s, i.count, data, id);
  }
}
