/** Both directions of an exchange between a new client and a new server, in which DATA is on
    the wire before the receiver may take it: what `TwoSessions` promises covers them. */
module Exchanges {
  import opened Base
  import opened SessionTypes
  import opened SessionCore
  import opened SessionSend
  import opened SessionReceive
  import opened SessionRuns
  import opened Ports
  import opened Endpoints
  import opened TwoSessions
  import opened Oversized

  // ---------- one more move ----------

  /** The moves `ms` lead from `start` to `p`. */
  ghost predicate Leads(start: Pair, ms: seq<Move>, p: Pair) {
    New(start) && LiveRun(start, 1, ms) && RunPair(start, 1, ms) == p && p.a.hand.None? && p.b.hand.None?
  }

  lemma {:induction false} Extend(start: Pair, id: StreamId, ms: seq<Move>, m: Move)
    requires LiveRun(start, id, ms) && RunPair(start, id, ms).a.hand.None? && RunPair(start, id, ms).b.hand.None?
    requires Allowed(RunPair(start, id, ms), id, m) && Live(Next(RunPair(start, id, ms), id, m), id)
    ensures LiveRun(start, id, ms + [m]) && RunPair(start, id, ms + [m]) == Next(RunPair(start, id, ms), id, m)
    decreases ms
  {
    if ms == [] {
      assert [m][1..] == [] && ms + [m] == [m];
    } else {
      Extend(Next(start, id, ms[0]), id, ms[1..], m);
      assert (ms + [m])[1..] == ms[1..] + [m];
    }
  }

  /** A call, or a frame sent, at the sender. */
  lemma MoveA(start: Pair, ms: seq<Move>, p: Pair, i: Input, a: Session)
    requires Leads(start, ms, p) && a == Step(p.a, i) && !i.RecvWindowUpdate? && !i.RecvSettings?
    requires (p.atA ==> 1 in a.streams) && NoFin(a, 1)
    ensures Leads(start, ms + [AtA(i)], WithA(p.(data := p.data + DataOut(p.a, i, 1)), a, 1))
  {
    LiveEnds(start, 1, ms);
    Extend(start, 1, ms, AtA(i));
  }

  /** A call, or a frame sent or received, at the receiver. */
  lemma MoveB(start: Pair, ms: seq<Move>, p: Pair, i: Input, b: Session)
    requires Leads(start, ms, p) && b == Step(p.b, i) && Allowed(p, 1, AtB(i))
    requires ControlOut(p.b, i, 1) == []
    requires (p.atB || 1 in b.streams ==> Undisturbed(b, 1)) && (Started(b, 1) != [] ==> DataAllowed(b, 1))
    ensures Leads(start, ms + [AtB(i)], WithB(p, b, 1))
  {
    LiveEnds(start, 1, ms);
    Extend(start, 1, ms, AtB(i));
    assert p.ctl + [] == p.ctl;
  }

  lemma {:induction false} LiveEnds(start: Pair, id: StreamId, ms: seq<Move>)
    requires LiveRun(start, id, ms)
    ensures Live(RunPair(start, id, ms), id) && RunPair(start, id, ms).a.hand.None? && RunPair(start, id, ms).b.hand.None?
    decreases ms
  {
    if ms != [] {
      LiveEnds(Next(start, id, ms[0]), id, ms[1..]);
    }
  }

  // ---------- a DATA frame leaves ----------

  lemma PackIs(s: Session, k: nat)
    requires Ready(s, 1) && 0 < k <= NextDataRead(s, s.streams[1])
    ensures var r := Step(s, PullItem(ReadBytes(k, false), None));
      && r == s.(obPq := s.obPq[1..], active := r.active, cfg := r.cfg)
      && r.active == Some(Active(Item(s.obPq[0].num, s.obPq[0].pri, Data(1, s.obPq[0].frame.fin, s.obPq[0].frame.eof)), k + 8, 0, k, 0))
  {
    StepPull(s, ReadBytes(k, false), None);
  }

  /** A DATA frame of stream 1 is in the buffer. */
  predicate Packed1(s: Session, k: nat) {
    && s.hand.None? && 1 in s.streams && SendsData(s, 1) && !s.active.value.item.frame.eof
    && s.active.value.length == k + 8 && s.active.value.offset == 0 && s.active.value.word == k
  }

  lemma DataOutIs(s: Session, k: nat)
    requires Packed1(s, k)
    ensures var r := Step(s, PushBytes(k + 8, ReadDeferred));
      1 in r.streams && r.active.None? && DataOut(s, PushBytes(k + 8, ReadDeferred), 1) == [k]
  {
    StepPush(s, k + 8, ReadDeferred);
    Deferred(Charge(s, k + 8));
  }

  lemma Deferred(s: Session)
    requires s.hand.None? && SendsData(s, 1) && !s.active.value.item.frame.eof && 1 in s.streams
    ensures var r := AfterFrameSent(s, ReadDeferred); 1 in r.streams && r.active.None?
  {
    var s1 := Complete(s);
    assert s1.streams == s.streams;
    if DataSendError(s1, 1) == 0 {
      DeferredAgain(s1);
    }
  }

  lemma DeferredAgain(s: Session)
    requires s.hand.Some? && s.active.None? && s.hand.value.frame.Data? && s.hand.value.frame.id == 1 && DataSendError(s, 1) == 0
    ensures var r := ReadAgain(s, ReadDeferred); 1 in r.streams && r.active.None?
  {
  }

  // ---------- the server ----------

  /** A server with one stream the client has opened. */
  predicate Serving(s: Session, state: StreamState) {
    && s.server && s.flowControl && s.streams.Keys == {1} && s.hand.None? && s.receiving.None? && s.cfg == Init(true, true).cfg
    && s.streams[1] == Stream(0, state, false, false, None, false, s.cfg.remoteInit, 0, 0, 0) && s.obSsPq == []
  }

  const SYN: Input := RecvSynStream(1, false, false, 0, 0, true)

  lemma ServerOpens(s: Session)
    requires s == Init(true, true)
    ensures var r := Step(s, SYN); Serving(r, Opening) && r.obPq == [] && r.active.None?
  {
  }

  lemma ReplyQueued(s: Session)
    requires Serving(s, Opening) && s.obPq == [] && s.active.None?
    ensures var r := Step(s, SubmitSynReply(1, false, true));
      Serving(r, Opening) && r.obPq == [Item(s.nextSeq, 0, SynReply(1, false, true))] && r.active.None?
  {
  }

  lemma ReplyPacked(s: Session, x: Item)
    requires Serving(s, Opening) && s.obPq == [x] && x.frame == SynReply(1, false, true) && s.active.None?
    ensures var r := Step(s, PullItem(ReadDeferred, Some(12)));
      Serving(r, Opening) && r.obPq == [] && r.active == Some(Active(x, 12, 0, 0, 0))
  {
    StepPull(s, ReadDeferred, Some(12));
    assert [x][1..] == [];
  }

  lemma ReplyOut(s: Session, x: Item)
    requires Serving(s, Opening) && s.obPq == [] && x.frame == SynReply(1, false, true) && s.active == Some(Active(x, 12, 0, 0, 0))
    ensures Ready(Step(s, PushBytes(12, ReadDeferred)), 1) && NextDataRead(s, s.streams[1]) == DATA_PAYLOAD_LENGTH
    ensures Step(s, PushBytes(12, ReadDeferred)).streams[1] == s.streams[1].(state := Opened)
  {
    StepPush(s, 12, ReadDeferred);
  }

  // ---------- the client ----------

  const ASK: Input := SubmitSynStream(false, false, 0, 0, true)
  const PACK: Input := PullItem(ReadDeferred, Some(18))
  const SEND: Input := PushBytes(18, ReadDeferred)

  ghost const REQUEST: Item := Item(0, 0, SynStream(0, false, false, 0, 0, true))

  lemma ClientPacks(s: Session)
    requires Asked(s, REQUEST)
    ensures Opening1(Step(s, PACK), REQUEST) && Step(s, PACK).cfg == s.cfg
  {
    StepPull(s, ReadDeferred, Some(18));
    PullSyn(s, REQUEST, ReadDeferred);
  }

  lemma ClientSends(s: Session)
    requires Opening1(s, REQUEST)
    ensures var r := Step(s, SEND); Ready(r, 1) && r.cfg == s.cfg && r.streams.Keys == {1} && r.streams[1] == s.streams[1].(state := Opening)
  {
    StepPush(s, 18, ReadDeferred);
    SynGoesOut(s, REQUEST, ReadDeferred);
  }

  /** A client that has sent its request, with DATA of its own still to send. */
  predicate Requested(s: Session) {
    && Ready(s, 1) && !s.server && s.streams.Keys == {1} && s.cfg == Init(false, true).cfg
    && s.streams[1] == Stream(0, Opening, false, false, None, false, s.cfg.remoteInit, 0, 0, 0)
  }

  // ---------- the runs ----------

  /** The client opens its stream at the sending end. */
  lemma AsksAtA(start: Pair) returns (ms: seq<Move>, p: Pair)
    requires New(start) && !start.a.server
    ensures Leads(start, ms, p) && Requested(p.a) && p.b == start.b && p.data == [] && p.ctl == [] && p.atA && !p.atB
  {
    var none: seq<Move> := [];
    AsksFirst(start.a);
    var a1 := Step(start.a, ASK);
    MoveA(start, none, start, ASK, a1);
    var p1 := WithA(start, a1, 1);
    assert Leads(start, none + [AtA(ASK)], p1);
    ClientPacks(a1);
    var a2 := Step(a1, PACK);
    MoveA(start, none + [AtA(ASK)], p1, PACK, a2);
    var p2 := WithA(p1, a2, 1);
    ClientSends(a2);
    var a3 := Step(a2, SEND);
    ms, p := none + [AtA(ASK)] + [AtA(PACK)] + [AtA(SEND)], WithA(p2, a3, 1);
    MoveA(start, none + [AtA(ASK)] + [AtA(PACK)], p2, SEND, a3);
  }

  lemma PackAllowed(p: Pair)
    requires p.a.hand.None? && Asked(p.b, REQUEST)
    ensures Allowed(p, 1, AtB(PACK))
  {
    assert PopNext(p.b).hand == Some(REQUEST);
  }

  /** The client opens its stream at the receiving end. */
  lemma AsksAtB(start: Pair) returns (ms: seq<Move>, p: Pair)
    requires New(start) && start.a.server
    ensures Leads(start, ms, p) && Requested(p.b) && p.a == start.a && p.data == [] && p.ctl == [] && !p.atA && p.atB
  {
    var none: seq<Move> := [];
    AsksFirst(start.b);
    var b1 := Step(start.b, ASK);
    MoveB(start, none, start, ASK, b1);
    var p1 := WithB(start, b1, 1);
    assert Leads(start, none + [AtB(ASK)], p1);
    ClientPacks(b1);
    var b2 := Step(b1, PACK);
    PackAllowed(p1);
    MoveB(start, none + [AtB(ASK)], p1, PACK, b2);
    var p2 := WithB(p1, b2, 1);
    ms, p := SendsAtB(start, none + [AtB(ASK)] + [AtB(PACK)], p2);
  }

  lemma SendsAtB(start: Pair, ms: seq<Move>, p: Pair) returns (ms': seq<Move>, p': Pair)
    requires Leads(start, ms, p) && Opening1(p.b, REQUEST) && p.b.cfg == Init(false, true).cfg
    ensures Leads(start, ms', p') && Requested(p'.b) && p' == p.(b := p'.b, atB := true)
  {
    ClientSends(p.b);
    ms', p' := ms + [AtB(SEND)], WithB(p, Step(p.b, SEND), 1);
    MoveB(start, ms, p, SEND, p'.b);
  }

  const REPLY: Input := SubmitSynReply(1, false, true)
  const PACKREPLY: Input := PullItem(ReadDeferred, Some(12))
  const SENDREPLY: Input := PushBytes(12, ReadDeferred)

  /** The server takes the request and sends its SYN_REPLY. */
  lemma ServesAtA(start: Pair, ms: seq<Move>, p: Pair) returns (ms': seq<Move>, p': Pair)
    requires Leads(start, ms, p) && p.a == Init(true, true) && p.data == []
    ensures Leads(start, ms', p') && Ready(p'.a, 1) && NextDataRead(p'.a, p'.a.streams[1]) == DATA_PAYLOAD_LENGTH
    ensures p' == p.(a := p'.a, atA := true)
  {
    ServerOpens(p.a);
    var a1 := Step(p.a, SYN);
    MoveA(start, ms, p, SYN, a1);
    var p1 := WithA(p, a1, 1);
    ReplyQueued(a1);
    var a2 := Step(a1, REPLY);
    MoveA(start, ms + [AtA(SYN)], p1, REPLY, a2);
    var p2 := WithA(p1, a2, 1);
    ReplyPacked(a2, a2.obPq[0]);
    var a3 := Step(a2, PACKREPLY);
    MoveA(start, ms + [AtA(SYN)] + [AtA(REPLY)], p2, PACKREPLY, a3);
    var p3 := WithA(p2, a3, 1);
    ReplyOut(a3, a2.obPq[0]);
    var a4 := Step(a3, SENDREPLY);
    MoveA(start, ms + [AtA(SYN)] + [AtA(REPLY)] + [AtA(PACKREPLY)], p3, SENDREPLY, a4);
    ms', p' := ms + [AtA(SYN)] + [AtA(REPLY)] + [AtA(PACKREPLY)] + [AtA(SENDREPLY)], WithA(p3, a4, 1);
  }

  /** A DATA frame with `k` bytes goes onto the wire. */
  lemma DataSent(start: Pair, ms: seq<Move>, p: Pair, k: nat) returns (ms': seq<Move>, p': Pair)
    requires Leads(start, ms, p) && Ready(p.a, 1) && p.data == [] && p.atA
    requires 0 < k <= NextDataRead(p.a, p.a.streams[1])
    ensures Leads(start, ms', p') && p' == p.(a := p'.a, data := [k])
  {
    var i, j := PullItem(ReadBytes(k, false), None), PushBytes(k + 8, ReadDeferred);
    PackIs(p.a, k);
    var a1 := Step(p.a, i);
    MoveA(start, ms, p, i, a1);
    var p1 := WithA(p, a1, 1);
    DataOutIs(a1, k);
    MoveA(start, ms + [AtA(i)], p1, j, Step(a1, j));
    ms', p' := ms + [AtA(i)] + [AtA(j)], WithA(p1.(data := [k]), Step(a1, j), 1);
  }

  /** It is taken off the wire and received. */
  lemma DataTaken(start: Pair, ms: seq<Move>, p: Pair, k: nat) returns (ms': seq<Move>, p': Pair)
    requires Leads(start, ms, p) && p.b.receiving.None? && DataAllowed(p.b, 1) && p.data == [k]
    requires p.b.flowControl && p.b.streams[1].recvWindow == 0 && 0 < 2 * k < p.b.cfg.localInit && k <= INT32_MAX && p.atB
    ensures Leads(start, ms', p') && p'.data == [] && RecvOf(p'.b, 1) == k
  {
    StepHead(p.b, 1, false, k);
    var b1 := Step(p.b, RecvDataHead(1, false, k));
    LiveEnds(start, 1, ms);
    Extend(start, 1, ms, DataArrives);
    var p1 := WithB(p.(data := []), b1, 1);
    TakesBytes(b1, k);
    var i := RecvDataBytes(k);
    MoveB(start, ms + [DataArrives], p1, i, Step(b1, i));
    ms', p' := ms + [DataArrives] + [AtB(i)], WithB(p1, Step(b1, i), 1);
  }

  lemma TakesBytes(s: Session, k: nat)
    requires s.receiving == Some(Inbound(1, false, false, k)) && s.hand.None? && DataAllowed(s, 1)
    requires s.flowControl && s.streams[1].recvWindow == 0 && 0 < 2 * k < s.cfg.localInit && k <= INT32_MAX
    ensures var r := Step(s, RecvDataBytes(k)); Undisturbed(r, 1) && r.receiving.None? && r.streams[1].recvWindow == k
  {
    StepBytes(s, RecvDataBytes(k));
  }

  lemma UploadTaken(start: Pair, ms: seq<Move>, p: Pair, k: nat) returns (ms': seq<Move>, p': Pair)
    requires Leads(start, ms, p) && p.b == Init(true, true) && !p.atB && p.data == [k] && 0 < k <= DATA_PAYLOAD_LENGTH
    ensures Leads(start, ms', p') && p'.data == [] && RecvOf(p'.b, 1) == k
  {
    ServerOpens(p.b);
    var p1 := WithB(p, Step(p.b, SYN), 1);
    MoveB(start, ms, p, SYN, p1.b);
    ms', p' := DataTaken(start, ms + [AtB(SYN)], p1, k);
  }

  /** A request body: DATA is on the wire before the server knows the stream. */
  lemma Upload(start: Pair, k: nat) returns (ms: seq<Move>, p: Pair, more: seq<Move>, q: Pair)
    requires New(start) && !start.a.server && 0 < k <= DATA_PAYLOAD_LENGTH
    ensures Leads(start, ms, p) && p.data == [k] && 1 !in p.b.streams
    ensures Leads(start, more, q) && q.data == [] && RecvOf(q.b, 1) == k
  {
    var open, p0 := AsksAtA(start);
    ms, p := DataSent(start, open, p0, k);
    more, q := UploadTaken(start, ms, p, k);
  }

  lemma ReplyComes(s: Session)
    requires Requested(s)
    ensures var r := Step(s, RecvSynReply(1, false));
      && DataAllowed(r, 1) && Undisturbed(r, 1) && r.streams[1].recvWindow == 0 && r.cfg == s.cfg && r.receiving.None?
  {
  }

  lemma ResponseTaken(start: Pair, ms: seq<Move>, p: Pair, k: nat) returns (ms': seq<Move>, p': Pair)
    requires Leads(start, ms, p) && Requested(p.b) && p.atB && p.data == [k] && 0 < k <= DATA_PAYLOAD_LENGTH
    ensures Leads(start, ms', p') && p'.data == [] && RecvOf(p'.b, 1) == k
  {
    ReplyComes(p.b);
    var p1 := WithB(p, Step(p.b, RecvSynReply(1, false)), 1);
    MoveB(start, ms, p, RecvSynReply(1, false), p1.b);
    ms', p' := DataTaken(start, ms + [AtB(RecvSynReply(1, false))], p1, k);
  }

  /** A response body: DATA is on the wire before the client has the SYN_REPLY. */
  lemma Response(start: Pair, k: nat) returns (ms: seq<Move>, p: Pair, more: seq<Move>, q: Pair)
    requires New(start) && start.a.server && 0 < k <= DATA_PAYLOAD_LENGTH
    ensures Leads(start, ms, p) && p.data == [k] && !DataAllowed(p.b, 1)
    ensures Leads(start, more, q) && q.data == [] && RecvOf(q.b, 1) == k
  {
    var open, p0 := AsksAtB(start);
    var served, p1 := ServesAtA(start, open, p0);
    ms, p := DataSent(start, served, p1, k);
    more, q := ResponseTaken(start, ms, p, k);
  }
}
