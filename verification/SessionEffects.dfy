/** What each operation does to the streams, seen from outside: which half of which stream is
    shut, which stream opens, advances or closes, and which frame is queued. */
module SessionEffects {
  import opened Base
  import opened SessionTypes
  import opened SessionInvariant
  import opened SessionMoves
  import opened SessionCore
  import opened SessionSend
  import opened SessionReceive
  import opened SessionRuns
  import opened SessionAnswers

  /** A new session: no stream, no frame, no GOAWAY; IDs from 1 at a client and from 2 at a server,
      250 streams and a window of one megabyte each way. */
  lemma NewSession(server: bool, flowControl: bool)
    ensures var s := Init(server, flowControl);
      && s.server == server && s.flowControl == flowControl && s.nextStreamId == (if server then 2 else 1) && s.lastRecvStreamId == 0
      && |s.streams| == |s.obPq| == |s.obSsPq| == |s.log| == 0 && s.active.None? && s.receiving.None? && !s.goaway.Any()
      && s.cfg.remoteMax == s.cfg.localMax == 250 && s.cfg.remoteInit == s.cfg.localInit == 1048576 && !s.cfg.noAutoWindowUpdate
  {
  }

  /** The status codes and setting IDs of sections 2.6.3 and 2.6.4 of the draft. */
  lemma WireCodes()
    ensures PROTOCOL_ERROR == 1 && INVALID_STREAM == 2 && REFUSED_STREAM == 3 && UNSUPPORTED_VERSION == 4
    ensures INTERNAL_ERROR == 6 && FLOW_CONTROL_ERROR == 7 && STREAM_IN_USE == 8
    ensures SETTINGS_MAX_CONCURRENT_STREAMS == 4 && SETTINGS_INITIAL_WINDOW_SIZE == 7
  {
  }

  /** Each control frame goes to its handler, between DATA frames. */
  lemma SynStreamHandled(s: Session, id: StreamId, fin: bool, uni: bool, assoc: StreamId, pri: nat, versionOk: bool)
    requires s.hand.None? && s.receiving.None?
    ensures Step(s, RecvSynStream(id, fin, uni, assoc, pri, versionOk)) == OnSynStream(s, id, fin, uni, assoc, pri, versionOk)
  {
  }

  lemma ReplyHandled(s: Session, id: StreamId, fin: bool)
    requires s.hand.None? && s.receiving.None?
    ensures Step(s, RecvSynReply(id, fin)) == OnSynReply(s, id, fin)
  {
  }

  lemma HeadersHandled(s: Session, id: StreamId, fin: bool)
    requires s.hand.None? && s.receiving.None?
    ensures Step(s, RecvHeaders(id, fin)) == OnHeaders(s, id, fin)
  {
  }

  /** Inside a DATA frame nothing is received but its bytes. */
  lemma MidFrame(s: Session, i: Input)
    requires s.hand.None? && s.receiving.Some? && !IsCall(i) && !i.PullItem? && !i.PushBytes?
    ensures Step(s, i) == if i.RecvDataBytes? && i.count <= s.receiving.value.remaining then DataBytes(s, i.count) else s
  {
  }

  /** How much may be read for a DATA frame: up to its size, and with flow control up to the window. */
  lemma ReadsExactly(s: Session, st: Stream, n: nat)
    requires n > 0
    ensures n <= NextDataRead(s, st) <==> n <= 4096 && (s.flowControl ==> n <= st.window)
  {
    ReadLimitExact(st.window, n);
  }

  // ---------- a frame has been sent ----------

  /** The frame belongs to stream `j`. */
  predicate Concerns(f: Frame, j: int) {
    match f
    case Settings(_) => false
    case Ping(_) => false
    case Goaway(_) => false
    case _ => f.id == j
  }

  /** The stream after such a frame has gone out: SYN_STREAM makes it Opening and SYN_REPLY
      Opened; UNIDIRECTIONAL shuts the peer's half, FIN ours. */
  function AfterSending(st: Stream, f: Frame): Stream {
    st.(state := if f.SynStream? then Opening else if f.SynReply? then Opened else st.state,
        shutRd := st.shutRd || (f.SynStream? && f.uni),
        shutWr := st.shutWr || f.CarriesFin())
  }

  predicate ShutBoth(st: Stream) {
    st.shutRd && st.shutWr
  }

  lemma ShutTable(s: Session, id: int, rd: bool, wr: bool, j: int)
    requires id in s.streams && j in s.streams
    ensures var r, st := Shut(s, id, rd, wr), s.streams[j].(shutRd := s.streams[j].shutRd || rd, shutWr := s.streams[j].shutWr || wr);
      && r.streams.Keys <= s.streams.Keys && r.cfg == s.cfg && r.goaway == s.goaway
      && (j != id ==> j in r.streams && r.streams[j] == s.streams[j])
      && (j == id ==> (j in r.streams <==> !ShutBoth(st)) && (j in r.streams ==> r.streams[j] == st))
  {
  }

  lemma SynTable(s: Session, id: int, state: StreamState, rd: bool, wr: bool, hasData: bool, j: int)
    requires id in s.streams && j in s.streams && (Inv(s) ==> StateOk(s, id, state))
    ensures var r, was := SynSent(s, id, state, rd, wr, hasData), s.streams[j];
      var st := was.(state := state, shutRd := was.shutRd || rd, shutWr := was.shutWr || wr);
      && r.streams.Keys <= s.streams.Keys && r.cfg == s.cfg && r.goaway == s.goaway
      && (j != id ==> j in r.streams && r.streams[j] == was)
      && (j == id ==> (j in r.streams <==> !ShutBoth(st)) && (j in r.streams ==> r.streams[j] == st))
  {
    ShutTable(SetState(s, id, state), id, rd, wr, j);
  }

  /** A stream stays unless it is reset or both its halves are shut, and no other stream moves;
      of the settings only the last PING is remembered. */
  ghost predicate Sends(s: Session, r: Session, f: Frame, j: int) {
    && r.streams.Keys <= s.streams.Keys && r.goaway == s.goaway
    && r.cfg == s.cfg.(lastPing := if f.Ping? then f.uniqueId else s.cfg.lastPing)
    && (j in s.streams ==>
         if !Concerns(f, j) then j in r.streams && r.streams[j] == s.streams[j]
         else
           && (j in r.streams <==> !f.RstStream? && !ShutBoth(AfterSending(s.streams[j], f)))
           && (j in r.streams ==> r.streams[j] == AfterSending(s.streams[j], f)))
  }

  lemma SendingTable(s: Session, j: int)
    requires Inv(s) && s.active.Some?
    ensures Sends(s, SentEffects(s), s.active.value.item.frame, j)
  {
    var f := s.active.value.item.frame;
    if f.Begins() && f.id in s.streams {
      BeginningOk(s);
      SynRow(s, f, if f.SynStream? then Opening else Opened, f.SynStream? && f.uni, j);
    } else {
      assert j in s.streams ==> StreamOk(j, s.streams[j]);
      OtherRow(s, f, j);
    }
  }

  lemma OtherRow(s: Session, f: Frame, j: int)
    requires s.active.Some? && f == s.active.value.item.frame && !(f.Begins() && f.id in s.streams)
    requires j in s.streams ==> StreamOk(j, s.streams[j])
    ensures Sends(s, SentEffects(s), f, j)
  {
    if f.Follows() && f.id in s.streams {
      ShutRow(s, f, f.CarriesFin(), j);
    }
  }

  lemma SynRow(s: Session, f: Frame, state: StreamState, rd: bool, j: int)
    requires f.Begins() && f.id in s.streams && (Inv(s) ==> StateOk(s, f.id, state))
    requires state == (if f.SynStream? then Opening else Opened) && rd == (f.SynStream? && f.uni)
    ensures Sends(s, SynSent(s, f.id, state, rd, f.fin, f.hasData), f, j)
  {
    SynTable(s, f.id, state, rd, f.fin, f.hasData, if j in s.streams then j else f.id);
    Row(s, SynSent(s, f.id, state, rd, f.fin, f.hasData), f, j);
  }

  lemma Row(s: Session, r: Session, f: Frame, j: int)
    requires f.Begins() && r.streams.Keys <= s.streams.Keys && r.cfg == s.cfg && r.goaway == s.goaway
    requires j in s.streams && j != f.id ==> j in r.streams && r.streams[j] == s.streams[j]
    requires j in s.streams && j == f.id ==> (j in r.streams <==> !ShutBoth(AfterSending(s.streams[j], f)))
    requires j in s.streams && j == f.id && j in r.streams ==> r.streams[j] == AfterSending(s.streams[j], f)
    ensures Sends(s, r, f, j)
  {
  }

  lemma ShutRow(s: Session, f: Frame, wr: bool, j: int)
    requires f.Follows() && f.id in s.streams && wr == f.CarriesFin() && (j in s.streams ==> StreamOk(j, s.streams[j]))
    ensures Sends(s, Shut(s, f.id, false, wr), f, j)
  {
    ShutTable(s, f.id, false, wr, if j in s.streams then j else f.id);
  }

  /** A data provider given with SYN_STREAM or SYN_REPLY is queued as a DATA item with FIN,
      with the priority of the stream. */
  lemma SendingQueues(s: Session)
    requires s.active.Some?
    ensures var f, r := s.active.value.item.frame, SentEffects(s);
      var asks := f.Begins() && f.hasData && f.id in s.streams;
      && r.nextSeq == s.nextSeq + (if asks then 1 else 0) && r.obSsPq == s.obSsPq
      && forall y :: y in r.obPq <==> y in s.obPq || (asks && y == Provided(s, f.id, f.id in r.streams))
  {
    var f := s.active.value.item.frame;
    if f.Begins() && f.id in s.streams {
      BeginningOk(s);
      SynQueues(s, f.id, if f.SynStream? then Opening else Opened, f.SynStream? && f.uni, f.fin, f.hasData);
    } else {
      OthersQueueNone(s);
    }
  }

  lemma OthersQueueNone(s: Session)
    requires s.active.Some? && !(s.active.value.item.frame.Begins() && s.active.value.item.frame.id in s.streams)
    ensures var r := SentEffects(s); r.nextSeq == s.nextSeq && r.obPq == s.obPq && r.obSsPq == s.obSsPq
  {
  }

  function Provided(s: Session, id: int, open: bool): Item
    requires id in s.streams
  {
    Item(s.nextSeq, if open then s.streams[id].pri else if s.flowControl then 7 else 3, Data(id, true, false))
  }

  lemma SynQueues(s: Session, id: int, state: StreamState, rd: bool, wr: bool, hasData: bool)
    requires id in s.streams && (Inv(s) ==> StateOk(s, id, state))
    ensures var r := SynSent(s, id, state, rd, wr, hasData);
      && r.nextSeq == s.nextSeq + (if hasData then 1 else 0) && r.obSsPq == s.obSsPq
      && forall y :: y in r.obPq <==> y in s.obPq || (hasData && y == Provided(s, id, id in r.streams))
  {
    var s1 := Shut(SetState(s, id, state), id, rd, wr);
    EnqueueMembers(s.obPq, Item(s.nextSeq, StreamPriority(s1, id), Data(id, true, false)));
  }

  /** The frame is on record, and a GOAWAY is remembered as sent. */
  lemma SentOnRecord(s: Session)
    requires Inv(s) && s.active.Some? && s.hand.None?
    ensures var f, r := s.active.value.item.frame, Complete(s);
      Sent(f) in r.log && r.goaway == s.goaway.(sent := s.goaway.sent || f.Goaway?)
  {
    SendingTable(s, 0);
  }

  /** With that a control item is freed. */
  lemma ControlFreed(s: Session, read: ReadResult)
    requires s.active.Some? && s.hand.None? && !s.active.value.item.frame.Data?
    ensures var r := AfterFrameSent(s, read);
      r.goaway == Complete(s).goaway && r.log == Complete(s).log + [Freed(s.active.value.item.num)] && r.active.None?
  {
  }

  /** A RST_STREAM that has gone out closes its stream: it leaves the map and the count of its
      side, and the close is reported unless its SYN_STREAM never went out. */
  lemma ResetCloses(s: Session, sent: nat, read: ReadResult)
    requires Inv(s) && s.hand.None? && s.active.Some? && s.active.value.item.frame.RstStream?
    requires s.active.value.offset + sent == s.active.value.length
    ensures var f, r := s.active.value.item.frame, Step(s, PushBytes(sent, read));
      && f.id !in r.streams && r.streams == s.streams - {f.id} && Sent(f) in r.log
      && (f.id in s.streams ==>
            && (!s.streams[f.id].state.Initial? ==> Closed(f.id) in r.log)
            && r.numOutgoing == s.numOutgoing - (if IsMine(s.server, f.id) then 1 else 0)
            && r.numIncoming == s.numIncoming - (if IsMine(s.server, f.id) then 0 else 1))
  {
    StepPush(s, sent, read);
    var s1 := Charge(s, sent);
    assert s1.streams == s.streams;
    ControlFreed(s1, read);
    assert Sent(s.active.value.item.frame) in Complete(s1).log;
    ResetAfter(s1, read);
  }

  lemma ResetAfter(s: Session, read: ReadResult)
    requires s.hand.None? && s.active.Some? && s.active.value.item.frame.RstStream?
    ensures var id, r := s.active.value.item.frame.id, AfterFrameSent(s, read);
      && r.streams == s.streams - {id}
      && (id in s.streams ==>
            && (!s.streams[id].state.Initial? ==> Closed(id) in r.log)
            && r.numOutgoing == s.numOutgoing - (if IsMine(s.server, id) then 1 else 0)
            && r.numIncoming == s.numIncoming - (if IsMine(s.server, id) then 0 else 1))
  {
    var id := s.active.value.item.frame.id;
    assert SentEffects(s) == CloseStream(s, id);
    assert id in s.streams && !s.streams[id].state.Initial? ==> Closed(id) in CloseStream(s, id).log;
  }

  // ---------- a SYN_STREAM of the peer ----------

  /** Why a new SYN_STREAM is refused: an unsupported version first; at a client it must be a
      unidirectional push for an own stream that is open, at a server it must not be associated;
      last the limit on streams. */
  lemma RefusalExact(s: Session, uni: bool, assoc: StreamId, versionOk: bool)
    ensures var status := SynStreamStatus(s, uni, assoc, versionOk);
      var push := uni && assoc % 2 == 1 && assoc in s.streams;
      && (status == UNSUPPORTED_VERSION <==> !versionOk)
      && (status == INVALID_STREAM <==> versionOk && !s.server && assoc == 0)
      && (status == PROTOCOL_ERROR <==> versionOk && assoc != 0 && (s.server || !push))
      && (status == REFUSED_STREAM <==> versionOk && s.cfg.localMax <= s.numIncoming && (if s.server then assoc == 0 else push))
      && (status == 0 <==> versionOk && s.numIncoming < s.cfg.localMax && (if s.server then assoc == 0 else push))
  {
  }

  /** The peer opens a stream exactly with a greater ID of its own parity than before, unless a
      GOAWAY is in play, both halves are shut at once, or one of those refusals applies. */
  lemma OpensExactly(s: Session, id: StreamId, fin: bool, uni: bool, assoc: StreamId, pri: nat, versionOk: bool)
    requires s.receiving.None? && id !in s.streams
    ensures id in OnSynStream(s, id, fin, uni, assoc, pri, versionOk).streams <==>
      && !s.goaway.Any() && 0 < id && s.lastRecvStreamId < id && (id % 2 == 1 <==> s.server) && !(fin && uni)
      && versionOk && s.numIncoming < s.cfg.localMax
      && if s.server then assoc == 0 else uni && assoc % 2 == 1 && assoc in s.streams
  {
    SynStreamOpens(s, id, fin, uni, assoc, pri, versionOk);
    RefusalExact(s.(lastRecvStreamId := id), uni, assoc, versionOk);
  }

  /** The stream the peer opens: FIN shuts its half, UNIDIRECTIONAL ours, and nothing has been
      sent, received or counted yet; no other stream moves. */
  lemma PeerOpens(s: Session, id: StreamId, fin: bool, uni: bool, assoc: StreamId, pri: nat, versionOk: bool)
    requires Inv(s) && s.receiving.None? && id !in s.streams
    requires id in OnSynStream(s, id, fin, uni, assoc, pri, versionOk).streams
    ensures var r := OnSynStream(s, id, fin, uni, assoc, pri, versionOk);
      && r.streams == s.streams[id := Stream(pri, Opening, fin, uni, None, false, ToInt32(s.cfg.remoteInit), 0, 0, 0)]
      && r.lastRecvStreamId == id && (PeerFin(id) in r.log <==> fin)
      && (DataAllowed(r, id) <==> !fin) && (StreamSendError(r, id) == 0 <==> !uni)
  {
    SynStreamOpens(s, id, fin, uni, assoc, pri, versionOk);
    PeerUntouched(s, id);
    AcceptIs(s, id, fin, uni, pri);
    AcceptedIs(s, id, fin, uni, assoc, pri, versionOk);
  }

  lemma AcceptedIs(s: Session, id: StreamId, fin: bool, uni: bool, assoc: StreamId, pri: nat, versionOk: bool)
    requires s.receiving.None? && !s.goaway.Any() && IsNewPeerId(s, id) && !(fin && uni)
    requires SynStreamStatus(s.(lastRecvStreamId := id), uni, assoc, versionOk) == 0
    ensures OnSynStream(s, id, fin, uni, assoc, pri, versionOk) == AcceptSynStream(s, id, fin, uni, pri)
  {
  }

  lemma PeerUntouched(s: Session, id: StreamId)
    requires Inv(s) && IsNewPeerId(s, id)
    ensures PeerFin(id) !in s.log && !IsMine(s.server, id)
  {
    assert forall e <- s.log :: EventOk(s, e);
  }

  lemma AcceptIs(s: Session, id: StreamId, fin: bool, uni: bool, pri: nat)
    requires IsNewPeerId(s, id) && s.receiving.None? && !(fin && uni) && !s.goaway.Any() && id !in s.streams
    ensures var r := AcceptSynStream(s, id, fin, uni, pri);
      && r.streams == s.streams[id := Stream(pri, Opening, fin, uni, None, false, ToInt32(s.cfg.remoteInit), 0, 0, 0)]
      && r.log == s.log + [Enter(id)] + (if fin then [PeerFin(id)] else [])
      && r.lastRecvStreamId == id && r.server == s.server
  {
  }

  /** What becomes of any other SYN_STREAM: ignored after a GOAWAY; refused with RST_STREAM if its
      ID is the last one again or it is not valid; the end of the session if its ID is not new;
      and over at once if it leaves no half to use. */
  lemma PeerRefused(s: Session, id: StreamId, fin: bool, uni: bool, assoc: StreamId, pri: nat, versionOk: bool)
    requires s.receiving.None? && id !in OnSynStream(s, id, fin, uni, assoc, pri, versionOk).streams
    ensures var r, s1 := OnSynStream(s, id, fin, uni, assoc, pri, versionOk), s.(lastRecvStreamId := id);
      var status := SynStreamStatus(s1, uni, assoc, versionOk);
      r == if s.goaway.Any() then s
           else if id == s.lastRecvStreamId then AddFrame(s, RstStream(id, PROTOCOL_ERROR))
           else if !IsNewPeerId(s, id) then FailSession(s)
           else if status == 0 then s1.(log := s.log + [Closed(id)])
           else AddFrame(s1, RstStream(id, status))
  {
    if !s.goaway.Any() && IsNewPeerId(s, id) && id !in s.streams && !(fin && uni) {
      AcceptIs(s, id, fin, uni, pri);
    }
  }

  // ---------- other frames of the peer ----------

  /** A FIN of the peer shuts its half; the stream closes if ours is shut, and no other moves. */
  lemma FinTable(s: Session, id: int)
    requires s.receiving.None? && id in s.streams
    ensures var r, st := AcceptFin(s, id), s.streams[id];
      && r.streams == (if st.shutWr then s.streams - {id} else s.streams[id := st.(shutRd := true)])
      && PeerFin(id) in r.log && (st.shutWr && !st.state.Initial? ==> Closed(id) in r.log)
  {
    if s.streams[id].shutWr && !s.streams[id].state.Initial? {
      assert Closed(id) in Shut(s, id, true, false).log;
    }
  }

  /** The first SYN_REPLY on an own stream opens it. */
  lemma ReplyOpens(s: Session, id: StreamId, fin: bool)
    requires s.receiving.None? && id in s.streams && IsMine(s.server, id) && !s.streams[id].shutRd && s.streams[id].state.Opening?
    ensures var r, st := OnSynReply(s, id, fin), s.streams[id].(state := Opened);
      && r.streams == (if !fin then s.streams[id := st] else if st.shutWr then s.streams - {id} else s.streams[id := st.(shutRd := true)])
      && (fin <==> r.log != s.log) && (fin ==> PeerFin(id) in r.log)
  {
    var s1 := PutStream(s, id, s.streams[id].(state := Opened));
    if fin {
      FinTable(s1, id);
      assert s1.streams - {id} == s.streams - {id};
    }
  }

  /** HEADERS that may come change nothing but with FIN. */
  lemma HeadersAccepted(s: Session, id: StreamId, fin: bool)
    requires s.receiving.None? && DataAllowed(s, id) && !s.streams[id].state.Closing?
    ensures OnHeaders(s, id, fin) == if fin then AcceptFin(s, id) else s
  {
  }

  /** The end of a DATA frame likewise. */
  lemma DataAccepted(s: Session, id: int, fin: bool)
    requires s.receiving.None? && DataAllowed(s, id)
    ensures OnData(s, id, fin) == if fin then AcceptFin(s, id) else s
  {
  }

  /** Payload is taken on an own stream once SYN_REPLY has come, on one of the peer unless it is
      being reset, and on neither after the peer's FIN; otherwise it is ignored. */
  lemma HeadExactly(s: Session, id: StreamId, fin: bool, length: nat)
    requires s.hand.None? && s.receiving.None? && length > 0
    ensures var takes := id in s.streams && !s.streams[id].shutRd &&
        if IsMine(s.server, id) then s.streams[id].state.Opened? else !s.streams[id].state.Closing?;
      Step(s, RecvDataHead(id, fin, length)) == s.(receiving := Some(Inbound(id, fin, !takes, length)))
  {
    StepHead(s, id, fin, length);
  }

  /** What is taken counts for flow control, but for the last piece of a frame with FIN. */
  lemma BytesCount(s: Session, n: nat)
    requires s.receiving.Some? && n <= s.receiving.value.remaining && s.receiving.value.id in s.streams
    ensures var b, r := s.receiving.value, TakeBytes(s, n);
      var counts := s.flowControl && !b.ignored && n > 0 && !(b.fin && n == b.remaining);
      && (!counts ==> r.streams == s.streams && r.nextSeq == s.nextSeq)
      && (counts ==> r == CountReceived(s.(log := s.log + [Chunk(b.id, n)]), b.id, n))
  {
  }

  /** The status of each refusal: a second SYN_REPLY of SPDY/3 is STREAM_IN_USE, DATA for a stream
      that is not there INVALID_STREAM, the rest PROTOCOL_ERROR. While it is being reset a stream
      is not answered. */
  lemma RefusalStatus(s: Session, id: StreamId, fin: bool)
    requires s.receiving.None?
    ensures var open := id in s.streams && !s.streams[id].shutRd;
      var closing := id in s.streams && s.streams[id].state.Closing?;
      && (!(open && IsMine(s.server, id) && (s.streams[id].state.Opening? || closing)) ==>
            OnSynReply(s, id, fin) == AddFrame(s, RstStream(id,
              if open && IsMine(s.server, id) && s.flowControl then STREAM_IN_USE else PROTOCOL_ERROR)))
      && (!(open && (closing || DataAllowed(s, id))) ==>
            && OnHeaders(s, id, fin) == AddFrame(s, RstStream(id, PROTOCOL_ERROR))
            && OnData(s, id, fin) == AddFrame(s, RstStream(id, if id in s.streams then PROTOCOL_ERROR else INVALID_STREAM)))
      && (open && closing && IsMine(s.server, id) ==> OnSynReply(s, id, fin) == OnHeaders(s, id, fin) == OnData(s, id, fin) == s)
  {
  }

  /** A header block that is not valid resets the stream with the status found. */
  lemma BlockRefused(s: Session, id: StreamId, status: int)
    requires s.hand.None? && s.receiving.None?
    ensures Step(s, RecvInvalidBlock(id, status)) == AddFrame(s, RstStream(id, status))
  {
  }

  /** A RST_STREAM closes its stream, if it is there, and nothing else. */
  lemma ResetReceived(s: Session, id: StreamId)
    requires s.hand.None? && s.receiving.None?
    ensures var r := Step(s, RecvRstStream(id));
      && r.streams == s.streams - {id} && r.obPq == s.obPq && r.obSsPq == s.obSsPq
      && (id !in s.streams ==> r == s)
      && (id in s.streams && !s.streams[id].state.Initial? ==> Closed(id) in r.log)
  {
    assert Step(s, RecvRstStream(id)) == OnRstStream(s, id);
  }

  /** A PING with our last ID is the answer to it, which counts once; one of the peer's parity is
      sent back; any other is ignored. */
  lemma PingAnswered(s: Session, u: int)
    requires s.hand.None? && s.receiving.None?
    ensures var r, ours := Step(s, RecvPing(u)), u != 0 && u == s.cfg.lastPing;
      r == if ours then s.(cfg := s.cfg.(lastPing := 0))
           else if u != 0 && (u % 2 == 1 <==> s.server) then AddFrame(s, Ping(u)) else s
  {
    assert Step(s, RecvPing(u)) == OnPing(s, u);
  }

  // ---------- settings ----------

  /** Of a SETTINGS frame the first limit on streams counts. */
  lemma {:induction false} LimitReceived(s: Session, entries: seq<(int, int)>, seen: set<int>)
    ensures OnSettings(s, entries, seen).cfg.remoteMax ==
      if SETTINGS_MAX_CONCURRENT_STREAMS in seen then s.cfg.remoteMax else Lookup(entries, SETTINGS_MAX_CONCURRENT_STREAMS, s.cfg.remoteMax)
    decreases |entries|
  {
    if entries != [] {
      var (sid, v) := entries[0];
      var s1 := if 0 < sid <= SETTINGS_MAX && sid !in seen then OneSetting(s, sid, v) else s;
      LimitReceived(s1, entries[1..], seen + {sid});
    }
  }

  /** It bounds the SYN_STREAM frames that may go first. */
  lemma LimitBinds(s: Session, entries: seq<(int, int)>)
    requires s.hand.None? && s.receiving.None?
    ensures OutgoingMax(Step(s, RecvSettings(entries))) <==> Lookup(entries, SETTINGS_MAX_CONCURRENT_STREAMS, s.cfg.remoteMax) <= s.numOutgoing
  {
    StepSettings(s, entries);
    LimitReceived(s, entries, {});
    SettingsCount(s, entries, {});
  }

  lemma {:induction false} SettingsCount(s: Session, entries: seq<(int, int)>, seen: set<int>)
    ensures OnSettings(s, entries, seen).numOutgoing == s.numOutgoing
    decreases |entries|
  {
    if entries != [] {
      var (sid, v) := entries[0];
      SettingCount(s, sid, v);
      SettingsCount(if 0 < sid <= SETTINGS_MAX && sid !in seen then OneSetting(s, sid, v) else s, entries[1..], seen + {sid});
    }
  }

  lemma SettingCount(s: Session, sid: int, v: int)
    ensures OneSetting(s, sid, v).numOutgoing == s.numOutgoing
  {
    AdjustCount(s, s.streams.Keys, v, ToInt32(s.cfg.remoteInit));
  }

  lemma {:induction false} AdjustCount(s: Session, ids: set<int>, value: int, was: int)
    requires ids <= s.streams.Keys
    ensures AdjustWindows(s, ids, value, was).numOutgoing == s.numOutgoing
    decreases |ids|
  {
    if Inhabited(ids) {
      AdjustCount(Adjusted(s, Least(ids), value, was), ids - {Least(ids)}, value, was);
    }
  }

  /** Settings are submitted only if every ID is known and none is repeated; what they announce
      holds here from then on. */
  lemma SettingsAnnounced(s: Session, entries: seq<(int, int)>)
    requires s.hand.None?
    ensures var r := Step(s, SubmitSettings(entries));
      if ValidSettings(entries)
      then r == AddFrame(s, Settings(entries)).(cfg := s.cfg.(localMax := Lookup(entries, SETTINGS_MAX_CONCURRENT_STREAMS, s.cfg.localMax),
                                                              localInit := Lookup(entries, SETTINGS_INITIAL_WINDOW_SIZE, s.cfg.localInit)))
      else r == s
  {
    assert Step(s, SubmitSettings(entries)) == OnSubmitSettings(s, entries);
  }

  // ---------- what may be sent ----------

  /** SYN_REPLY answers a stream of the peer that waits for it; HEADERS and DATA come on own
      streams and on those we have answered; none of them after our half is shut, and neither
      they nor WINDOW_UPDATE while the stream is being reset. One GOAWAY is enough. */
  predicate MayBeSent(s: Session, f: Frame) {
    match f
    case SynReply(id, _, _) => id in s.streams && !s.streams[id].shutWr && !IsMine(s.server, id) && s.streams[id].state.Opening?
    case Headers(id, _) => MayFollowOn(s, id)
    case Data(id, _, _) => MayFollowOn(s, id) && s.streams[id].deferred.None?
    case WindowUpdate(id, _) => id in s.streams && !s.streams[id].state.Closing?
    case Goaway(_) => !s.goaway.sent
    case _ => true
  }

  predicate MayFollowOn(s: Session, id: int) {
    && id in s.streams && !s.streams[id].shutWr && !s.streams[id].state.Closing?
    && (IsMine(s.server, id) || s.streams[id].state.Opened?)
  }

  /** The next item of the queues, if it is no SYN_STREAM, goes into the frame buffer exactly if
      it may be sent and can be packed, DATA within the window; a DATA item may be deferred instead. */
  lemma GoesExactly(s: Session, read: ReadResult, packed: Option<nat>)
    requires s.hand.None? && s.active.None? && PopNext(s).hand.Some? && !PopNext(s).hand.value.frame.SynStream?
    ensures var r, x := Step(s, PullItem(read, packed)), PopNext(s).hand.value;
      && (r.active.Some? <==> MayBeSent(s, x.frame) && if x.frame.Data? then Readable(s, x.frame.id, read) else packed.Some?)
      && (r.active.Some? ==> r.active.value.item == x.(frame := if x.frame.Data? then Data(x.frame.id, x.frame.fin, x.frame.eof || read.eof) else x.frame))
  {
    StepPull(s, read, packed);
    var s1 := PopNext(s);
    if s1.hand.value.frame.Data? {
      DataExactly(s1, read);
    } else {
      ControlExactly(s1, packed);
    }
  }

  /** The callback has read something that fits the window. */
  predicate Readable(s: Session, id: int, read: ReadResult)
    requires id in s.streams
  {
    NextDataRead(s, s.streams[id]) > 0 && read.ReadBytes? && read.length <= NextDataRead(s, s.streams[id])
  }

  lemma ControlExactly(s: Session, packed: Option<nat>)
    requires s.hand.Some? && s.active.None? && !s.hand.value.frame.SynStream? && !s.hand.value.frame.Data?
    ensures var r, x := PrepControl(s, packed), s.hand.value;
      r.active == if MayBeSent(s, x.frame) && packed.Some? then Some(Active(x, packed.value, 0, 0, 0)) else None
  {
  }

  /** The payload has the bytes read, and the length word the FIN flag exactly on the last frame
      of an item with FIN. */
  lemma DataExactly(s: Session, read: ReadResult)
    requires s.hand.Some? && s.active.None? && s.hand.value.frame.Data?
    ensures var r, x := PrepData(s, read), s.hand.value;
      r.active == if !(MayBeSent(s, x.frame) && Readable(s, x.frame.id, read)) then None
        else Some(Active(x.(frame := Data(x.frame.id, x.frame.fin, x.frame.eof || read.eof)), read.length + 8, 0,
                         read.length + (if read.eof && x.frame.fin then 0x100_0000 else 0), 0))
  {
  }

  /** Otherwise a DATA item waits on its stream, for window or for its application, or it is
      dropped, with a RST_STREAM exactly for a temporary failure of the callback. */
  lemma DataOtherwise(s: Session, read: ReadResult)
    requires s.hand.Some? && s.active.None? && s.hand.value.frame.Data?
    ensures var r, id := PrepData(s, read), s.hand.value.frame.id;
      var may := MayBeSent(s, s.hand.value.frame);
      var flow := may && s.flowControl && s.streams[id].window <= 0;
      && (flow || (may && read.ReadDeferred?) ==>
            r == s.(hand := None, streams := s.streams[id := s.streams[id].(deferred := s.hand, deferredFlow := flow)]))
      && (may && !flow && read.ReadTemporalFailure? ==> r == Free(AddFrame(s, RstStream(id, INTERNAL_ERROR))))
      && (!may || (!flow && (read.ReadFailure? || (read.ReadBytes? && !Readable(s, id, read)))) ==> r == Free(s))
  {
  }

  /** A SYN_STREAM goes with the next ID, and its stream is new, Initial and has its priority. */
  lemma SynGoes(s: Session, packed: Option<nat>)
    requires s.hand.Some? && s.active.None? && s.hand.value.frame.SynStream?
    ensures var f, r := s.hand.value.frame, PrepSynStream(s, packed);
      var ok := !s.goaway.Any() && s.nextStreamId <= INT32_MAX && (f.assoc == 0 || f.assoc in s.streams);
      && (r.active.Some? <==> ok && packed.Some?)
      && (r.active.Some? ==> r.active.value.item == s.hand.value.(frame := SynStream(s.nextStreamId, f.fin, f.uni, f.assoc, f.pri, f.hasData)))
      && (r.active.Some? && s.nextStreamId !in s.streams ==>
            r.streams == s.streams[s.nextStreamId := Stream(f.pri, Initial, false, false, None, false, ToInt32(s.cfg.remoteInit), 0, 0, 0)])
  {
  }

  /** A DATA item is done with its last frame, or when its stream no longer takes DATA. */
  lemma DataStops(s: Session, read: ReadResult)
    requires s.active.Some? && s.hand.None? && s.active.value.item.frame.Data?
    ensures var f, s1 := s.active.value.item.frame, Complete(s);
      AfterFrameSent(s, read) == if f.eof || !MayBeSent(s1, f) then Free(s1) else ReadAgain(s1, read)
  {
  }

  // ---------- what the application asks for ----------

  /** The frame a call is to queue, if any: a SYN_STREAM needs a priority of the protocol version,
      and a server may not associate with a stream of its own. */
  function Asked(s: Session, i: Input): Option<Frame>
    requires IsCall(i)
  {
    match i
    case SubmitSynStream(fin, uni, assoc, pri, hasData) =>
      if pri <= (if s.flowControl then 7 else 3) && !(s.server && assoc != 0 && assoc % 2 == 0)
      then Some(SynStream(0, fin, uni, if s.server then assoc else 0, pri, hasData)) else None
    case SubmitSynReply(id, fin, hasData) => Some(SynReply(id, fin, hasData))
    case SubmitHeaders(id, fin) => Some(Headers(id, fin))
    case SubmitData(id, fin) => Some(Data(id, fin, false))
    case SubmitRstStream(id, status) => Some(RstStream(id, status))
    case SubmitPing(u) => Some(Ping(u))
    case SubmitGoaway => Some(Goaway(s.lastRecvStreamId))
    case SubmitSettings(entries) => if ValidSettings(entries) then Some(Settings(entries)) else None
    case SubmitWindowUpdate(id, delta) => if delta > 0 && id in s.streams then Some(WindowUpdate(id, delta)) else None
    case _ => None
  }

  /** The priority of a frame: PING first, then SETTINGS, then that of its stream; the lowest for
      GOAWAY and unknown streams. */
  function Urgency(s: Session, f: Frame): int {
    if f.Ping? then -10 else if f.Settings? then -1
    else if f.SynStream? then f.pri
    else if !f.Goaway? && f.id in s.streams then s.streams[f.id].pri
    else if s.flowControl then 7 else 3
  }

  predicate Queued(s: Session, x: Item) {
    x in s.obPq || x in s.obSsPq
  }

  /** A call queues that frame as a new item, and no other. */
  lemma CallQueues(s: Session, i: Input)
    requires s.hand.None? && IsCall(i) && !i.ResumeData?
    ensures var r := Step(s, i);
      match Asked(s, i)
      case None => r.nextSeq == s.nextSeq && r.obPq == s.obPq && r.obSsPq == s.obSsPq
      case Some(f) =>
        && r.nextSeq == s.nextSeq + 1
        && forall y :: Queued(r, y) <==> Queued(s, y) || y == Item(s.nextSeq, Urgency(s, f), f)
  {
    match Asked(s, i)
    case None =>
    case Some(f) =>
      if i.SubmitWindowUpdate? {
        GrantQueues(s, i.id, i.amount);
      } else if i.SubmitSettings? {
        SettingsAnnounced(s, i.entries);
        FrameQueues(s, f);
      } else {
        FrameQueues(s, f);
      }
  }

  lemma FrameQueues(s: Session, f: Frame)
    ensures var r := AddFrame(s, f);
      r.nextSeq == s.nextSeq + 1 && forall y :: Queued(r, y) <==> Queued(s, y) || y == Item(s.nextSeq, Urgency(s, f), f)
  {
    EnqueueMembers(s.obPq, Item(s.nextSeq, Urgency(s, f), f));
    EnqueueMembers(s.obSsPq, Item(s.nextSeq, Urgency(s, f), f));
  }

  lemma GrantQueues(s: Session, id: StreamId, d: int)
    requires d > 0 && id in s.streams && s.hand.None?
    ensures var r, f := Step(s, SubmitWindowUpdate(id, d)), WindowUpdate(id, d);
      r.nextSeq == s.nextSeq + 1 && forall y :: Queued(r, y) <==> Queued(s, y) || y == Item(s.nextSeq, Urgency(s, f), f)
  {
    var left := Uncounted(s.streams[id].recvWindow, d);
    FrameQueues(PutStream(s, id, s.streams[id].(recvWindow := left)), WindowUpdate(id, d));
  }

  /** spdylay_session_resume_data queues the DATA item its application has deferred, and only that. */
  lemma ResumeWakes(s: Session, id: StreamId)
    requires s.hand.None?
    ensures var r := Step(s, ResumeData(id));
      if id in s.streams && s.streams[id].deferred.Some? && !s.streams[id].deferredFlow
      then r.streams == s.streams[id := s.streams[id].(deferred := None)]
           && forall y :: Queued(r, y) <==> Queued(s, y) || y == s.streams[id].deferred.value
      else r == s
  {
    assert Step(s, ResumeData(id)) == OnResumeData(s, id);
    if id in s.streams && s.streams[id].deferred.Some? {
      EnqueueMembers(s.obPq, s.streams[id].deferred.value);
    }
  }

  // ---------- the order of the queue ----------

  /** In every reachable session PING frames are first in the queue, then SETTINGS, then the
      frames of streams by priority; within one priority in the order of submission. */
  lemma UrgentFirst(s: Session, server: bool, v3: bool, inputs: seq<Input>, i: int, j: int)
    requires Reachable(s, server, v3, inputs) && 0 <= i < j < |s.obPq|
    ensures s.obPq[j].frame.Ping? ==> s.obPq[i].frame.Ping?
    ensures s.obPq[j].frame.Settings? ==> s.obPq[i].frame.Ping? || s.obPq[i].frame.Settings?
    ensures s.obPq[i].pri <= s.obPq[j].pri && (s.obPq[i].pri == s.obPq[j].pri ==> s.obPq[i].num < s.obPq[j].num)
  {
    Reached(s, server, v3, inputs);
    assert s.obPq[i] in s.obPq && s.obPq[j] in s.obPq && Before(s.obPq[i], s.obPq[j]);
  }

  /** A PING is the next frame to be sent, unless PING or SYN_STREAM frames wait already. */
  lemma PingOvertakes(s: Session, server: bool, v3: bool, inputs: seq<Input>, u: int)
    requires Reachable(s, server, v3, inputs) && s.hand.None? && s.active.None? && |s.obSsPq| == 0
    requires forall x <- s.obPq :: !x.frame.Ping?
    ensures PopNext(Step(s, SubmitPing(u))).hand == Some(Item(s.nextSeq, -10, Ping(u)))
  {
    Reached(s, server, v3, inputs);
    PingFirst(s, u);
  }

  lemma PingFirst(s: Session, u: int)
    requires QueuesOk(s) && s.hand.None? && s.active.None? && |s.obSsPq| == 0 && forall x <- s.obPq :: !x.frame.Ping?
    ensures PopNext(Step(s, SubmitPing(u))).hand == Some(Item(s.nextSeq, -10, Ping(u)))
  {
    assert s.obPq != [] ==> s.obPq[0] in s.obPq;
    assert Step(s, SubmitPing(u)) == AddFrame(s, Ping(u));
  }

  // ---------- a reset before the stream ----------

  /** A client that has opened nothing, with one item in its queue or its frame buffer. */
  predicate Idle(s: Session) {
    && !s.server && s.flowControl && s.nextStreamId == 1 && s.streams == map[] && s.hand.None? && s.receiving.None?
    && s.obSsPq == [] && !s.goaway.Any() && s.numOutgoing < s.cfg.remoteMax
  }

  const RESET: Frame := RstStream(1, INVALID_STREAM)

  lemma StrayData(s: Session)
    requires s == Init(false, true)
    ensures var r := Step(s, RecvDataHead(1, true, 0)); Idle(r) && r.active.None? && r.obPq == [Item(0, 7, RESET)]
  {
    StepHead(s, 1, true, 0);
  }

  lemma ResetPacked(s: Session)
    requires Idle(s) && s.active.None? && s.obPq == [Item(0, 7, RESET)]
    ensures var r := Step(s, PullItem(ReadDeferred, Some(16)));
      Idle(r) && r.obPq == [] && r.active == Some(Active(Item(0, 7, RESET), 16, 0, 0, 0))
  {
    StepPull(s, ReadDeferred, Some(16));
  }

  lemma ResetOut(s: Session)
    requires Idle(s) && s.obPq == [] && s.active == Some(Active(Item(0, 7, RESET), 16, 0, 0, 0))
    ensures var r := Step(s, PushBytes(16, ReadDeferred)); Idle(r) && r.obPq == [] && r.active.None? && Sent(RESET) in r.log
  {
    StepPush(s, 16, ReadDeferred);
    assert Sent(RESET) in Complete(Charge(s, 16)).log;
  }

  lemma ThenOpened(s: Session)
    requires Idle(s) && s.obPq == [] && s.active.None?
    ensures var r := Step(Step(s, SubmitSynStream(false, false, 0, 0, false)), PullItem(ReadDeferred, Some(18)));
      1 in r.streams && s.log <= r.log
  {
    var x := Item(s.nextSeq, 0, SynStream(0, false, false, 0, 0, false));
    var s1 := Step(s, SubmitSynStream(false, false, 0, 0, false));
    assert s1 == s.(nextSeq := s.nextSeq + 1, obSsPq := [x]);
    StepPull(s1, ReadDeferred, Some(18));
    SynGoes(PopNext(s1), Some(18));
  }

  /** An ID may be in the map although a reset of it has been sent: DATA for a stream not opened
      yet is answered with RST_STREAM, and the ID is used later. */
  lemma ResetReturns() returns (s: Session, inputs: seq<Input>)
    ensures Reachable(s, false, true, inputs) && Sent(RESET) in s.log && 1 in s.streams
  {
    var s0, none: seq<Input> := Init(false, true), [];
    var i1, i2, i3 := RecvDataHead(1, true, 0), PullItem(ReadDeferred, Some(16)), PushBytes(16, ReadDeferred);
    var i4, i5 := SubmitSynStream(false, false, 0, 0, false), PullItem(ReadDeferred, Some(18));
    StrayData(s0);
    var s1 := Step(s0, i1);
    ResetPacked(s1);
    var s2 := Step(s1, i2);
    ResetOut(s2);
    var s3 := Step(s2, i3);
    ThenOpened(s3);
    s, inputs := Step(Step(s3, i4), i5), none + [i1] + [i2] + [i3] + [i4] + [i5];
    RunSnoc(s0, none, i1);
    RunSnoc(s0, none + [i1], i2);
    RunSnoc(s0, none + [i1] + [i2], i3);
    RunSnoc(s0, none + [i1] + [i2] + [i3], i4);
    RunSnoc(s0, none + [i1] + [i2] + [i3] + [i4], i5);
  }
}
