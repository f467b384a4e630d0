/** Exactly when a session accepts, refuses, opens, closes, sends and answers. */
module SessionAnswers {
  import opened Base
  import opened SessionTypes
  import opened SessionInvariant
  import opened SessionMoves
  import opened SessionCore
  import opened SessionSend
  import opened SessionReceive

  /** A frame has been queued. */
  predicate Answers(s: Session, r: Session) {
    r.nextSeq > s.nextSeq
  }

  // ---------- queueing, opening and closing ----------

  /** The frame is in the queue of its kind, under a new number, and no other item is new. */
  lemma AddFrameQueues(s: Session, f: Frame)
    ensures var r, x := AddFrame(s, f), Item(s.nextSeq, Priority(s, f), f);
      && r.nextSeq == s.nextSeq + 1
      && (forall y :: y in r.obPq <==> y in s.obPq || (y == x && !f.SynStream?))
      && (forall y :: y in r.obSsPq <==> y in s.obSsPq || (y == x && f.SynStream?))
    ensures f.RstStream? && f.id in s.streams ==> AddFrame(s, f).streams[f.id].state.Closing?
  {
    EnqueueMembers(s.obPq, Item(s.nextSeq, Priority(s, f), f));
    EnqueueMembers(s.obSsPq, Item(s.nextSeq, Priority(s, f), f));
  }

  /** A failing session queues GOAWAY and is to end once that is sent. */
  lemma FailQueuesGoaway(s: Session)
    ensures var r := FailSession(s);
      r.goaway.failOnSend && exists x <- r.obPq :: x.num == s.nextSeq && x.frame == Goaway(s.lastRecvStreamId)
  {
    var s1 := s.(goaway := s.goaway.(failOnSend := true));
    AddFrameQueues(s1, Goaway(s.lastRecvStreamId));
    assert Item(s.nextSeq, Priority(s1, Goaway(s.lastRecvStreamId)), Goaway(s.lastRecvStreamId)) in FailSession(s).obPq;
  }

  /** Closing moves the counter of its side by one, frees a deferred item and reports the
      close, except of a stream whose SYN_STREAM never went out. */
  lemma CloseReports(s: Session, id: int)
    requires id in s.streams
    ensures var r := CloseStream(s, id);
      && r.numOutgoing + r.numIncoming == s.numOutgoing + s.numIncoming - 1
      && (IsMine(s.server, id) <==> r.numOutgoing < s.numOutgoing)
      && r.log == s.log + (if s.streams[id].deferred.Some? then [Freed(s.streams[id].deferred.value.num)] else [])
                        + (if s.streams[id].state.Initial? then [] else [Closed(id)])
  {
  }

  // ---------- sending ----------

  /** A SYN_STREAM becomes active, with the next ID and an open stream, exactly when it may. */
  lemma SynStreamGoes(s: Session, length: Option<nat>)
    requires s.hand.Some? && s.active.None? && s.hand.value.frame.SynStream? && s.nextStreamId !in s.streams
    ensures var r, ok := PrepSynStream(s, length), SynStreamSendError(s, s.hand.value.frame.assoc) == 0;
      && (r.active.Some? <==> ok && length.Some?) && (s.nextStreamId in r.streams <==> ok && length.Some?)
      && r.nextStreamId == (if ok then s.nextStreamId + 2 else s.nextStreamId)
      && (r.active.Some? ==> r.active.value.item.frame.id == s.nextStreamId)
  {
  }

  /** The three fates of a DATA item: sent within the window, deferred, or dropped. */
  lemma DataGoes(s: Session, read: ReadResult)
    requires s.hand.Some? && s.active.None? && s.hand.value.frame.Data? && DataSendError(s, s.hand.value.frame.id) == 0
    ensures var id := s.hand.value.frame.id;
      var r, max := PrepData(s, read), NextDataRead(s, s.streams[id]);
      && (r.active.Some? <==> max > 0 && read.ReadBytes? && read.length <= max)
      && (id in r.streams && r.streams[id].deferred == s.hand <==> max == 0 || read.ReadDeferred?)
      && (max == 0 ==> r.streams[id].deferredFlow)
      && (Answers(s, r) <==> max > 0 && read.ReadTemporalFailure?)
  {
  }

  /** A DATA item with more to send goes back to the queue exactly when something more urgent
      waits; otherwise its stream is read again. */
  lemma DataYields(s: Session, read: ReadResult)
    requires Inv(s) && s.hand.Some? && s.active.None? && s.hand.value.frame.Data? && DataSendError(s, s.hand.value.frame.id) == 0
    ensures var r, max := ReadAgain(s, read), NextDataRead(s, s.streams[s.hand.value.frame.id]);
      && (s.hand.value in r.obPq <==> PeekNext(s).Some? && PeekNext(s).value.pri < s.hand.value.pri)
      && (r.active.Some? <==> s.hand.value !in r.obPq && max > 0 && read.ReadBytes? && read.length <= max)
  {
    var x := s.hand.value;
    var f := RstStream(x.frame.id, INTERNAL_ERROR);
    NotQueued(s);
    EnqueueMembers(s.obPq, x);
    EnqueueMembers(s.obPq, Item(s.nextSeq, Priority(s, f), f));
  }

  /** The item in hand is in neither queue. */
  lemma NotQueued(s: Session)
    requires Inv(s) && s.hand.Some?
    ensures s.hand.value !in s.obPq
  {
    CountZero(s.obPq, s.hand.value.num);
    assert Holders(s, s.hand.value.num) <= 1;
  }

  // ---------- receiving ----------

  /** A SYN_STREAM opens a stream exactly when it is new, valid, before any GOAWAY, and leaves
      a half to use. */
  lemma SynStreamOpens(s: Session, id: StreamId, fin: bool, uni: bool, assoc: StreamId, pri: nat, versionOk: bool)
    requires s.receiving.None? && id !in s.streams
    ensures id in OnSynStream(s, id, fin, uni, assoc, pri, versionOk).streams <==>
      !s.goaway.Any() && IsNewPeerId(s, id) && SynStreamStatus(s.(lastRecvStreamId := id), uni, assoc, versionOk) == 0 && !(fin && uni)
  {
  }

  /** A SYN_REPLY is answered with RST_STREAM unless it is for an own stream whose reading half
      is open and that waits for it, or that is being reset. */
  lemma SynReplyAnswered(s: Session, id: StreamId, fin: bool)
    requires s.receiving.None?
    ensures Answers(s, OnSynReply(s, id, fin)) <==>
      !(id in s.streams && !s.streams[id].shutRd && IsMine(s.server, id) && (s.streams[id].state.Opening? || s.streams[id].state.Closing?))
  {
  }

  /** HEADERS likewise, unless the reading half is open and, on an own stream, SYN_REPLY came. */
  lemma HeadersAnswered(s: Session, id: StreamId, fin: bool)
    requires s.receiving.None?
    ensures Answers(s, OnHeaders(s, id, fin)) <==>
      !(id in s.streams && !s.streams[id].shutRd
        && (s.streams[id].state.Closing? || !IsMine(s.server, id) || s.streams[id].state.Opened?))
  {
  }

  /** A DATA frame likewise, unless it may be received or the stream is being reset. */
  lemma DataAnswered(s: Session, id: int, fin: bool)
    requires s.receiving.None?
    ensures Answers(s, OnData(s, id, fin)) <==>
      !(id in s.streams && !s.streams[id].shutRd && (DataAllowed(s, id) || s.streams[id].state.Closing?))
  {
  }

  /** A FIN is accepted exactly from a DATA frame that may be received. */
  lemma DataEnds(s: Session, id: int, fin: bool)
    requires s.receiving.None?
    ensures s.log <= OnData(s, id, fin).log
    ensures OnData(s, id, fin).log != s.log <==> fin && DataAllowed(s, id)
  {
    var r := OnData(s, id, fin);
    if fin && DataAllowed(s, id) {
      assert |r.log| > |s.log|;
    }
  }

  /** Payload is handed on, chunk by chunk, exactly if the frame may be received; another event
      follows exactly with the last byte of a frame that has a FIN and may be received. */
  lemma BytesHandedOn(s: Session, n: nat)
    requires s.receiving.Some? && n <= s.receiving.value.remaining
    ensures var b, r := s.receiving.value, DataBytes(s, n);
      var handed := s.log + if b.ignored then [] else [Chunk(b.id, n)];
      && handed <= r.log && (r.log == handed <==> !(n == b.remaining && b.fin && DataAllowed(s, b.id)))
  {
    var b := s.receiving.value;
    assert s.log + [] == s.log;
    if n == b.remaining {
      var s1 := s.(log := s.log + if b.ignored then [] else [Chunk(b.id, n)]);
      var s2 := if s.flowControl && !b.ignored && n > 0 && !b.fin then CountReceived(s1, b.id, n) else s1;
      CountLogsNone(s1, b.id, n);
      DataEnds(s2.(receiving := None), b.id, b.fin);
    }
  }

  lemma CountLogsNone(s: Session, id: int, n: nat)
    ensures CountReceived(s, id, n).log == s.log
  {
  }

  /** WINDOW_UPDATE is refused exactly when it takes the window past 2^31 - 1, and otherwise adds. */
  lemma WindowUpdateAnswered(s: Session, id: StreamId, delta: StreamId)
    requires s.flowControl && id in s.streams
    ensures var r := OnWindowUpdate(s, id, delta);
      && (Answers(s, r) <==> s.streams[id].window + delta > INT32_MAX)
      && (!Answers(s, r) ==> r.streams[id].window == s.streams[id].window + delta)
  {
  }

  /** Received bytes are counted up to 2^31 - 1; at half the window they are credited. */
  lemma CountRule(s: Session, id: int, n: nat)
    requires id in s.streams
    ensures var r := CountReceived(s, id, n);
      var all := s.streams[id].recvWindow + n;
      var total := if all > INT32_MAX then INT32_MAX else all;
      && (Answers(s, r) <==> !s.cfg.noAutoWindowUpdate && 2 * total >= s.cfg.localInit)
      && id in r.streams && r.streams[id].recvWindow == if Answers(s, r) then 0 else total
  {
    var total := Counted(s.streams[id].recvWindow, n);
    if !s.cfg.noAutoWindowUpdate && total * 2 >= s.cfg.localInit {
      var s1 := PutStream(s, id, s.streams[id].(recvWindow := 0));
      assert CountReceived(s, id, n) == AddFrame(s1, WindowUpdate(id, total));
    } else {
      assert CountReceived(s, id, n) == PutStream(s, id, s.streams[id].(recvWindow := total));
    }
  }
}
