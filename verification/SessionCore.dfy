/** spdylay_session.c, spdylay_submit.c and spdylay_stream.c as functions on session values:
    every function keeps the session invariant, and GOAWAY flags and the set of open
    streams move one way only once a GOAWAY is in play. */
module SessionCore {
  import opened Base
  import opened SessionTypes
  import opened SessionInvariant
  import opened SessionMoves

  // Error codes of the send predicates.
  const STREAM_ID_NOT_AVAILABLE: int := -509
  const STREAM_CLOSED: int := -510
  const STREAM_CLOSING: int := -511
  const STREAM_SHUT_WR: int := -512
  const INVALID_STREAM_ID: int := -513
  const INVALID_STREAM_STATE: int := -514
  const DEFERRED_DATA_EXIST: int := -515
  const SYN_STREAM_NOT_ALLOWED: int := -516
  const GOAWAY_ALREADY_SENT: int := -517

  /** What every function of this module does to a session. */
  ghost predicate Moves(s: Session, r: Session) {
    Keeps(s, r) && (Funded(s) ==> Funded(r))
  }

  ghost predicate Keeps(s: Session, r: Session) {
    && r.server == s.server && r.flowControl == s.flowControl
    && (Inv(s) ==> Inv(r))
    && (s.goaway.sent ==> r.goaway.sent) && (s.goaway.received ==> r.goaway.received)
    && (s.goaway.failOnSend ==> r.goaway.failOnSend)
    && (s.goaway.Any() ==> r.streams.Keys <= s.streams.Keys && forall id :: Enter(id) in r.log ==> Enter(id) in s.log)
    && s.log <= r.log
  }

  // ---------- queueing frames ----------

  function LowestPriority(s: Session): int { if s.flowControl then 7 else 3 }

  function StreamPriority(s: Session, id: int): int {
    if id in s.streams then s.streams[id].pri else LowestPriority(s)
  }

  function Priority(s: Session, f: Frame): int {
    match f
    case SynStream(_, _, _, _, pri, _) => pri
    case SynReply(id, _, _) => StreamPriority(s, id)
    case RstStream(id, _) => StreamPriority(s, id)
    case Settings(_) => -1
    case Ping(_) => -10
    case Headers(id, _) => StreamPriority(s, id)
    case WindowUpdate(id, _) => StreamPriority(s, id)
    case Goaway(_) => LowestPriority(s)
    case Data(id, _, _) => StreamPriority(s, id)
  }

  /** spdylay_session_add_frame. */
  function AddFrame(s: Session, f: Frame): (r: Session)
    ensures Moves(s, r) && r.streams.Keys == s.streams.Keys && r.hand == s.hand && r.active == s.active
    ensures r.receiving == s.receiving && r.log == s.log && r.goaway == s.goaway
    ensures forall id <- s.streams :: r.streams[id] == s.streams[id].(state := r.streams[id].state)
    ensures !f.RstStream? ==> r.streams == s.streams
    ensures r.nextSeq == s.nextSeq + 1
  {
    var s1 := if f.RstStream? then MarkClosing(s, f.id) else s;
    Accept(s1, Priority(s, f), f)
  }

  /** RST_STREAM is being queued for the stream. */
  function MarkClosing(s: Session, id: int): (r: Session)
    ensures Moves(s, r) && r == s.(streams := r.streams) && r.streams.Keys == s.streams.Keys
    ensures forall id <- s.streams :: r.streams[id] == s.streams[id].(state := r.streams[id].state)
  {
    if id in s.streams then
      ClosingOk(s, id);
      PutKeeps(s, id, s.streams[id].(state := Closing));
      PutStream(s, id, s.streams[id].(state := Closing))
    else s
  }

  lemma ClosingOk(s: Session, id: int)
    requires id in s.streams
    ensures Inv(s) ==> StateOk(s, id, Closing)
  {
    assert Inv(s) ==> StateOk(s, id, s.streams[id].state);
  }

  /** spdylay_session_fail_session. */
  function FailSession(s: Session): (r: Session)
    ensures Moves(s, r) && r.receiving == s.receiving && r.hand == s.hand
  {
    FlagsKeep(s, s.goaway.(failOnSend := true));
    AddFrame(s.(goaway := s.goaway.(failOnSend := true)), Goaway(s.lastRecvStreamId))
  }

  lemma FlagsKeep(s: Session, g: GoawayFlags)
    requires g.sent == s.goaway.sent
    ensures Inv(s) ==> Inv(s.(goaway := g))
  {
    if Inv(s) {
      var r := s.(goaway := g);
      forall n: nat ensures Holders(r, n) == Holders(s, n) {}
      EventsEvolve(s, r);
    }
  }

  lemma ConfigKeeps(s: Session, c: Config)
    ensures Inv(s) ==> Inv(s.(cfg := c))
  {
    if Inv(s) {
      var r := s.(cfg := c);
      forall n: nat ensures Holders(r, n) == Holders(s, n) {}
      EventsEvolve(s, r);
    }
  }

  /** Shut one or both directions of an open stream, and close it when both are shut
      (spdylay_stream_shutdown with spdylay_session_close_stream_if_shut_rdwr). */
  function Shut(s: Session, id: int, rd: bool, wr: bool): (r: Session)
    requires id in s.streams
    ensures Moves(s, r) && r == s.(streams := r.streams, numOutgoing := r.numOutgoing, numIncoming := r.numIncoming, log := r.log)
    ensures r.streams - {id} == s.streams - {id}
    ensures id in r.streams ==> (rd ==> r.streams[id].shutRd) && (wr ==> r.streams[id].shutWr)
    ensures id in r.streams ==> r.streams[id] == s.streams[id].(shutRd := r.streams[id].shutRd, shutWr := r.streams[id].shutWr)
  {
    var st := s.streams[id].(shutRd := s.streams[id].shutRd || rd, shutWr := s.streams[id].shutWr || wr);
    if st.shutRd && st.shutWr then CloseStream(s, id)
    else
      PutKeeps(s, id, st);
      PutStream(s, id, st)
  }

  lemma PutKeeps(s: Session, id: int, st: Stream)
    requires id in s.streams
    ensures Inv(s) && StreamOk(id, st) && st.deferred == s.streams[id].deferred
            && (st.state == s.streams[id].state || StateOk(s, id, st.state))
            && (s.streams[id].shutRd ==> st.shutRd) && (s.streams[id].shutWr ==> st.shutWr)
            ==> Inv(PutStream(s, id, st))
    ensures Inv(s) && st == s.streams[id].(state := st.state) ==> StreamOk(id, st)
    ensures Inv(s) && !(st.shutRd && st.shutWr) && st == s.streams[id].(shutRd := st.shutRd, shutWr := st.shutWr)
            ==> StreamOk(id, st)
  {
    if Inv(s) && StreamOk(id, st) && st.deferred == s.streams[id].deferred
       && (st.state == s.streams[id].state || StateOk(s, id, st.state))
       && (s.streams[id].shutRd ==> st.shutRd) && (s.streams[id].shutWr ==> st.shutWr) {
      PutStreamKeeps(s, id, st);
    }
  }

  // ---------- may it be sent? ----------

  /** spdylay_session_predicate_syn_stream_send. */
  function SynStreamSendError(s: Session, assoc: int): int {
    if s.goaway.Any() then SYN_STREAM_NOT_ALLOWED
    else if s.nextStreamId > INT32_MAX then STREAM_ID_NOT_AVAILABLE
    else if assoc != 0 && assoc !in s.streams then STREAM_CLOSED
    else 0
  }

  /** spdylay_predicate_stream_for_send. */
  function StreamSendError(s: Session, id: int): int {
    if id !in s.streams then STREAM_CLOSED
    else if s.streams[id].shutWr then STREAM_SHUT_WR
    else 0
  }

  /** spdylay_session_predicate_syn_reply_send. */
  function SynReplySendError(s: Session, id: int): int {
    if StreamSendError(s, id) != 0 then StreamSendError(s, id)
    else if IsMine(s.server, id) then INVALID_STREAM_ID
    else if s.streams[id].state.Opening? then 0
    else if s.streams[id].state.Closing? then STREAM_CLOSING
    else INVALID_STREAM_STATE
  }

  /** spdylay_session_predicate_headers_send. */
  function HeadersSendError(s: Session, id: int): int {
    if StreamSendError(s, id) != 0 then StreamSendError(s, id)
    else if s.streams[id].state.Closing? then STREAM_CLOSING
    else if IsMine(s.server, id) || s.streams[id].state.Opened? then 0
    else INVALID_STREAM_STATE
  }

  /** spdylay_session_predicate_window_update_send. */
  function WindowUpdateSendError(s: Session, id: int): int {
    if id !in s.streams then STREAM_CLOSED
    else if s.streams[id].state.Closing? then STREAM_CLOSING
    else 0
  }

  /** spdylay_session_predicate_data_send. */
  function DataSendError(s: Session, id: int): int {
    if StreamSendError(s, id) != 0 then StreamSendError(s, id)
    else if s.streams[id].deferred.Some? then DEFERRED_DATA_EXIST
    else HeadersSendError(s, id)
  }

  /** Whether the held control frame may go out. */
  function ControlSendError(s: Session, f: Frame): int {
    match f
    case SynReply(id, _, _) => SynReplySendError(s, id)
    case Headers(id, _) => HeadersSendError(s, id)
    case WindowUpdate(id, _) => WindowUpdateSendError(s, id)
    case Goaway(_) => if s.goaway.sent then GOAWAY_ALREADY_SENT else 0
    case _ => 0
  }

  /** spdylay_session_next_data_read. */
  function NextDataRead(s: Session, st: Stream): int {
    if s.flowControl then ReadLimit(st.window) else DATA_PAYLOAD_LENGTH
  }
}
