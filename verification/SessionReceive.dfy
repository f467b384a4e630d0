/** The receiving half of a session: the on_*_received handlers, and the way DATA payload
    reaches the application. */
module SessionReceive {
  import opened Base
  import opened SessionTypes
  import opened SessionInvariant
  import opened SessionMoves
  import opened SessionCore

  /** spdylay_session_handle_invalid_stream. */
  function HandleInvalid(s: Session, id: int, status: int): (r: Session)
    ensures Moves(s, r) && r.hand == s.hand && r.receiving == s.receiving
  {
    AddFrame(s, RstStream(id, status))
  }

  // ---------- SYN_STREAM ----------

  predicate IncomingMax(s: Session) { s.cfg.localMax <= s.numIncoming }

  /** spdylay_session_is_new_peer_stream_id. */
  predicate IsNewPeerId(s: Session, id: int) {
    id != 0 && id % 2 == (if s.server then 1 else 0) && s.lastRecvStreamId < id
  }

  /** spdylay_session_validate_syn_stream: 0 or a status code. */
  function SynStreamStatus(s: Session, uni: bool, assoc: int, versionOk: bool): int {
    if !versionOk then UNSUPPORTED_VERSION
    else if s.server && assoc != 0 then PROTOCOL_ERROR
    else if !s.server && assoc == 0 then INVALID_STREAM
    else if !s.server && (!uni || assoc % 2 == 0 || assoc !in s.streams) then PROTOCOL_ERROR
    else if IncomingMax(s) then REFUSED_STREAM
    else 0
  }

  /** spdylay_session_on_syn_stream_received. */
  function OnSynStream(s: Session, id: StreamId, fin: bool, uni: bool, assoc: StreamId, pri: nat, versionOk: bool): (r: Session)
    requires s.receiving.None?
    ensures Moves(s, r) && r.hand == s.hand && r.receiving.None?
  {
    if s.goaway.Any() then s
    else if s.lastRecvStreamId == id then HandleInvalid(s, id, PROTOCOL_ERROR)
    else if !IsNewPeerId(s, id) then FailSession(s)
    else
      var s1 := s.(lastRecvStreamId := id);
      NewPeerKeeps(s, id, pri);
      if SynStreamStatus(s1, uni, assoc, versionOk) != 0 then
        HandleInvalid(s1, id, SynStreamStatus(s1, uni, assoc, versionOk))
      else if fin && uni then s1.(log := s1.log + [Closed(id)])
      else AcceptSynStream(s, id, fin, uni, pri)
  }

  /** The peer's ID is new: it may be remembered, opened, or reported as closed at once. */
  lemma NewPeerKeeps(s: Session, id: StreamId, pri: nat)
    requires IsNewPeerId(s, id) && s.receiving.None? && !s.goaway.Any()
    ensures Inv(s) ==> !Used(s, id) && id !in s.streams
    ensures Inv(s) ==> Inv(s.(lastRecvStreamId := id))
    ensures Inv(s) ==> Inv(s.(lastRecvStreamId := id, log := s.log + [Closed(id)]))
    ensures Inv(s) ==> Inv(OpenStream(s.(lastRecvStreamId := id), id, pri, Opening))
  {
    if Inv(s) {
      var s1 := s.(lastRecvStreamId := id);
      assert Inv(s1) by {
        forall n: nat ensures Holders(s1, n) == Holders(s, n) {}
        EventsEvolve(s, s1);
      }
      forall a | a in s.log ensures MayFollow(a, Closed(id)) {
        assert EventOk(s, a);
      }
      LogKeeps(s1, Closed(id));
      UnusedUntouched(s, id);
      assert Untouched(s1, id) by {
        assert forall e <- s.log :: NotOf(e, id);
      }
      OpenStreamKeeps(s1, id, pri, Opening);
    }
  }

  /** A valid SYN_STREAM that leaves a direction open. */
  function AcceptSynStream(s: Session, id: StreamId, fin: bool, uni: bool, pri: nat): (r: Session)
    requires IsNewPeerId(s, id) && s.receiving.None? && !(fin && uni) && !s.goaway.Any()
    ensures Moves(s, r) && r.hand == s.hand && r.receiving.None?
  {
    var s1 := OpenPeer(s, id, pri);
    if id in s.streams then s1
    else
      var s2 := Shut(s1, id, false, uni);
      if fin then AcceptFin(s2, id) else s2
  }

  function OpenPeer(s: Session, id: StreamId, pri: nat): (r: Session)
    requires IsNewPeerId(s, id) && s.receiving.None? && !s.goaway.Any()
    ensures Moves(s, r) && r.hand == s.hand && r.receiving.None? && id in r.streams
    ensures id !in s.streams ==> r.streams[id] == NewStream(s, pri, Opening)
  {
    NewPeerKeeps(s, id, pri);
    OpenStream(s.(lastRecvStreamId := id), id, pri, Opening)
  }

  // ---------- a FIN from the peer ----------

  /** The peer's half of an open stream is shut, and the stream closed if ours is too. */
  function AcceptFin(s: Session, id: int): (r: Session)
    requires id in s.streams && s.receiving.None?
    ensures Moves(s, r) && r.hand == s.hand && r.receiving.None?
  {
    var s1 := Shut(s, id, true, false);
    FinKeeps(s, s1, id);
    s1.(log := s1.log + [PeerFin(id)])
  }

  lemma FinKeeps(s: Session, s1: Session, id: int)
    requires id in s.streams && s1.receiving.None? && (id in s1.streams ==> s1.streams[id].shutRd)
    requires s1.server == s.server && s1.nextStreamId == s.nextStreamId && s1.lastRecvStreamId == s.lastRecvStreamId
    ensures Inv(s) && Inv(s1) ==> Inv(s1.(log := s1.log + [PeerFin(id)]))
  {
    if Inv(s) && Inv(s1) {
      assert Used(s, id);
      LogKeeps(s1, PeerFin(id));
    }
  }

  // ---------- the other control frames ----------

  /** spdylay_session_on_syn_reply_received. */
  function OnSynReply(s: Session, id: StreamId, fin: bool): (r: Session)
    requires s.receiving.None?
    ensures Moves(s, r) && r.hand == s.hand && r.receiving.None?
  {
    if id !in s.streams || s.streams[id].shutRd || !IsMine(s.server, id) then HandleInvalid(s, id, PROTOCOL_ERROR)
    else if s.streams[id].state.Opening? then
      OpenedOk(s, id);
      PutKeeps(s, id, s.streams[id].(state := Opened));
      var s1 := PutStream(s, id, s.streams[id].(state := Opened));
      if fin then AcceptFin(s1, id) else s1
    else if s.streams[id].state.Closing? then s
    else HandleInvalid(s, id, if s.flowControl then STREAM_IN_USE else PROTOCOL_ERROR)
  }

  lemma OpenedOk(s: Session, id: int)
    requires id in s.streams && IsMine(s.server, id)
    ensures Inv(s) ==> StateOk(s, id, Opened)
  {
    assert Inv(s) ==> StateOk(s, id, s.streams[id].state);
  }

  /** spdylay_session_on_headers_received. */
  function OnHeaders(s: Session, id: StreamId, fin: bool): (r: Session)
    requires s.receiving.None?
    ensures Moves(s, r) && r.hand == s.hand && r.receiving.None?
  {
    if id !in s.streams || s.streams[id].shutRd then HandleInvalid(s, id, PROTOCOL_ERROR)
    else if s.streams[id].state.Closing? then s
    else if IsMine(s.server, id) && !s.streams[id].state.Opened? then HandleInvalid(s, id, PROTOCOL_ERROR)
    else if fin then AcceptFin(s, id)
    else s
  }

  /** spdylay_session_on_rst_stream_received. */
  function OnRstStream(s: Session, id: StreamId): (r: Session)
    ensures Moves(s, r) && r.hand == s.hand && r.receiving == s.receiving
  {
    CloseStream(s, id)
  }

  /** spdylay_session_on_ping_received. */
  function OnPing(s: Session, uniqueId: int): (r: Session)
    ensures Moves(s, r) && r.hand == s.hand && r.receiving == s.receiving
  {
    if uniqueId == 0 then s
    else if s.cfg.lastPing == uniqueId then ConfigKeeps(s, s.cfg.(lastPing := 0)); s.(cfg := s.cfg.(lastPing := 0))
    else if uniqueId % 2 == (if s.server then 1 else 0) then AddFrame(s, Ping(uniqueId))
    else s
  }

  /** spdylay_session_on_goaway_received. */
  function OnGoaway(s: Session): (r: Session)
    ensures Moves(s, r) && r.hand == s.hand && r.receiving == s.receiving
    ensures r == s.(goaway := r.goaway)
  {
    FlagsKeep(s, s.goaway.(received := true));
    s.(goaway := s.goaway.(received := true))
  }

  // ---------- flow control ----------

  /** Give an open stream a new send window; a DATA item that was waiting for a positive one
      is queued again. */
  function SetWindow(s: Session, id: int, window: int, credited: int): (r: Session)
    requires id in s.streams
    ensures Keeps(s, r) && r.hand == s.hand && r.receiving == s.receiving && r.active == s.active
    ensures r.streams.Keys == s.streams.Keys && r.log == s.log && r.cfg == s.cfg
    ensures forall j <- s.streams :: j != id ==> r.streams[j] == s.streams[j]
    ensures var st := r.streams[id];
      st.window == window && st.credited == credited && st.charged == s.streams[id].charged
  {
    var st := s.streams[id];
    var s1 := if window > 0 && st.deferred.Some? && st.deferredFlow then Wake(s, id) else s;
    WindowKeeps(s1, id, s1.streams[id].(window := window, credited := credited));
    PutStream(s1, id, s1.streams[id].(window := window, credited := credited))
  }

  lemma WindowKeeps(s: Session, id: int, st: Stream)
    requires id in s.streams && st == s.streams[id].(window := st.window, credited := st.credited)
    ensures Inv(s) && (st.deferred.Some? && st.deferredFlow ==> st.window <= 0) ==> Inv(PutStream(s, id, st))
  {
    if Inv(s) && (st.deferred.Some? && st.deferredFlow ==> st.window <= 0) {
      PutStreamKeeps(s, id, st);
    }
  }

  /** spdylay_session_on_window_update_received. */
  function OnWindowUpdate(s: Session, id: StreamId, delta: StreamId): (r: Session)
    ensures Moves(s, r) && r.hand == s.hand && r.receiving == s.receiving
  {
    if !s.flowControl || id !in s.streams then s
    else if INT32_MAX - delta < s.streams[id].window then HandleInvalid(s, id, FLOW_CONTROL_ERROR)
    else SetWindow(s, id, s.streams[id].window + delta, s.streams[id].credited + delta)
  }

  /** spdylay_update_initial_window_size_func for one stream. */
  function Adjusted(s: Session, id: int, value: int, was: int): (r: Session)
    requires id in s.streams
    ensures Keeps(s, r) && r.hand == s.hand && r.receiving == s.receiving && r.active == s.active
    ensures r.streams.Keys == s.streams.Keys && r.log == s.log && r.cfg == s.cfg
    ensures forall j <- s.streams :: j != id ==> r.streams[j] == s.streams[j]
    ensures r.streams[id].window == s.streams[id].window + value - was
    ensures r.streams[id].charged == s.streams[id].charged && r.streams[id].credited == s.streams[id].credited
  {
    SetWindow(s, id, value - (was - s.streams[id].window), s.streams[id].credited)
  }

  predicate Inhabited(ids: set<int>) {
    exists x :: x in ids
  }

  ghost function Least(ids: set<int>): (m: int)
    requires Inhabited(ids)
    ensures m in ids && forall j <- ids :: m <= j
  {
    var x :| x in ids;
    var others := ids - {x};
    assert forall j <- ids :: j == x || j in others;
    if Inhabited(others) && Least(others) < x then Least(others) else x
  }

  /** spdylay_session_update_initial_window_size over the streams `ids`, in map order. */
  ghost function AdjustWindows(s: Session, ids: set<int>, value: int, was: int): (r: Session)
    requires ids <= s.streams.Keys
    ensures Keeps(s, r) && r.hand == s.hand && r.receiving == s.receiving && r.active == s.active
    ensures r.streams.Keys == s.streams.Keys && r.log == s.log && r.cfg == s.cfg
    ensures forall j <- s.streams ::
      && r.streams[j].window == s.streams[j].window + (if j in ids then value - was else 0)
      && r.streams[j].charged == s.streams[j].charged && r.streams[j].credited == s.streams[j].credited
    decreases |ids|
  {
    if !Inhabited(ids) then s
    else
      AdjustWindows(Adjusted(s, Least(ids), value, was), ids - {Least(ids)}, value, was)
  }

  /** A setting that counts; a window size of 2^31 or more is remembered but not applied to
      the streams. */
  ghost function OneSetting(s: Session, sid: int, v: int): (r: Session)
    ensures Moves(s, r) && r.hand == s.hand && r.receiving == s.receiving && r.active == s.active
    ensures r.streams.Keys == s.streams.Keys && r.log == s.log
  {
    if sid == SETTINGS_INITIAL_WINDOW_SIZE then
      var s1 := if s.flowControl && v <= INT32_MAX
                then AdjustWindows(s, s.streams.Keys, v, ToInt32(s.cfg.remoteInit)) else s;
      ConfigKeeps(s1, s1.cfg.(remoteInit := v, oversized := s1.cfg.oversized || v > INT32_MAX));
      s1.(cfg := s1.cfg.(remoteInit := v, oversized := s1.cfg.oversized || v > INT32_MAX))
    else if sid == SETTINGS_MAX_CONCURRENT_STREAMS then
      ConfigKeeps(s, s.cfg.(remoteMax := v));
      s.(cfg := s.cfg.(remoteMax := v))
    else s
  }

  /** spdylay_session_on_settings_received: the first value of each known setting counts. */
  ghost function OnSettings(s: Session, entries: seq<(int, int)>, seen: set<int>): (r: Session)
    ensures Moves(s, r) && r.hand == s.hand && r.receiving == s.receiving && r.active == s.active
    ensures r.streams.Keys == s.streams.Keys && r.log == s.log
    decreases |entries|
  {
    if entries == [] then s
    else
      var (sid, v) := entries[0];
      var s1 := if 0 < sid <= SETTINGS_MAX && sid !in seen then OneSetting(s, sid, v) else s;
      OnSettings(s1, entries[1..], seen + {sid})
  }

  // ---------- DATA ----------

  /** spdylay_session_check_data_recv_allowed. */
  predicate DataAllowed(s: Session, id: int) {
    && id in s.streams && !s.streams[id].shutRd
    && if IsMine(s.server, id) then s.streams[id].state.Opened? else !s.streams[id].state.Closing?
  }

  /** `n` more bytes, up to the largest 32-bit value. */
  function Counted(got: int, n: nat): int {
    if got > INT32_MAX - n then INT32_MAX else got + n
  }

  /** spdylay_session_update_recv_window_size. */
  function CountReceived(s: Session, id: int, n: nat): (r: Session)
    ensures Moves(s, r) && r.hand == s.hand && r.receiving == s.receiving
  {
    if id !in s.streams then s
    else
      var st := s.streams[id];
      var total := Counted(st.recvWindow, n);
      if !s.cfg.noAutoWindowUpdate && total * 2 >= s.cfg.localInit then
        RecvKeeps(s, id, 0);
        AddFrame(PutStream(s, id, st.(recvWindow := 0)), WindowUpdate(id, total))
      else
        RecvKeeps(s, id, total);
        PutStream(s, id, st.(recvWindow := total))
  }

  lemma RecvKeeps(s: Session, id: int, total: int)
    requires id in s.streams
    ensures Inv(s) ==> Inv(PutStream(s, id, s.streams[id].(recvWindow := total)))
  {
    if Inv(s) {
      PutStreamKeeps(s, id, s.streams[id].(recvWindow := total));
    }
  }

  /** The header of a DATA frame is complete. */
  function DataHead(s: Session, id: StreamId, fin: bool, length: nat): (r: Session)
    requires s.receiving.None?
    ensures Moves(s, r) && r.hand == s.hand
  {
    HeadKeeps(s, Inbound(id, fin, !DataAllowed(s, id), length));
    var s1 := s.(receiving := Some(Inbound(id, fin, !DataAllowed(s, id), length)));
    if length == 0 then DataBytes(s1, 0) else s1
  }

  lemma HeadKeeps(s: Session, b: Inbound)
    requires !b.ignored ==> DataAllowed(s, b.id)
    ensures Inv(s) && s.receiving.None? ==> Inv(s.(receiving := Some(b)))
  {
    if Inv(s) && s.receiving.None? {
      var r := s.(receiving := Some(b));
      assert forall e <- s.log :: EventOk(s, e);
      forall n: nat ensures Holders(r, n) == Holders(s, n) {}
      EventsEvolve(s, r);
    }
  }

  /** The next `n` payload bytes of the DATA frame arrive: they are handed on, counted, and
      with the last of them the frame is processed. */
  function DataBytes(s: Session, n: nat): (r: Session)
    requires s.receiving.Some? && n <= s.receiving.value.remaining
    ensures Moves(s, r) && r.hand == s.hand
  {
    EndBytes(TakeBytes(s, n), s.receiving.value.remaining - n)
  }

  /** The frame goes on, or its end is processed. */
  function EndBytes(s: Session, rest: nat): (r: Session)
    requires s.receiving.Some?
    ensures Moves(s, r) && r.hand == s.hand
  {
    var b := s.receiving.value;
    ReceivingKeeps(s, rest);
    if rest > 0 then s.(receiving := Some(b.(remaining := rest)))
    else OnData(s.(receiving := None), b.id, b.fin)
  }

  /** They are handed on and counted. */
  function TakeBytes(s: Session, n: nat): (r: Session)
    requires s.receiving.Some? && n <= s.receiving.value.remaining
    ensures Moves(s, r) && r.hand == s.hand && r.receiving == s.receiving
  {
    var b := s.receiving.value;
    BytesKeep(s, n);
    var s1 := if b.ignored then s else s.(log := s.log + [Chunk(b.id, n)]);
    if s.flowControl && !b.ignored && n > 0 && (b.remaining - n > 0 || !b.fin) then CountReceived(s1, b.id, n) else s1
  }

  /** A chunk is only handed on while no FIN of the peer has been accepted. */
  lemma BytesKeep(s: Session, n: nat)
    requires s.receiving.Some?
    ensures Inv(s) && !s.receiving.value.ignored ==> Inv(s.(log := s.log + [Chunk(s.receiving.value.id, n)]))
  {
    if Inv(s) && !s.receiving.value.ignored {
      LogKeeps(s, Chunk(s.receiving.value.id, n));
    }
  }

  lemma ReceivingKeeps(s: Session, rest: nat)
    ensures Inv(s) ==> Inv(s.(receiving := None))
    ensures Inv(s) && s.receiving.Some? ==> Inv(s.(receiving := Some(s.receiving.value.(remaining := rest))))
  {
    if Inv(s) {
      var r := s.(receiving := None);
      forall n: nat ensures Holders(r, n) == Holders(s, n) {}
      EventsEvolve(s, r);
      if s.receiving.Some? {
        var t := s.(receiving := Some(s.receiving.value.(remaining := rest)));
        forall n: nat ensures Holders(t, n) == Holders(s, n) {}
        EventsEvolve(s, t);
      }
    }
  }

  /** spdylay_session_on_data_received. */
  function OnData(s: Session, id: int, fin: bool): (r: Session)
    requires s.receiving.None?
    ensures Moves(s, r) && r.hand == s.hand && r.receiving.None?
  {
    if id !in s.streams then AddFrame(s, RstStream(id, INVALID_STREAM))
    else if s.streams[id].shutRd then AddFrame(s, RstStream(id, PROTOCOL_ERROR))
    else if DataAllowed(s, id) then if fin then AcceptFin(s, id) else s
    else if s.streams[id].state.Closing? then s
    else AddFrame(s, RstStream(id, PROTOCOL_ERROR))
  }
}
