/** The sending half of a session: spdylay_session_send cut into its loop iterations. */
module SessionSend {
  import opened Base
  import opened SessionTypes
  import opened SessionInvariant
  import opened SessionMoves
  import opened SessionCore

  /** What the read callback of a data provider returns. */
  datatype ReadResult = ReadBytes(length: nat, eof: bool) | ReadDeferred | ReadTemporalFailure | ReadFailure

  // ---------- choosing the next item ----------

  predicate OutgoingMax(s: Session) { s.cfg.remoteMax <= s.numOutgoing }

  /** spdylay_session_pop_next_ob_item.  With both queues filled, SYN_STREAM always goes
      first and the limit on concurrent streams is not looked at. */
  function PopNext(s: Session): (r: Session)
    requires s.hand.None? && s.active.None?
    ensures Moves(s, r) && r == s.(hand := r.hand, obPq := r.obPq, obSsPq := r.obSsPq)
    ensures r.hand.None? ==> r == s
    ensures r.hand.Some? && s.obSsPq != [] ==> r.hand.value == s.obSsPq[0]
  {
    if s.obPq == [] then
      if s.obSsPq == [] || OutgoingMax(s) then s
      else
        TakeMoves(s, true);
        s.(hand := Some(s.obSsPq[0]), obSsPq := s.obSsPq[1..])
    else if s.obSsPq == [] then
      TakeMoves(s, false);
      s.(hand := Some(s.obPq[0]), obPq := s.obPq[1..])
    else
      TakeMoves(s, true);
      s.(hand := Some(s.obSsPq[0]), obSsPq := s.obSsPq[1..])
  }

  lemma TakeMoves(s: Session, syn: bool)
    requires s.hand.None?
    requires if syn then s.obSsPq != [] else s.obPq != []
    ensures Inv(s) ==> Inv(if syn then s.(hand := Some(s.obSsPq[0]), obSsPq := s.obSsPq[1..])
                           else s.(hand := Some(s.obPq[0]), obPq := s.obPq[1..]))
  {
    if Inv(s) {
      TakeKeeps(s, syn);
    }
  }

  /** spdylay_session_get_next_ob_item, which does honour the limit and priorities. */
  function PeekNext(s: Session): Option<Item> {
    if s.obPq == [] then
      if s.obSsPq == [] || OutgoingMax(s) then None else Some(s.obSsPq[0])
    else if s.obSsPq == [] || OutgoingMax(s) || Before(s.obPq[0], s.obSsPq[0]) then Some(s.obPq[0])
    else Some(s.obSsPq[0])
  }

  // ---------- preparing a frame ----------

  /** The held control frame, packed into `length` bytes, becomes active. */
  function Activate(s: Session, f: Frame, length: nat): (r: Session)
    requires s.hand.Some? && s.active.None? && (ItemOk(s.hand.value) ==> ItemOk(s.hand.value.(frame := f)))
    ensures Inv(s) && ActiveOk(s.(active := Some(Active(s.hand.value.(frame := f), length, 0, 0, 0)))) ==> Inv(r)
    ensures r == s.(hand := None, active := Some(Active(s.hand.value.(frame := f), length, 0, 0, 0)))
  {
    var a := Active(s.hand.value.(frame := f), length, 0, 0, 0);
    ActivateMoves(s, a);
    s.(hand := None, active := Some(a))
  }

  lemma ActivateMoves(s: Session, a: Active)
    requires s.hand.Some? && s.active.None? && a.item.num == s.hand.value.num && (ItemOk(s.hand.value) ==> ItemOk(a.item))
    ensures Inv(s) && ActiveOk(s.(active := Some(a))) ==> Inv(s.(hand := None, active := Some(a)))
  {
    if Inv(s) && ActiveOk(s.(active := Some(a))) {
      ActivateKeeps(s, a);
    }
  }

  /** A stream that may be sent on has not had its FIN sent. */
  lemma OpenForSending(s: Session, id: int)
    requires Inv(s) && StreamSendError(s, id) == 0
    ensures !FinSent(s.log, id) && Used(s, id)
    ensures s.active.None? && SynReplySendError(s, id) == 0 ==> !HasBegun(s.log, id) && !IsMine(s.server, id)
    ensures s.active.None? && HeadersSendError(s, id) == 0 ==> HasBegun(s.log, id)
  {
    assert StateOk(s, id, s.streams[id].state);
    assert forall e <- s.log :: EventOk(s, e);
  }

  /** prep_frame for a control frame other than SYN_STREAM; `length` is the packed length,
      or None when packing fails. */
  function PrepControl(s: Session, length: Option<nat>): (r: Session)
    requires s.hand.Some? && s.active.None? && !s.hand.value.frame.SynStream? && !s.hand.value.frame.Data?
    ensures Moves(s, r) && r.hand.None?
  {
    var f := s.hand.value.frame;
    if ControlSendError(s, f) != 0 || length.None? then Free(s)
    else
      ControlMayGo(s, f, length.value);
      Activate(s, f, length.value)
  }

  lemma ControlMayGo(s: Session, f: Frame, length: nat)
    requires s.hand.Some? && s.active.None? && f == s.hand.value.frame && !f.SynStream? && !f.Data?
    requires ControlSendError(s, f) == 0
    ensures Inv(s) ==> ActiveOk(s.(active := Some(Active(s.hand.value, length, 0, 0, 0))))
  {
    if Inv(s) && f.OnStream() {
      OpenForSending(s, f.id);
    }
  }

  /** prep_frame for SYN_STREAM: takes the next stream ID and opens the stream. */
  function PrepSynStream(s: Session, length: Option<nat>): (r: Session)
    requires s.hand.Some? && s.active.None? && s.hand.value.frame.SynStream?
    ensures Moves(s, r) && r.hand.None?
  {
    var f := s.hand.value.frame;
    if SynStreamSendError(s, f.assoc) != 0 then Free(s)
    else
      TakeIdKeeps(s);
      if length.None? then Free(s.(nextStreamId := s.nextStreamId + 2)) else StartStream(s, f, length.value)
  }

  /** The SYN_STREAM is packed and its stream opened. */
  function StartStream(s: Session, f: Frame, length: nat): (r: Session)
    requires s.hand.Some? && s.active.None? && f.SynStream? && f == s.hand.value.frame && s.nextStreamId <= INT32_MAX && !s.goaway.Any()
    ensures Moves(s, r) && r.hand.None?
  {
    StartKeeps(s, f, length);
    OpenStream(Begun(s, f, length), s.nextStreamId, f.pri, Initial)
  }

  /** The next ID is taken and the SYN_STREAM with it in the frame buffer. */
  function Begun(s: Session, f: Frame, length: nat): Session
    requires s.hand.Some? && s.active.None? && f.SynStream? && f == s.hand.value.frame
  {
    Activate(s.(nextStreamId := s.nextStreamId + 2), SynStream(s.nextStreamId, f.fin, f.uni, f.assoc, f.pri, f.hasData), length)
  }

  lemma StartKeeps(s: Session, f: Frame, length: nat)
    requires s.hand.Some? && s.active.None? && f.SynStream? && f == s.hand.value.frame && s.nextStreamId <= INT32_MAX && !s.goaway.Any()
    ensures Inv(s) ==> Inv(OpenStream(Begun(s, f, length), s.nextStreamId, f.pri, Initial))
  {
    if Inv(s) {
      TakeIdKeeps(s);
      var s1, r := s.(nextStreamId := s.nextStreamId + 2), Begun(s, f, length);
      BeginOk(s1, r, s.nextStreamId);
      assert Untouched(r, s.nextStreamId);
      OpenStreamKeeps(r, s.nextStreamId, f.pri, Initial);
    }
  }

  /** A SYN_STREAM with an untouched ID of ours may become active. */
  lemma BeginOk(s: Session, r: Session, id: int)
    requires Inv(s) && Untouched(s, id) && Used(s, id) && IsMine(s.server, id)
    requires r == s.(hand := r.hand, active := r.active) && r.active.Some?
    requires r.active.value.item.frame.SynStream? && r.active.value.item.frame.id == id
    ensures ActiveOk(s.(active := r.active))
  {
    assert forall e <- s.log :: NotOf(e, id);
  }

  /** The ID assigned is new, so the map never refuses it, and nothing in the log has it. */
  lemma TakeIdKeeps(s: Session)
    requires s.hand.Some? && s.active.None? && s.nextStreamId <= INT32_MAX && !s.goaway.Any()
    ensures Inv(s) ==> s.nextStreamId !in s.streams && IsMine(s.server, s.nextStreamId)
    ensures Inv(s) ==> var r := s.(nextStreamId := s.nextStreamId + 2); Inv(r) && Used(r, s.nextStreamId) && Untouched(r, s.nextStreamId)
  {
    if Inv(s) {
      var r := s.(nextStreamId := s.nextStreamId + 2);
      UnusedUntouched(s, s.nextStreamId);
      assert forall e <- s.log :: NotOf(e, s.nextStreamId);
      assert Inv(r) by {
        forall n: nat ensures Holders(r, n) == Holders(s, n) {}
        EventsEvolve(s, r);
      }
    }
  }

  /** spdylay_session_pack_data for the held DATA item, and what its callers do with the
      outcome. */
  function PackData(s: Session, max: int, read: ReadResult): (r: Session)
    requires s.hand.Some? && s.active.None? && s.hand.value.frame.Data?
    requires DataSendError(s, s.hand.value.frame.id) == 0
    requires 0 < max <= NextDataRead(s, s.streams[s.hand.value.frame.id])
    ensures Moves(s, r) && r.hand.None?
  {
    var f := s.hand.value.frame;
    match read
    case ReadDeferred => Defer(s, f.id, false)
    case ReadTemporalFailure => Free(AddFrame(s, RstStream(f.id, INTERNAL_ERROR)))
    case ReadFailure => Free(s)
    case ReadBytes(n, eof) =>
      if max < n then Free(s)
      else
        var word := n + if eof && f.fin then 0x100_0000 else 0;
        var a := Active(s.hand.value.(frame := Data(f.id, f.fin, f.eof || eof)), n + 8, 0, word, 0);
        PackKeeps(s, a);
        var over := s.flowControl && s.streams[f.id].charged + n > Granted(s, f.id);
        var s1 := s.(hand := None, active := Some(a));
        ConfigKeeps(s1, s.cfg.(overSent := s.cfg.overSent || over));
        s1.(cfg := s.cfg.(overSent := s.cfg.overSent || over))
  }

  lemma PackKeeps(s: Session, a: Active)
    requires s.hand.Some? && s.active.None? && s.hand.value.frame.Data?
    requires DataSendError(s, s.hand.value.frame.id) == 0
    requires a.item.num == s.hand.value.num && a.item.pri == s.hand.value.pri && a.item.frame.Data? && a.item.frame.id == s.hand.value.frame.id
    ensures Inv(s) ==> Inv(s.(hand := None, active := Some(a)))
  {
    if Inv(s) {
      OpenForSending(s, s.hand.value.frame.id);
      ActivateKeeps(s, a);
    }
  }

  /** prep_frame for DATA. */
  function PrepData(s: Session, read: ReadResult): (r: Session)
    requires s.hand.Some? && s.active.None? && s.hand.value.frame.Data?
    ensures Moves(s, r) && r.hand.None?
  {
    var id := s.hand.value.frame.id;
    if DataSendError(s, id) != 0 then Free(s)
    else if NextDataRead(s, s.streams[id]) == 0 then Defer(s, id, true)
    else PackData(s, NextDataRead(s, s.streams[id]), read)
  }

  /** One iteration of spdylay_session_send that starts without an active item. */
  function Pull(s: Session, read: ReadResult, length: Option<nat>): (r: Session)
    requires s.hand.None? && s.active.None?
    ensures Moves(s, r) && r.hand.None?
  {
    var s1 := PopNext(s);
    if s1.hand.None? then s1
    else if s1.hand.value.frame.SynStream? then PrepSynStream(s1, length)
    else if s1.hand.value.frame.Data? then PrepData(s1, read)
    else PrepControl(s1, length)
  }

  // ---------- after a frame is sent ----------

  /** Set the state of an open stream. */
  function SetState(s: Session, id: int, state: StreamState): (r: Session)
    requires id in s.streams && (Inv(s) ==> StateOk(s, id, state))
    ensures Moves(s, r) && r == s.(streams := r.streams) && r.streams.Keys == s.streams.Keys
  {
    PutKeeps(s, id, s.streams[id].(state := state));
    PutStream(s, id, s.streams[id].(state := state))
  }

  /** SYN_STREAM or SYN_REPLY went out: the stream advances, half-closes as flagged, and the
      data provider, if any, is submitted. */
  function SynSent(s: Session, id: int, state: StreamState, rd: bool, wr: bool, hasData: bool): (r: Session)
    requires id in s.streams && (Inv(s) ==> StateOk(s, id, state))
    ensures Moves(s, r) && r.active == s.active && r.hand == s.hand
    ensures id in r.streams ==> r.streams[id].state == state
    ensures wr && id in r.streams ==> r.streams[id].shutWr
  {
    var s1 := Shut(SetState(s, id, state), id, rd, wr);
    if hasData then AddFrame(s1, Data(id, true, false)) else s1
  }

  /** The effects of spdylay_session_after_frame_sent on streams, while the item is still
      the active one. */
  function SentEffects(s: Session): (r: Session)
    requires s.active.Some?
    ensures Moves(s, r) && r.active == s.active && r.hand == s.hand
    ensures SentOk(r, s.active.value.item.frame)
  {
    BeginningOk(s);
    match s.active.value.item.frame
    case SynStream(id, fin, uni, _, _, hasData) =>
      if id in s.streams then SynSent(s, id, Opening, uni, fin, hasData) else s
    case SynReply(id, fin, hasData) =>
      if id in s.streams then SynSent(s, id, Opened, false, fin, hasData) else s
    case RstStream(id, _) => CloseStream(s, id)
    case Ping(u) => ConfigKeeps(s, s.cfg.(lastPing := u)); s.(cfg := s.cfg.(lastPing := u))
    case Headers(id, fin) => if id in s.streams then Shut(s, id, false, fin) else s
    case Data(id, fin, eof) => if eof && fin && id in s.streams then Shut(s, id, false, true) else s
    case _ => s
  }

  /** While the frame that begins our side is being sent, its stream may advance. */
  lemma BeginningOk(s: Session)
    requires s.active.Some?
    ensures var f := s.active.value.item.frame;
      Inv(s) && f.Begins() && f.id in s.streams ==> StateOk(s, f.id, if f.SynStream? then Opening else Opened)
  {
  }

  /** The active frame has gone out completely; its item is held, its effects are done. */
  function Complete(s: Session): (r: Session)
    requires s.active.Some? && s.hand.None?
    ensures Moves(s, r) && r.active.None? && r.hand == Some(s.active.value.item)
  {
    var s1 := SentEffects(s);
    CompleteKeeps(s1);
    TakeActive(s1)
  }

  lemma CompleteKeeps(s: Session)
    requires s.active.Some? && s.hand.None?
    requires SentOk(s, s.active.value.item.frame)
    ensures Inv(s) ==> Inv(TakeActive(s))
  {
    if Inv(s) {
      TakeActiveKeeps(s);
    }
  }

  /** The rest of spdylay_session_after_frame_sent: a control item is freed; a DATA item is
      freed, read again, deferred, or queued behind more urgent frames. */
  function AfterFrameSent(s: Session, read: ReadResult): (r: Session)
    requires s.active.Some? && s.hand.None?
    ensures Moves(s, r) && r.hand.None?
  {
    var f := s.active.value.item.frame;
    var s1 := Complete(s);
    if !f.Data? || f.eof || DataSendError(s1, f.id) != 0 then Free(s1) else ReadAgain(s1, read)
  }

  /** A DATA item with more to send is read again if nothing more urgent waits. */
  function ReadAgain(s: Session, read: ReadResult): (r: Session)
    requires s.hand.Some? && s.active.None? && s.hand.value.frame.Data? && DataSendError(s, s.hand.value.frame.id) == 0
    ensures Moves(s, r) && r.hand.None?
  {
    var id, next := s.hand.value.frame.id, PeekNext(s);
    if next.None? || s.hand.value.pri <= next.value.pri then
      var max := NextDataRead(s, s.streams[id]);
      if max == 0 then Defer(s, id, true) else PackData(s, max, read)
    else PutBack(s)
  }

  /** One successful send callback: the window is charged the whole length word each time,
      however few bytes went out. */
  function Charge(s: Session, sent: nat): (r: Session)
    requires s.active.Some?
    ensures Moves(s, r) && r.hand == s.hand
    ensures r.active == Some(s.active.value.(offset := s.active.value.offset + sent, calls := s.active.value.calls + 1))
  {
    var a := s.active.value;
    ChargeKeeps(s, WindowTaken(s), a.(offset := a.offset + sent, calls := a.calls + 1));
    WindowTaken(s).(active := Some(a.(offset := a.offset + sent, calls := a.calls + 1)))
  }

  function WindowTaken(s: Session): Session
    requires s.active.Some?
  {
    var a := s.active.value;
    var f := a.item.frame;
    if s.flowControl && f.Data? && f.id in s.streams then
      var st := s.streams[f.id];
      PutStream(s, f.id, st.(window := st.window - a.word,
                             charged := st.charged + if a.calls == 0 then a.word % 0x100_0000 else 0))
    else s
  }

  lemma ChargeKeeps(s: Session, s1: Session, a: Active)
    requires s.active.Some? && a.item == s.active.value.item
    requires s1 == s || (a.item.frame.Data? && a.item.frame.id in s.streams && exists w, c ::
      w <= s.streams[a.item.frame.id].window
      && s1 == PutStream(s, a.item.frame.id, s.streams[a.item.frame.id].(window := w, charged := c)))
    ensures Inv(s) ==> Inv(s1.(active := Some(a)))
  {
    if Inv(s) {
      if s1 != s {
        PutStreamKeeps(s, a.item.frame.id, s1.streams[a.item.frame.id]);
      }
      var r := s1.(active := Some(a));
      forall n: nat ensures Holders(r, n) == Holders(s1, n) {}
      EventsEvolve(s1, r);
    }
  }

  /** One iteration of spdylay_session_send with an active item, whose send callback takes
      `sent` bytes. */
  function Push(s: Session, sent: nat, read: ReadResult): (r: Session)
    requires s.active.Some? && s.hand.None?
    ensures Moves(s, r) && r.hand.None?
  {
    var s1 := Charge(s, sent);
    if s1.active.value.offset == s1.active.value.length then AfterFrameSent(s1, read) else s1
  }
}
