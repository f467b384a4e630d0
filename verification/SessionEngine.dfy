/** The session as the program keeps it: one object whose fields, and whose stream records,
    the operations update in place.  Each method is tied to the function on session values
    that it implements. */
module SessionEngine {
  import opened Base
  import opened SessionTypes
  import opened SessionInvariant
  import opened SessionMoves
  import opened SessionCore
  import opened SessionSend
  import opened SessionReceive
  import opened SessionRuns

  /** spdylay_stream. */
  class StreamRecord {
    const id: int
    const pri: nat
    var state: StreamState
    var shutRd: bool
    var shutWr: bool
    var deferred: Option<Item>
    var deferredFlow: bool
    var window: int
    var recvWindow: int
    ghost var charged: int
    ghost var credited: int

    /** spdylay_stream_init. */
    constructor (id: int, pri: nat, state: StreamState, window: int)
      ensures this.id == id && Value() == Stream(pri, state, false, false, None, false, window, 0, 0, 0)
    {
      this.id, this.pri, this.state, this.window := id, pri, state, window;
      shutRd, shutWr, deferred, deferredFlow, recvWindow, charged, credited := false, false, None, false, 0, 0, 0;
    }

    ghost function Value(): Stream
      reads this
    {
      Stream(pri, state, shutRd, shutWr, deferred, deferredFlow, window, recvWindow, charged, credited)
    }

    /** spdylay_stream_shutdown. */
    method Shutdown(rd: bool, wr: bool)
      modifies this`shutRd, this`shutWr
      ensures Value() == old(Value()).(shutRd := old(shutRd) || rd, shutWr := old(shutWr) || wr)
    {
      shutRd, shutWr := shutRd || rd, shutWr || wr;
    }

    /** spdylay_stream_defer_data; its assertion is the precondition. */
    method DeferData(item: Item, flow: bool)
      requires deferred.None?
      modifies this`deferred, this`deferredFlow
      ensures Value() == old(Value()).(deferred := Some(item), deferredFlow := flow)
    {
      deferred, deferredFlow := Some(item), flow;
    }

    /** spdylay_stream_detach_deferred_data. */
    method DetachDeferred()
      modifies this`deferred, this`deferredFlow
      ensures Value() == old(Value()).(deferred := None, deferredFlow := false)
    {
      deferred, deferredFlow := None, false;
    }

    /** spdylay_stream_update_initial_window_size. */
    method UpdateInitialWindowSize(value: int, was: int)
      modifies this`window
      ensures Value() == old(Value()).(window := value - (was - old(window)))
    {
      window := value - (was - window);
    }
  }

  /** A configuration without its history. */
  function Plain(c: Config): Config {
    c.(oversized := false, overSent := false)
  }

  /** A relation between a session and the streams still to be adjusted that survives the
      adjustment of the least of them. */
  ghost predicate KeptByAdjusting(keeps: (Session, set<int>) -> bool, value: int, was: int) {
    forall s: Session, ids: set<int> :: keeps(s, ids) && Inhabited(ids) && ids <= s.streams.Keys ==>
      keeps(Adjusted(s, Least(ids), value, was), ids - {Least(ids)})
  }

  /** What remains to be adjusted leads to `whole`. */
  ghost function AdjustsTo(whole: Session, value: int, was: int): (keeps: (Session, set<int>) -> bool)
    ensures KeptByAdjusting(keeps, value, was)
    ensures forall s: Session, ids: set<int> :: keeps(s, ids) && !Inhabited(ids) ==> s == whole
  {
    (s: Session, ids: set<int>) => ids <= s.streams.Keys && AdjustWindows(s, ids, value, was) == whole
  }

  /** What the callbacks answer in one round of the send loop: the read callback and the
      packing of a new frame, the send callback, and the read callback again. */
  datatype Round = Round(read: ReadResult, packed: Option<nat>, sent: Option<nat>, next: ReadResult)

  predicate OnlySends(steps: seq<Input>) {
    forall i <- steps :: i.PullItem? || i.PushBytes?
  }

  /** Nothing is being sent and nothing can be taken from the queues. */
  predicate Idle(s: Session) {
    s.active.None? && s.hand.None? && PopNext(s) == s
  }

  lemma RunPull(s: Session, steps: seq<Input>, read: ReadResult, packed: Option<nat>)
    requires s.hand.None? && Run(s, steps).active.None?
    ensures Run(s, steps + [PullItem(read, packed)]) == Pull(Run(s, steps), read, packed)
  {
    RunSnoc(s, steps, PullItem(read, packed));
    StepPull(Run(s, steps), read, packed);
  }

  lemma RunPush(s: Session, steps: seq<Input>, sent: nat, read: ReadResult)
    requires s.hand.None? && Run(s, steps).active.Some?
    requires Run(s, steps).active.value.offset + sent <= Run(s, steps).active.value.length
    ensures Run(s, steps + [PushBytes(sent, read)]) == Push(Run(s, steps), sent, read)
  {
    RunSnoc(s, steps, PushBytes(sent, read));
    StepPush(Run(s, steps), sent, read);
  }

  predicate IsReceived(i: Input) {
    !IsCall(i) && !i.PullItem? && !i.PushBytes?
  }

  predicate IsOnStream(i: Input) {
    i.RecvSynStream? || i.RecvSynReply? || i.RecvRstStream? || i.RecvHeaders? || i.RecvWindowUpdate? || i.RecvInvalidBlock?
  }

  class Engine {
    const server: bool
    const flowControl: bool
    var nextStreamId: int
    var lastRecvStreamId: int
    var streams: map<int, StreamRecord>
    var numOutgoing: int
    var numIncoming: int
    var nextSeq: nat
    var obPq: seq<Item>
    var obSsPq: seq<Item>
    var active: Option<Active>
    var goaway: GoawayFlags
    /** Settings and the last PING; the history in it stays blank. */
    var cfg: Config
    var receiving: Option<Inbound>
    /** The session as a value, with what has happened so far. */
    ghost var view: Session
    /** Every stream record there has been. */
    ghost var records: set<StreamRecord>

    ghost predicate Fields()
      reads this
    {
      && view.server == server && view.flowControl == flowControl
      && view.nextStreamId == nextStreamId && view.lastRecvStreamId == lastRecvStreamId
      && view.numOutgoing == numOutgoing && view.numIncoming == numIncoming
      && view.nextSeq == nextSeq && view.obPq == obPq && view.obSsPq == obSsPq
      && view.active == active && view.goaway == goaway && cfg == Plain(view.cfg) && view.receiving == receiving
    }

    ghost predicate Records()
      reads this, records
    {
      && view.streams.Keys == streams.Keys
      && forall id <- streams :: streams[id] in records && streams[id].id == id && streams[id].Value() == view.streams[id]
    }

    ghost predicate Valid()
      reads this, records
    {
      Fields() && Records()
    }

    /** spdylay_session_client_new and spdylay_session_server_new. */
    constructor (server: bool, flowControl: bool)
      ensures Valid() && records == {} && view == Init(server, flowControl)
    {
      this.server, this.flowControl := server, flowControl;
      nextStreamId, lastRecvStreamId := if server then 2 else 1, 0;
      streams, numOutgoing, numIncoming := map[], 0, 0;
      nextSeq, obPq, obSsPq, active := 0, [], [], None;
      goaway, cfg, receiving := GoawayFlags(false, false, false), Init(server, flowControl).cfg, None;
      view, records := Init(server, flowControl), {};
    }

    // ---------- streams ----------

    /** The counter of the side that `id` belongs to. */
    method Count(id: int, n: int)
      requires Valid()
      modifies this`numOutgoing, this`numIncoming, this`view
      ensures Valid()
      ensures view == old(view).(numOutgoing := old(view).numOutgoing + (if IsMine(server, id) then n else 0),
                                 numIncoming := old(view).numIncoming + (if IsMine(server, id) then 0 else n))
    {
      if IsMine(server, id) {
        numOutgoing := numOutgoing + n;
      } else {
        numIncoming := numIncoming + n;
      }
      view := view.(numOutgoing := numOutgoing, numIncoming := numIncoming);
    }

    method Unlink(id: int)
      requires Valid()
      modifies this`streams, this`view
      ensures Valid() && view == old(view).(streams := old(view).streams - {id})
    {
      streams := streams - {id};
      view := view.(streams := view.streams - {id});
    }

    ghost method Happened(events: seq<Event>)
      requires Valid()
      modifies this`view
      ensures Valid() && view == old(view).(log := old(view).log + events)
    {
      view := view.(log := view.log + events);
    }

    /** spdylay_session_close_stream. */
    method Close(id: int)
      requires Valid()
      modifies this`streams, this`numOutgoing, this`numIncoming, this`view
      ensures Valid() && view == CloseStream(old(view), id)
    {
      if id in streams {
        var st := streams[id];
        Count(id, -1);
        Unlink(id);
        Happened(if st.deferred.Some? then [Freed(st.deferred.value.num)] else []);
        if !st.state.Initial? {
          Happened([Closed(id)]);
        }
      }
    }

    method Link(st: StreamRecord)
      requires Valid() && st in records && st.id !in streams
      modifies this`streams, this`view
      ensures Valid() && view == old(view).(streams := old(view).streams[st.id := st.Value()])
    {
      streams := streams[st.id := st];
      view := view.(streams := view.streams[st.id := st.Value()]);
    }

    method NewRecord(id: int, pri: nat, state: StreamState) returns (st: StreamRecord)
      requires Valid()
      modifies this`records
      ensures Valid() && records == old(records) + {st} && fresh(st) && st.id == id
      ensures st.Value() == NewStream(view, pri, state)
    {
      st := new StreamRecord(id, pri, state, ToInt32(cfg.remoteInit));
      records := records + {st};
    }

    /** spdylay_session_open_stream. */
    method Open(id: int, pri: nat, state: StreamState)
      requires Valid()
      modifies this`streams, this`numOutgoing, this`numIncoming, this`view, this`records
      ensures Valid() && view == OpenStream(old(view), id, pri, state) && fresh(records - old(records))
    {
      var st := NewRecord(id, pri, state);
      if id !in streams {
        Link(st);
        Happened([Enter(id)]);
      }
      Count(id, 1);
    }

    /** The record of stream `id` has been changed: the value follows. */
    ghost method Follow(id: int)
      requires Fields() && id in streams && view.streams.Keys == streams.Keys
      requires forall j <- streams :: streams[j] in records && streams[j].id == j && (j != id ==> streams[j].Value() == view.streams[j])
      modifies this`view
      ensures Valid() && view == PutStream(old(view), id, streams[id].Value())
    {
      view := PutStream(view, id, streams[id].Value());
    }

    /** Half-closing a stream, which closes it when the other half is closed already. */
    method ShutDown(id: int, rd: bool, wr: bool)
      requires Valid() && id in streams
      modifies this`streams, this`numOutgoing, this`numIncoming, this`view, records
      ensures Valid() && view == Shut(old(view), id, rd, wr)
    {
      var st := streams[id];
      st.Shutdown(rd, wr);
      if st.shutRd && st.shutWr {
        PutThenClose(view, id, st.Value());
        Follow(id);
        Close(id);
      } else {
        Follow(id);
      }
    }

    // ---------- queueing ----------

    function StreamPri(id: int): (p: int)
      requires Valid()
      reads this, records
      ensures p == StreamPriority(view, id)
    {
      if id in streams then
        assert streams[id].Value() == view.streams[id];
        streams[id].pri
      else if flowControl then 7 else 3
    }

    function Pri(f: Frame): (p: int)
      requires Valid()
      reads this, records
      ensures p == Priority(view, f)
    {
      match f
      case SynStream(_, _, _, _, pri, _) => pri
      case Settings(_) => -1
      case Ping(_) => -10
      case Goaway(_) => if flowControl then 7 else 3
      case SynReply(id, _, _) => StreamPri(id)
      case RstStream(id, _) => StreamPri(id)
      case Headers(id, _) => StreamPri(id)
      case WindowUpdate(id, _) => StreamPri(id)
      case Data(id, _, _) => StreamPri(id)
    }

    method PushItem(pri: int, f: Frame)
      requires Valid()
      modifies this`nextSeq, this`obPq, this`obSsPq, this`view
      ensures Valid() && view == Accept(old(view), pri, f)
    {
      var item := Item(nextSeq, pri, f);
      nextSeq := nextSeq + 1;
      if f.SynStream? {
        obSsPq := Enqueue(obSsPq, item);
      } else {
        obPq := Enqueue(obPq, item);
      }
      view := Accept(view, pri, f);
    }

    /** Assign the state of an open stream. */
    method PutState(id: int, state: StreamState)
      requires Valid() && id in streams && (Inv(view) ==> StateOk(view, id, state))
      modifies this`view, records
      ensures Valid() && view == SetState(old(view), id, state)
    {
      streams[id].state := state;
      Follow(id);
    }

    /** spdylay_session_add_frame. */
    method QueueFrame(f: Frame)
      requires Valid()
      modifies this`nextSeq, this`obPq, this`obSsPq, this`view, records
      ensures Valid() && view == AddFrame(old(view), f)
    {
      var pri := Pri(f);
      if f.RstStream? && f.id in streams {
        PutState(f.id, Closing);
      }
      PushItem(pri, f);
    }

    // ---------- may it be sent? ----------

    function StreamForSend(id: int): (r: int)
      requires Valid()
      reads this, records
      ensures r == StreamSendError(view, id)
    {
      if id !in streams then STREAM_CLOSED
      else
        assert streams[id].Value() == view.streams[id];
        if streams[id].shutWr then STREAM_SHUT_WR else 0
    }

    function HeadersSend(id: int): (r: int)
      requires Valid()
      reads this, records
      ensures r == HeadersSendError(view, id)
    {
      if StreamForSend(id) != 0 then StreamForSend(id)
      else
        assert streams[id].Value() == view.streams[id];
        if streams[id].state.Closing? then STREAM_CLOSING
        else if IsMine(server, id) || streams[id].state.Opened? then 0
        else INVALID_STREAM_STATE
    }

    function SynReplySend(id: int): (r: int)
      requires Valid()
      reads this, records
      ensures r == SynReplySendError(view, id)
    {
      if StreamForSend(id) != 0 then StreamForSend(id)
      else if IsMine(server, id) then INVALID_STREAM_ID
      else
        assert streams[id].Value() == view.streams[id];
        if streams[id].state.Opening? then 0
        else if streams[id].state.Closing? then STREAM_CLOSING
        else INVALID_STREAM_STATE
    }

    function WindowUpdateSend(id: int): (r: int)
      requires Valid()
      reads this, records
      ensures r == WindowUpdateSendError(view, id)
    {
      if id !in streams then STREAM_CLOSED
      else
        assert streams[id].Value() == view.streams[id];
        if streams[id].state.Closing? then STREAM_CLOSING else 0
    }

    function DataSend(id: int): (r: int)
      requires Valid()
      reads this, records
      ensures r == DataSendError(view, id)
    {
      if StreamForSend(id) != 0 then StreamForSend(id)
      else
        assert streams[id].Value() == view.streams[id];
        if streams[id].deferred.Some? then DEFERRED_DATA_EXIST else HeadersSend(id)
    }

    function ControlSend(f: Frame): (r: int)
      requires Valid()
      reads this, records
      ensures r == ControlSendError(view, f)
    {
      match f
      case SynReply(id, _, _) => SynReplySend(id)
      case Headers(id, _) => HeadersSend(id)
      case WindowUpdate(id, _) => WindowUpdateSend(id)
      case Goaway(_) => if goaway.sent then GOAWAY_ALREADY_SENT else 0
      case _ => 0
    }

    function SynStreamSend(assoc: int): (r: int)
      requires Valid()
      reads this, records
      ensures r == SynStreamSendError(view, assoc)
    {
      if goaway.Any() then SYN_STREAM_NOT_ALLOWED
      else if nextStreamId > INT32_MAX then STREAM_ID_NOT_AVAILABLE
      else if assoc != 0 && assoc !in streams then STREAM_CLOSED
      else 0
    }

    function ReadMax(id: int): (r: int)
      requires Valid() && id in streams
      reads this, records
      ensures r == NextDataRead(view, view.streams[id])
    {
      assert streams[id].Value() == view.streams[id];
      if flowControl then ReadLimit(streams[id].window) else DATA_PAYLOAD_LENGTH
    }

    // ---------- items on the move ----------

    /** spdylay_session_pop_next_ob_item. */
    method PopNextItem() returns (item: Option<Item>)
      requires Valid() && view.hand.None? && active.None?
      modifies this`obPq, this`obSsPq, this`view
      ensures Valid() && view == PopNext(old(view)) && item == view.hand
    {
      item := None;
      var max := cfg.remoteMax <= numOutgoing;
      if obSsPq != [] && (obPq != [] || !max) {
        item := Some(obSsPq[0]);
        obSsPq := obSsPq[1..];
      } else if obSsPq == [] && obPq != [] {
        item := Some(obPq[0]);
        obPq := obPq[1..];
      }
      view := PopNext(view);
    }

    ghost method FreeItem()
      requires Valid() && view.hand.Some?
      modifies this`view
      ensures Valid() && view == SessionMoves.Free(old(view))
    {
      view := SessionMoves.Free(view);
    }

    /** The held item becomes the active one, with its frame packed. */
    method SetActive(item: Item, f: Frame, length: nat, word: nat)
      requires Valid() && view.hand == Some(item) && active.None?
      modifies this`active, this`view
      ensures Valid() && view == old(view).(hand := None, active := Some(Active(item.(frame := f), length, 0, word, 0)))
    {
      active := Some(Active(item.(frame := f), length, 0, word, 0));
      view := view.(hand := None, active := active);
    }

    /** spdylay_stream_defer_data on the held item. */
    method DeferItem(item: Item, id: int, flow: bool)
      requires Valid() && view.hand == Some(item) && id in streams && view.streams[id].deferred.None?
      modifies this`view, records
      ensures Valid() && view == Defer(old(view), id, flow)
    {
      assert streams[id].Value() == view.streams[id];
      streams[id].DeferData(item, flow);
      Follow(id);
      view := view.(hand := None);
    }

    /** The deferred item of a stream is queued again. */
    method WakeItem(id: int)
      requires Valid() && id in streams && view.streams[id].deferred.Some?
      modifies this`view, this`obPq, records
      ensures Valid() && view == Wake(old(view), id)
    {
      var st := streams[id];
      assert st.Value() == view.streams[id];
      PushBack(st.deferred.value);
      st.DetachDeferred();
      Follow(id);
    }

    method PushBack(item: Item)
      requires Valid()
      modifies this`obPq, this`view
      ensures Valid() && view == old(view).(obPq := Enqueue(old(view).obPq, item))
    {
      obPq := Enqueue(obPq, item);
      view := view.(obPq := obPq);
    }

    /** The active slot is emptied; the item is in hand. */
    method ReleaseActive() returns (item: Item)
      requires Valid() && active.Some?
      modifies this`active, this`goaway, this`view
      ensures Valid() && view == TakeActive(old(view)) && view.hand == Some(item)
    {
      item := active.value.item;
      goaway := goaway.(sent := goaway.sent || item.frame.Goaway?);
      active := None;
      view := TakeActive(view);
    }

    /** Settings change; `oversized` and `overSent` say what goes into the history. */
    method SetConfig(c: Config, ghost oversized: bool, ghost overSent: bool)
      requires Valid() && c == Plain(c)
      modifies this`cfg, this`view
      ensures Valid() && view == old(view).(cfg := c.(oversized := oversized, overSent := overSent))
    {
      cfg := c;
      view := view.(cfg := c.(oversized := oversized, overSent := overSent));
    }

    method TakeId() returns (id: int)
      requires Valid()
      modifies this`nextStreamId, this`view
      ensures Valid() && id == old(view).nextStreamId && view == old(view).(nextStreamId := id + 2)
    {
      id := nextStreamId;
      nextStreamId := nextStreamId + 2;
      view := view.(nextStreamId := nextStreamId);
    }

    // ---------- spdylay_session_prep_frame ----------

    method PrepControlFrame(item: Item, length: Option<nat>)
      requires Valid() && view.hand == Some(item) && active.None? && !item.frame.SynStream? && !item.frame.Data?
      modifies this`active, this`view
      ensures Valid() && view == PrepControl(old(view), length)
    {
      if ControlSend(item.frame) != 0 || length.None? {
        FreeItem();
      } else {
        SetActive(item, item.frame, length.value, 0);
      }
    }

    method PrepSynStreamFrame(item: Item, length: Option<nat>)
      requires Valid() && view.hand == Some(item) && active.None? && item.frame.SynStream?
      modifies this`active, this`view, this`nextStreamId, this`streams, this`numOutgoing, this`numIncoming, this`records
      ensures Valid() && view == PrepSynStream(old(view), length) && fresh(records - old(records))
    {
      var f := item.frame;
      if SynStreamSend(f.assoc) != 0 {
        FreeItem();
      } else {
        var id := TakeId();
        if length.None? {
          FreeItem();
        } else {
          BeginStream(item, id, length.value);
        }
      }
    }

    /** The stream is opened, and its SYN_STREAM with the assigned ID goes into the frame buffer. */
    method BeginStream(item: Item, id: int, length: nat)
      requires Valid() && view.hand == Some(item) && active.None? && item.frame.SynStream?
      modifies this`active, this`view, this`streams, this`numOutgoing, this`numIncoming, this`records
      ensures Valid() && fresh(records - old(records))
      ensures var f := item.frame;
        view == OpenStream(old(view).(hand := None, active := Some(Active(item.(frame := SynStream(id, f.fin, f.uni, f.assoc, f.pri, f.hasData)), length, 0, 0, 0))),
                           id, f.pri, Initial)
    {
      var f := item.frame;
      Open(id, f.pri, Initial);
      SetActive(item, SynStream(id, f.fin, f.uni, f.assoc, f.pri, f.hasData), length, 0);
    }

    /** spdylay_session_pack_data, and what becomes of the item; `read` is what the read
        callback returned. */
    method PackDataFrame(item: Item, max: int, read: ReadResult)
      requires Valid() && view.hand == Some(item) && active.None? && item.frame.Data?
      requires DataSendError(view, item.frame.id) == 0
      requires 0 < max <= NextDataRead(view, view.streams[item.frame.id])
      modifies this`active, this`view, this`nextSeq, this`obPq, this`obSsPq, records
      ensures Valid() && view == PackData(old(view), max, read)
    {
      var f := item.frame;
      match read
      case ReadDeferred => DeferItem(item, f.id, false);
      case ReadTemporalFailure =>
        QueueFrame(RstStream(f.id, INTERNAL_ERROR));
        FreeItem();
      case ReadFailure => FreeItem();
      case ReadBytes(n, eof) =>
        if max < n {
          FreeItem();
        } else {
          StartData(item, n, eof);
        }
    }

    /** A DATA frame with `n` bytes of payload becomes the active one. */
    method StartData(item: Item, n: nat, eof: bool)
      requires Valid() && view.hand == Some(item) && active.None? && item.frame.Data? && item.frame.id in view.streams
      modifies this`active, this`view
      ensures Valid()
      ensures var s, f := old(view), item.frame;
        var over := s.flowControl && s.streams[f.id].charged + n > Granted(s, f.id);
        view == s.(hand := None, cfg := s.cfg.(overSent := s.cfg.overSent || over),
                   active := Some(Active(item.(frame := Data(f.id, f.fin, f.eof || eof)), n + 8, 0,
                                         n + (if eof && f.fin then 0x100_0000 else 0), 0)))
    {
      var f := item.frame;
      ghost var over := flowControl && view.streams[f.id].charged + n > Granted(view, f.id);
      SetActive(item, Data(f.id, f.fin, f.eof || eof), n + 8, n + if eof && f.fin then 0x100_0000 else 0);
      Note(over);
    }

    /** History: a DATA frame went over what the peer has granted. */
    ghost method Note(over: bool)
      requires Valid()
      modifies this`view
      ensures Valid() && view == old(view).(cfg := old(view).cfg.(overSent := old(view).cfg.overSent || over))
    {
      view := view.(cfg := view.cfg.(overSent := view.cfg.overSent || over));
    }

    method PrepDataFrame(item: Item, read: ReadResult)
      requires Valid() && view.hand == Some(item) && active.None? && item.frame.Data?
      modifies this`active, this`view, this`nextSeq, this`obPq, this`obSsPq, records
      ensures Valid() && view == PrepData(old(view), read)
    {
      var id := item.frame.id;
      if DataSend(id) != 0 {
        FreeItem();
      } else if ReadMax(id) == 0 {
        DeferItem(item, id, true);
      } else {
        PackDataFrame(item, ReadMax(id), read);
      }
    }

    /** The part of a round of spdylay_session_send that looks for a frame to send. */
    method PullNext(read: ReadResult, length: Option<nat>) returns (found: bool)
      requires Valid() && view.hand.None? && active.None?
      modifies this, records
      ensures Valid() && fresh(records - old(records)) && view == Pull(old(view), read, length)
      ensures !found ==> Idle(view)
    {
      var item := PopNextItem();
      found := item.Some?;
      if found {
        if item.value.frame.SynStream? {
          PrepSynStreamFrame(item.value, length);
        } else if item.value.frame.Data? {
          PrepDataFrame(item.value, read);
        } else {
          PrepControlFrame(item.value, length);
        }
      }
    }

    // ---------- spdylay_session_after_frame_sent ----------

    method SynFrameSent(id: int, state: StreamState, rd: bool, wr: bool, hasData: bool)
      requires Valid() && id in streams && (Inv(view) ==> StateOk(view, id, state))
      modifies this`view, this`streams, this`numOutgoing, this`numIncoming, this`nextSeq, this`obPq, this`obSsPq, records
      ensures Valid() && view == SynSent(old(view), id, state, rd, wr, hasData)
    {
      PutState(id, state);
      ShutDown(id, rd, wr);
      if hasData {
        QueueFrame(Data(id, true, false));
      }
    }

    /** The switch over the kind of frame that went out. */
    method FrameSent()
      requires Valid() && active.Some?
      modifies this`view, this`streams, this`numOutgoing, this`numIncoming, this`nextSeq, this`obPq, this`obSsPq, this`cfg, records
      ensures Valid() && view == SentEffects(old(view))
    {
      BeginningOk(view);
      match active.value.item.frame
      case SynStream(id, fin, uni, _, _, hasData) =>
        if id in streams { SynFrameSent(id, Opening, uni, fin, hasData); }
      case SynReply(id, fin, hasData) =>
        if id in streams { SynFrameSent(id, Opened, false, fin, hasData); }
      case RstStream(id, _) => Close(id);
      case Ping(u) => SetConfig(cfg.(lastPing := u), view.cfg.oversized, view.cfg.overSent);
      case Headers(id, fin) => if id in streams { ShutDown(id, false, fin); }
      case Data(id, fin, eof) => if eof && fin && id in streams { ShutDown(id, false, true); }
      case _ =>
    }

    /** spdylay_session_get_next_ob_item. */
    function PeekItem(): (r: Option<Item>)
      requires Valid()
      reads this, records
      ensures r == PeekNext(view)
    {
      var max := cfg.remoteMax <= numOutgoing;
      if obPq == [] then
        if obSsPq == [] || max then None else Some(obSsPq[0])
      else if obSsPq == [] || max || Before(obPq[0], obSsPq[0]) then Some(obPq[0])
      else Some(obSsPq[0])
    }

    /** The rest of spdylay_session_after_frame_sent, for a DATA item with more to read. */
    method ReadOn(item: Item, read: ReadResult)
      requires Valid() && view.hand == Some(item) && active.None? && item.frame.Data? && DataSendError(view, item.frame.id) == 0
      modifies this`active, this`view, this`nextSeq, this`obPq, this`obSsPq, records
      ensures Valid() && view == ReadAgain(old(view), read)
    {
      var next, id := PeekItem(), item.frame.id;
      if next.Some? && item.pri > next.value.pri {
        PushBack(item);
        view := view.(hand := None);
      } else if ReadMax(id) == 0 {
        DeferItem(item, id, true);
      } else {
        PackDataFrame(item, ReadMax(id), read);
      }
    }

    /** spdylay_session_after_frame_sent. */
    method AfterSent(read: ReadResult)
      requires Valid() && active.Some? && view.hand.None?
      modifies this, records
      ensures Valid() && records == old(records) && view == AfterFrameSent(old(view), read)
    {
      var item := FinishFrame();
      var f := item.frame;
      if !f.Data? || f.eof || DataSend(f.id) != 0 {
        FreeItem();
      } else {
        ReadOn(item, read);
      }
    }

    /** The effects of the frame, after which it is no longer active. */
    method FinishFrame() returns (item: Item)
      requires Valid() && active.Some? && view.hand.None?
      modifies this, records
      ensures Valid() && records == old(records) && view == Complete(old(view)) && active.None? && view.hand == Some(item)
      ensures item == old(active).value.item
    {
      FrameSent();
      item := ReleaseActive();
    }

    /** A stream's send window shrinks. */
    method TakeWindow(id: int, word: int, ghost payload: int)
      requires Valid() && id in streams
      modifies this`view, records
      ensures Valid() && view == PutStream(old(view), id, old(view).streams[id].(
        window := old(view).streams[id].window - word, charged := old(view).streams[id].charged + payload))
    {
      var st := streams[id];
      assert st.Value() == view.streams[id];
      st.window := st.window - word;
      st.charged := st.charged + payload;
      Follow(id);
    }

    method Advance(a: Active)
      requires Valid()
      modifies this`active, this`view
      ensures Valid() && view == old(view).(active := Some(a))
    {
      active := Some(a);
      view := view.(active := active);
    }

    /** The send callback took `sent` bytes: the window of a DATA frame's stream is charged. */
    method ChargeWindow(sent: nat)
      requires Valid() && active.Some?
      modifies this`active, this`view, records
      ensures Valid() && view == Charge(old(view), sent)
    {
      ChargeStream();
      Advance(active.value.(offset := active.value.offset + sent, calls := active.value.calls + 1));
    }

    method ChargeStream()
      requires Valid() && active.Some?
      modifies this`view, records
      ensures Valid() && view == WindowTaken(old(view))
    {
      var a := active.value;
      var f := a.item.frame;
      if flowControl && f.Data? && f.id in streams {
        TakeWindow(f.id, a.word, if a.calls == 0 then a.word % 0x100_0000 else 0);
      }
    }

    /** The part of a round that follows a successful send callback. */
    method PushNext(sent: nat, read: ReadResult)
      requires Valid() && active.Some? && view.hand.None?
      modifies this, records
      ensures Valid() && records == old(records) && view == Push(old(view), sent, read)
    {
      ChargeWindow(sent);
      if active.value.offset == active.value.length {
        AfterSent(read);
      }
    }

    // ---------- frames received ----------

    method SetLastReceived(id: int)
      requires Valid()
      modifies this`lastRecvStreamId, this`view
      ensures Valid() && view == old(view).(lastRecvStreamId := id)
    {
      lastRecvStreamId := id;
      view := view.(lastRecvStreamId := id);
    }

    method SetGoaway(g: GoawayFlags)
      requires Valid()
      modifies this`goaway, this`view
      ensures Valid() && view == old(view).(goaway := g)
    {
      goaway := g;
      view := view.(goaway := g);
    }

    method SetReceiving(b: Option<Inbound>)
      requires Valid()
      modifies this`receiving, this`view
      ensures Valid() && view == old(view).(receiving := b)
    {
      receiving := b;
      view := view.(receiving := b);
    }

    /** spdylay_session_fail_session. */
    method Fail()
      requires Valid()
      modifies this`goaway, this`nextSeq, this`obPq, this`obSsPq, this`view, records
      ensures Valid() && view == FailSession(old(view))
    {
      SetGoaway(goaway.(failOnSend := true));
      QueueFrame(Goaway(lastRecvStreamId));
    }

    /** The peer's half of a stream closes. */
    method PeerFinished(id: int)
      requires Valid() && id in streams && receiving.None?
      modifies this`streams, this`numOutgoing, this`numIncoming, this`view, records
      ensures Valid() && view == AcceptFin(old(view), id)
    {
      ShutDown(id, true, false);
      Happened([PeerFin(id)]);
    }

    /** spdylay_session_validate_syn_stream. */
    function ValidateSynStream(uni: bool, assoc: int, versionOk: bool): (r: int)
      requires Valid()
      reads this, records
      ensures r == SynStreamStatus(view, uni, assoc, versionOk)
    {
      if !versionOk then UNSUPPORTED_VERSION
      else if server && assoc != 0 then PROTOCOL_ERROR
      else if !server && assoc == 0 then INVALID_STREAM
      else if !server && (!uni || assoc % 2 == 0 || assoc !in streams) then PROTOCOL_ERROR
      else if cfg.localMax <= numIncoming then REFUSED_STREAM
      else 0
    }

    /** A valid SYN_STREAM with a new ID. */
    method TakeSynStream(id: StreamId, fin: bool, uni: bool, pri: nat)
      requires Valid() && receiving.None? && IsNewPeerId(view, id) && !(fin && uni) && !goaway.Any()
      modifies this, records
      ensures Valid() && fresh(records - old(records)) && view == AcceptSynStream(old(view), id, fin, uni, pri)
    {
      var known := id in streams;
      SetLastReceived(id);
      Open(id, pri, Opening);
      if !known {
        ShutDown(id, false, uni);
        if fin {
          PeerFinished(id);
        }
      }
    }

    method NewSynStream(id: StreamId, fin: bool, uni: bool, assoc: StreamId, pri: nat, versionOk: bool)
      requires Valid() && receiving.None? && IsNewPeerId(view, id) && !goaway.Any()
      modifies this, records
      ensures Valid() && fresh(records - old(records))
      ensures view == OnSynStream(old(view), id, fin, uni, assoc, pri, versionOk)
    {
      var status := ValidateSynStream(uni, assoc, versionOk);
      if status == 0 && !(fin && uni) {
        TakeSynStream(id, fin, uni, pri);
      } else {
        SetLastReceived(id);
        if status != 0 {
          QueueFrame(RstStream(id, status));
        } else {
          Happened([Closed(id)]);
        }
      }
    }

    /** spdylay_session_on_syn_stream_received. */
    method SynStreamReceived(id: StreamId, fin: bool, uni: bool, assoc: StreamId, pri: nat, versionOk: bool)
      requires Valid() && receiving.None?
      modifies this, records
      ensures Valid() && fresh(records - old(records))
      ensures view == OnSynStream(old(view), id, fin, uni, assoc, pri, versionOk)
    {
      if goaway.Any() {
        return;
      }
      if lastRecvStreamId == id {
        QueueFrame(RstStream(id, PROTOCOL_ERROR));
      } else if id == 0 || id % 2 != (if server then 1 else 0) || id < lastRecvStreamId {
        Fail();
      } else {
        NewSynStream(id, fin, uni, assoc, pri, versionOk);
      }
    }

    /** spdylay_session_on_syn_reply_received. */
    method SynReplyReceived(id: StreamId, fin: bool)
      requires Valid() && receiving.None?
      modifies this, records
      ensures Valid() && records == old(records) && view == OnSynReply(old(view), id, fin)
    {
      assert id in streams ==> streams[id].Value() == view.streams[id];
      if id !in streams || streams[id].shutRd || !IsMine(server, id) {
        QueueFrame(RstStream(id, PROTOCOL_ERROR));
      } else if streams[id].state.Opening? {
        PutState(id, Opened);
        if fin {
          PeerFinished(id);
        }
      } else if !streams[id].state.Closing? {
        QueueFrame(RstStream(id, if flowControl then STREAM_IN_USE else PROTOCOL_ERROR));
      }
    }

    /** spdylay_session_on_headers_received. */
    method HeadersReceived(id: StreamId, fin: bool)
      requires Valid() && receiving.None?
      modifies this, records
      ensures Valid() && records == old(records) && view == OnHeaders(old(view), id, fin)
    {
      assert id in streams ==> streams[id].Value() == view.streams[id];
      if id !in streams || streams[id].shutRd {
        QueueFrame(RstStream(id, PROTOCOL_ERROR));
      } else if !streams[id].state.Closing? {
        if IsMine(server, id) && !streams[id].state.Opened? {
          QueueFrame(RstStream(id, PROTOCOL_ERROR));
        } else if fin {
          PeerFinished(id);
        }
      }
    }

    /** spdylay_session_on_ping_received. */
    method PingReceived(u: int)
      requires Valid()
      modifies this, records
      ensures Valid() && records == old(records) && view == OnPing(old(view), u)
    {
      if u != 0 {
        if cfg.lastPing == u {
          SetConfig(cfg.(lastPing := 0), view.cfg.oversized, view.cfg.overSent);
        } else if u % 2 == (if server then 1 else 0) {
          QueueFrame(Ping(u));
        }
      }
    }

    // ---------- windows ----------

    /** Data that waited for a positive window is queued again. */
    method WakeIfOpen(id: int)
      requires Valid() && id in streams
      modifies this`obPq, this`view, records
      ensures Valid()
      ensures var st := old(view).streams[id];
        view == if st.window > 0 && st.deferred.Some? && st.deferredFlow then Wake(old(view), id) else old(view)
    {
      var st := streams[id];
      assert st.Value() == view.streams[id];
      if st.window > 0 && st.deferred.Some? && st.deferredFlow {
        WakeItem(id);
      }
    }

    /** A stream gets a new send window. */
    method PutWindow(id: int, window: int, ghost credited: int)
      requires Valid() && id in streams
      modifies this`obPq, this`view, records
      ensures Valid() && view == SetWindow(old(view), id, window, credited)
    {
      AssignThenWake(view, id, window, credited);
      AssignWindow(id, window, credited);
      WakeIfOpen(id);
    }

    method AssignWindow(id: int, window: int, ghost credited: int)
      requires Valid() && id in streams
      modifies this`view, records
      ensures Valid() && view == PutStream(old(view), id, old(view).streams[id].(window := window, credited := credited))
    {
      var st := streams[id];
      assert st.Value() == view.streams[id];
      st.window := window;
      st.credited := credited;
      Follow(id);
    }

    /** spdylay_session_on_window_update_received. */
    method WindowUpdateReceived(id: StreamId, delta: StreamId)
      requires Valid()
      modifies this, records
      ensures Valid() && records == old(records) && view == OnWindowUpdate(old(view), id, delta)
    {
      if flowControl && id in streams {
        assert streams[id].Value() == view.streams[id];
        if INT32_MAX - delta < streams[id].window {
          QueueFrame(RstStream(id, FLOW_CONTROL_ERROR));
        } else {
          PutWindow(id, streams[id].window + delta, streams[id].credited + delta);
        }
      }
    }

    /** The callback of spdylay_session_update_initial_window_size for one stream. */
    method AdjustWindow(id: int, value: int, was: int)
      requires Valid() && id in streams
      modifies this`obPq, this`view, records
      ensures Valid()
      ensures view == Adjusted(old(view), id, value, was)
    {
      var st := streams[id];
      assert st.Value() == view.streams[id];
      AssignThenWake(view, id, value - (was - st.window), st.credited);
      AssignAdjusted(id, value, was);
      WakeIfOpen(id);
    }

    method AssignAdjusted(id: int, value: int, was: int)
      requires Valid() && id in streams
      modifies this`view, records
      ensures Valid() && view == PutStream(old(view), id, old(view).streams[id].(window := value - (was - old(view).streams[id].window)))
    {
      var st := streams[id];
      assert st.Value() == view.streams[id];
      st.UpdateInitialWindowSize(value, was);
      Follow(id);
    }

    method LeastOf(ids: set<int>) returns (id: int)
      requires Inhabited(ids)
      ensures id == Least(ids)
    {
      ghost var least := Least(ids);
      id :| id in ids && forall j <- ids :: id <= j;
    }

    method AdjustNext(ids: set<int>, value: int, was: int, ghost keeps: (Session, set<int>) -> bool) returns (id: int)
      requires Valid() && Inhabited(ids) && ids <= streams.Keys && keeps(view, ids) && KeptByAdjusting(keeps, value, was)
      modifies this`obPq, this`view, records
      ensures Valid() && id in ids && keeps(view, ids - {id})
    {
      id := LeastOf(ids);
      AdjustWindow(id, value, was);
    }

    /** The loop over the streams in ascending order, for whatever a single adjustment keeps. */
    method AdjustAll(value: int, was: int, ghost keeps: (Session, set<int>) -> bool)
      requires Valid() && keeps(view, streams.Keys) && KeptByAdjusting(keeps, value, was)
      modifies this`obPq, this`view, records
      ensures Valid() && exists ids :: !Inhabited(ids) && keeps(view, ids)
    {
      var ids := streams.Keys;
      while Inhabited(ids)
        invariant Valid() && ids <= streams.Keys && keeps(view, ids)
        decreases |ids|
      {
        var id := AdjustNext(ids, value, was, keeps);
        ids := ids - {id};
      }
    }

    /** spdylay_session_update_initial_window_size. */
    method UpdateInitialWindowSize(value: int)
      requires Valid()
      modifies this`obPq, this`view, records
      ensures Valid() && view == AdjustWindows(old(view), old(view).streams.Keys, value, ToInt32(cfg.remoteInit))
    {
      var was := ToInt32(cfg.remoteInit);
      ghost var whole := AdjustWindows(view, view.streams.Keys, value, was);
      ghost var keeps := AdjustsTo(whole, value, was);
      AdjustAll(value, was, keeps);
    }

    /** One setting of a SETTINGS frame that has not occurred before. */
    method ApplySetting(sid: int, v: int)
      requires Valid()
      modifies this`obPq, this`view, this`cfg, records
      ensures Valid() && view == OneSetting(old(view), sid, v)
    {
      if sid == SETTINGS_INITIAL_WINDOW_SIZE {
        if flowControl && v <= INT32_MAX {
          UpdateInitialWindowSize(v);
        }
        SetConfig(cfg.(remoteInit := v), view.cfg.oversized || v > INT32_MAX, view.cfg.overSent);
      } else if sid == SETTINGS_MAX_CONCURRENT_STREAMS {
        SetConfig(cfg.(remoteMax := v), view.cfg.oversized, view.cfg.overSent);
      }
    }

    /** spdylay_session_on_settings_received. */
    method SettingsReceived(entries: seq<(int, int)>)
      requires Valid()
      modifies this`obPq, this`view, this`cfg, records
      ensures Valid() && view == OnSettings(old(view), entries, {})
    {
      ghost var whole := OnSettings(view, entries, {});
      var seen := {};
      for i := 0 to |entries|
        invariant Valid() && whole == OnSettings(view, entries[i..], seen)
      {
        var (sid, v) := entries[i];
        assert entries[i..][1..] == entries[i + 1..];
        if 0 < sid <= SETTINGS_MAX && sid !in seen {
          ApplySetting(sid, v);
        }
        seen := seen + {sid};
      }
    }

    /** spdylay_session_update_recv_window_size. */
    method UpdateRecvWindowSize(id: int, n: nat)
      requires Valid()
      modifies this, records
      ensures Valid() && records == old(records) && view == CountReceived(old(view), id, n)
    {
      if id in streams {
        assert streams[id].Value() == view.streams[id];
        var total := Counted(streams[id].recvWindow, n);
        if !cfg.noAutoWindowUpdate && total * 2 >= cfg.localInit {
          Credit(id, 0, total);
        } else {
          PutReceived(id, total);
        }
      }
    }

    /** A WINDOW_UPDATE is queued and what it gives back is not counted any more. */
    method Credit(id: int, total: int, delta: int)
      requires Valid() && id in streams
      modifies this`nextSeq, this`obPq, this`obSsPq, this`view, records
      ensures Valid()
      ensures view == AddFrame(PutStream(old(view), id, old(view).streams[id].(recvWindow := total)), WindowUpdate(id, delta))
    {
      PutReceived(id, total);
      QueueFrame(WindowUpdate(id, delta));
    }

    method PutReceived(id: int, total: int)
      requires Valid() && id in streams
      modifies this`view, records
      ensures Valid() && view == PutStream(old(view), id, old(view).streams[id].(recvWindow := total))
    {
      assert streams[id].Value() == view.streams[id];
      streams[id].recvWindow := total;
      Follow(id);
    }

    // ---------- DATA ----------

    /** spdylay_session_check_data_recv_allowed. */
    predicate MayReceiveData(id: int)
      requires Valid()
      reads this, records
      ensures MayReceiveData(id) == DataAllowed(view, id)
    {
      && id in streams
      && (assert streams[id].Value() == view.streams[id]; !streams[id].shutRd)
      && if IsMine(server, id) then streams[id].state.Opened? else !streams[id].state.Closing?
    }

    /** spdylay_session_on_data_received. */
    method DataReceived(id: int, fin: bool)
      requires Valid() && receiving.None?
      modifies this, records
      ensures Valid() && records == old(records) && view == OnData(old(view), id, fin)
    {
      assert id in streams ==> streams[id].Value() == view.streams[id];
      if id !in streams {
        QueueFrame(RstStream(id, INVALID_STREAM));
      } else if streams[id].shutRd {
        QueueFrame(RstStream(id, PROTOCOL_ERROR));
      } else if MayReceiveData(id) {
        if fin {
          PeerFinished(id);
        }
      } else if !streams[id].state.Closing? {
        QueueFrame(RstStream(id, PROTOCOL_ERROR));
      }
    }

    /** Payload bytes of a DATA frame. */
    method DataBytesReceived(n: nat)
      requires Valid() && receiving.Some? && n <= receiving.value.remaining
      modifies this, records
      ensures Valid() && records == old(records) && view == DataBytes(old(view), n)
    {
      var b := receiving.value;
      var rest := b.remaining - n;
      if !b.ignored {
        Happened([Chunk(b.id, n)]);
      }
      if flowControl && !b.ignored && n > 0 && (rest > 0 || !b.fin) {
        UpdateRecvWindowSize(b.id, n);
      }
      if rest > 0 {
        SetReceiving(Some(b.(remaining := rest)));
      } else {
        SetReceiving(None);
        DataReceived(b.id, b.fin);
      }
    }

    /** The header of a DATA frame. */
    method DataHeadReceived(id: StreamId, fin: bool, length: nat)
      requires Valid() && receiving.None?
      modifies this, records
      ensures Valid() && records == old(records) && view == DataHead(old(view), id, fin, length)
    {
      SetReceiving(Some(Inbound(id, fin, !MayReceiveData(id), length)));
      if length == 0 {
        DataBytesReceived(0);
      }
    }

    // ---------- application calls ----------

    /** spdylay_submit_syn_stream and its relatives. */
    method SubmitSyn(fin: bool, uni: bool, assoc: StreamId, pri: nat, hasData: bool)
      requires Valid()
      modifies this, records
      ensures Valid() && records == old(records) && view == OnSubmitSynStream(old(view), fin, uni, assoc, pri, hasData)
    {
      if pri <= (if flowControl then 7 else 3) && !(assoc != 0 && server && IsMine(server, assoc)) {
        QueueFrame(SynStream(0, fin, uni, if server then assoc else 0, pri, hasData));
      }
    }

    /** spdylay_submit_settings with spdylay_session_update_local_settings. */
    method SubmitLocalSettings(entries: seq<(int, int)>)
      requires Valid()
      modifies this, records
      ensures Valid() && records == old(records) && view == OnSubmitSettings(old(view), entries)
    {
      if ValidSettings(entries) {
        QueueFrame(Settings(entries));
        SetConfig(cfg.(localMax := Lookup(entries, SETTINGS_MAX_CONCURRENT_STREAMS, cfg.localMax),
                       localInit := Lookup(entries, SETTINGS_INITIAL_WINDOW_SIZE, cfg.localInit)),
                  view.cfg.oversized, view.cfg.overSent);
      }
    }

    /** spdylay_submit_window_update. */
    method SubmitCredit(id: StreamId, delta: int)
      requires Valid()
      modifies this, records
      ensures Valid() && records == old(records) && view == OnSubmitWindowUpdate(old(view), id, delta)
    {
      if delta > 0 && id in streams {
        assert streams[id].Value() == view.streams[id];
        Credit(id, Uncounted(streams[id].recvWindow, delta), delta);
      }
    }

    /** spdylay_session_resume_data. */
    method Resume(id: StreamId)
      requires Valid()
      modifies this, records
      ensures Valid() && records == old(records) && view == OnResumeData(old(view), id)
    {
      if id in streams {
        assert streams[id].Value() == view.streams[id];
        if streams[id].deferred.Some? && !streams[id].deferredFlow {
          WakeItem(id);
        }
      }
    }

    // ---------- spdylay_session_send ----------

    method PullStep(round: Round, ghost start: Session, ghost steps: seq<Input>) returns (found: bool)
      requires Valid() && active.None? && start.hand.None? && view == Run(start, steps)
      modifies this, records
      ensures Valid() && fresh(records - old(records)) && (!found ==> Idle(view))
      ensures view == Run(start, steps + [PullItem(round.read, round.packed)])
    {
      RunPull(start, steps, round.read, round.packed);
      found := PullNext(round.read, round.packed);
    }

    method PushStep(sent: nat, read: ReadResult, ghost start: Session, ghost steps: seq<Input>)
      requires Valid() && active.Some? && active.value.offset + sent <= active.value.length
      requires start.hand.None? && view == Run(start, steps)
      modifies this, records
      ensures Valid() && records == old(records)
      ensures view == Run(start, steps + [PushBytes(sent, read)])
    {
      RunPush(start, steps, sent, read);
      PushNext(sent, read);
    }

    /** One round of the loop. */
    method SendRound(round: Round, ghost start: Session, ghost steps: seq<Input>) returns (more: bool, ghost steps': seq<Input>)
      requires Valid() && start.hand.None? && view == Run(start, steps) && OnlySends(steps)
      modifies this, records
      ensures Valid() && fresh(records - old(records)) && view == Run(start, steps') && OnlySends(steps')
      ensures !more ==> Idle(view) || (round.sent.None? && active.Some?)
    {
      more, steps' := true, steps;
      if active.None? {
        more := PullStep(round, start, steps);
        steps' := steps + [PullItem(round.read, round.packed)];
      }
      if active.Some? {
        if round.sent.None? {
          more := false;
        } else if active.value.offset + round.sent.value <= active.value.length {
          PushStep(round.sent.value, round.next, start, steps');
          steps' := steps' + [PushBytes(round.sent.value, round.next)];
        }
      }
    }

    /** spdylay_session_send: rounds until nothing is left to send or the send callback takes
        nothing.  What it does is a run of the session. */
    method Send(rounds: seq<Round>) returns (more: bool, ghost steps: seq<Input>)
      requires Valid() && view.hand.None?
      modifies this, records
      ensures Valid() && fresh(records - old(records))
      ensures view == Run(old(view), steps) && OnlySends(steps)
      ensures !more ==> Idle(view) || (active.Some? && exists r <- rounds :: r.sent.None?)
    {
      steps, more := [], true;
      for i := 0 to |rounds|
        invariant Valid() && fresh(records - old(records)) && view == Run(old(view), steps) && OnlySends(steps)
        invariant !more ==> Idle(view) || (active.Some? && exists r <- rounds :: r.sent.None?)
      {
        if !more {
          break;
        }
        more, steps := SendRound(rounds[i], old(view), steps);
      }
    }

    // ---------- any input ----------

    /** An application call. */
    method HandleCall(i: Input)
      requires Valid() && view.hand.None? && IsCall(i)
      modifies this, records
      ensures Valid() && records == old(records) && view == Step(old(view), i)
    {
      if i.SubmitSynStream? {
        SubmitSyn(i.fin, i.uni, i.assoc, i.pri, i.hasData);
      } else if i.SubmitSettings? {
        SubmitLocalSettings(i.entries);
      } else if i.SubmitWindowUpdate? {
        SubmitCredit(i.id, i.amount);
      } else if i.ResumeData? {
        Resume(i.id);
      } else if i.SetNoAutoWindowUpdate? {
        SetConfig(cfg.(noAutoWindowUpdate := i.value), view.cfg.oversized, view.cfg.overSent);
      } else {
        HandleFrame(i);
      }
    }

    /** A call that just queues a frame. */
    method HandleFrame(i: Input)
      requires Valid() && view.hand.None? && IsCall(i)
      requires !i.SubmitSynStream? && !i.SubmitSettings? && !i.SubmitWindowUpdate? && !i.ResumeData? && !i.SetNoAutoWindowUpdate?
      modifies this, records
      ensures Valid() && records == old(records) && view == Step(old(view), i)
    {
      match i
      case SubmitSynReply(id, fin, hasData) => QueueFrame(SynReply(id, fin, hasData));
      case SubmitHeaders(id, fin) => QueueFrame(Headers(id, fin));
      case SubmitData(id, fin) => QueueFrame(Data(id, fin, false));
      case SubmitRstStream(id, status) => QueueFrame(RstStream(id, status));
      case SubmitPing(u) => QueueFrame(Ping(u));
      case SubmitGoaway => QueueFrame(Goaway(lastRecvStreamId));
    }

    /** A step of the send loop. */
    method HandleSend(i: Input)
      requires Valid() && view.hand.None? && (i.PullItem? || i.PushBytes?)
      modifies this, records
      ensures Valid() && fresh(records - old(records)) && view == Step(old(view), i)
    {
      match i
      case PullItem(read, length) =>
        if active.None? {
          var _ := PullNext(read, length);
        }
      case PushBytes(sent, read) =>
        if active.Some? && active.value.offset + sent <= active.value.length {
          PushNext(sent, read);
        }
    }

    method HandleSynStream(i: Input)
      requires Valid() && view.hand.None? && receiving.None? && i.RecvSynStream?
      modifies this, records
      ensures Valid() && fresh(records - old(records)) && view == Receive(old(view), i)
    {
      SynStreamReceived(i.id, i.fin, i.uni, i.assoc, i.pri, i.versionOk);
    }

    method HandleReply(i: Input)
      requires Valid() && view.hand.None? && receiving.None? && (i.RecvSynReply? || i.RecvHeaders?)
      modifies this, records
      ensures Valid() && records == old(records) && view == Receive(old(view), i)
    {
      if i.RecvSynReply? {
        SynReplyReceived(i.id, i.fin);
      } else {
        HeadersReceived(i.id, i.fin);
      }
    }

    /** The other received frames that concern one stream. */
    method HandleOnStream(i: Input)
      requires Valid() && view.hand.None? && receiving.None? && (i.RecvRstStream? || i.RecvInvalidBlock?)
      modifies this, records
      ensures Valid() && records == old(records) && view == Receive(old(view), i)
    {
      if i.RecvRstStream? {
        Close(i.id);
      } else {
        QueueFrame(RstStream(i.id, i.status));
      }
    }

    method HandleWindowUpdate(i: Input)
      requires Valid() && view.hand.None? && receiving.None? && i.RecvWindowUpdate?
      modifies this, records
      ensures Valid() && records == old(records) && view == Receive(old(view), i)
    {
      WindowUpdateReceived(i.id, i.delta);
    }

    /** A received frame that concerns the session, or the header of a DATA frame. */
    method HandleOnSession(i: Input)
      requires Valid() && view.hand.None? && receiving.None? && IsReceived(i) && !IsOnStream(i)
      modifies this, records
      ensures Valid() && records == old(records) && view == Receive(old(view), i)
    {
      match i
      case RecvSettings(entries) => SettingsReceived(entries);
      case RecvPing(u) => PingReceived(u);
      case RecvGoaway => SetGoaway(goaway.(received := true));
      case RecvMalformed => Fail();
      case RecvDataHead(id, fin, length) => DataHeadReceived(id, fin, length);
      case RecvDataBytes(_) =>
    }

    /** A frame received, or part of one. */
    method HandleReceived(i: Input)
      requires Valid() && view.hand.None? && IsReceived(i)
      modifies this, records
      ensures Valid() && fresh(records - old(records)) && view == Receive(old(view), i)
    {
      if receiving.Some? {
        if i.RecvDataBytes? && i.count <= receiving.value.remaining {
          DataBytesReceived(i.count);
        }
      } else if i.RecvSynStream? {
        HandleSynStream(i);
      } else if i.RecvSynReply? || i.RecvHeaders? {
        HandleReply(i);
      } else if i.RecvWindowUpdate? {
        HandleWindowUpdate(i);
      } else if i.RecvRstStream? || i.RecvInvalidBlock? {
        HandleOnStream(i);
      } else {
        HandleOnSession(i);
      }
    }

    method Handle(i: Input)
      requires Valid() && view.hand.None?
      modifies this, records
      ensures Valid() && fresh(records - old(records)) && view == Step(old(view), i)
    {
      if IsCall(i) {
        HandleCall(i);
      } else if i.PullItem? || i.PushBytes? {
        HandleSend(i);
      } else {
        HandleReceived(i);
      }
    }

    /** Any sequence of inputs. */
    method HandleAll(inputs: seq<Input>)
      requires Valid() && view.hand.None?
      modifies this, records
      ensures Valid() && fresh(records - old(records)) && view == Run(old(view), inputs)
      decreases inputs
    {
      if inputs != [] {
        Handle(inputs[0]);
        HandleAll(inputs[1..]);
      }
    }
  }

  /** Closing does not depend on how far the stream was shut. */
  lemma PutThenClose(s: Session, id: int, st: Stream)
    requires id in s.streams && st == s.streams[id].(shutRd := st.shutRd, shutWr := st.shutWr)
    ensures CloseStream(PutStream(s, id, st), id) == CloseStream(s, id)
  {
    assert s.streams[id := st] - {id} == s.streams - {id};
  }

  /** Assigning the window first and waking afterwards comes to the same. */
  lemma AssignThenWake(s: Session, id: int, window: int, credited: int)
    requires id in s.streams
    ensures var st := s.streams[id].(window := window, credited := credited);
      var s1 := PutStream(s, id, st);
      SetWindow(s, id, window, credited)
        == if window > 0 && st.deferred.Some? && st.deferredFlow then Wake(s1, id) else s1
  {
    var st := s.streams[id];
    assert s.streams[id := st.(window := window, credited := credited)]
                    [id := st.(window := window, credited := credited, deferred := None, deferredFlow := false)]
        == s.streams[id := st.(deferred := None, deferredFlow := false)]
                    [id := st.(window := window, credited := credited, deferred := None, deferredFlow := false)];
  }

  /** Whatever happens to a session object from its creation on, it holds the session that the
      same inputs lead to: all that is proved of reachable sessions holds of it. */
  method Drive(server: bool, flowControl: bool, inputs: seq<Input>) returns (e: Engine)
    ensures fresh(e) && e.Valid() && Reachable(e.view, server, flowControl, inputs)
  {
    e := new Engine(server, flowControl);
    e.HandleAll(inputs);
  }
}
