/** What one stream's flow control sees of a session: its windows, the settings, and the
    WINDOW_UPDATE and SETTINGS frames waiting to be sent; and that every operation that is not
    about them leaves them alone. */
module Ports {
  import opened Base
  import opened SessionTypes
  import opened SessionInvariant
  import opened SessionMoves
  import opened SessionCore
  import opened SessionSend
  import opened SessionReceive
  import opened SessionRuns
  import FC = FlowControl

  // ---------- control frames under way ----------

  predicate HasWindow(entries: seq<(int, int)>) {
    exists e <- entries :: e.0 == SETTINGS_INITIAL_WINDOW_SIZE
  }

  /** What a frame means for the flow control of stream `id`. */
  function Meaning(f: Frame, id: int): Option<FC.Control> {
    match f
    case WindowUpdate(j, d) => if j == id then Some(FC.Credit(d)) else None
    case Settings(entries) =>
      var v := Lookup(entries, SETTINGS_INITIAL_WINDOW_SIZE, 0);
      if HasWindow(entries) && v >= 0 then Some(FC.Setting(v)) else None
    case _ => None
  }

  function AsSeq(c: Option<FC.Control>): seq<FC.Control> {
    if c.Some? then [c.value] else []
  }

  /** The control frames for `id` in a queue, in queue order. */
  function Controls(q: seq<Item>, id: int): seq<FC.Control> {
    if q == [] then [] else AsSeq(Meaning(q[0].frame, id)) + Controls(q[1..], id)
  }

  /** The one being sent first, then those in the queue. */
  function Waiting(s: Session, id: int): seq<FC.Control> {
    (if s.active.Some? then AsSeq(Meaning(s.active.value.item.frame, id)) else []) + Controls(s.obPq, id)
  }

  function SettingsOf(cs: seq<FC.Control>): seq<int> {
    if cs == [] then [] else (if cs[0].Setting? then [cs[0].value] else []) + SettingsOf(cs[1..])
  }

  lemma {:induction false} SettingsConcat(a: seq<FC.Control>, b: seq<FC.Control>)
    ensures SettingsOf(a + b) == SettingsOf(a) + SettingsOf(b)
  {
    if a == [] {
      assert a + b == b;
    } else {
      SettingsConcat(a[1..], b);
      assert (a + b)[1..] == a[1..] + b;
      Reassociate(if a[0].Setting? then [a[0].value] else [], SettingsOf(a[1..]), SettingsOf(b));
    }
  }

  lemma Reassociate(a: seq<int>, b: seq<int>, c: seq<int>)
    ensures a + (b + c) == a + b + c
  {
  }

  /** Queueing a frame that means nothing to `id`. */
  lemma {:induction false} EnqueueOther(q: seq<Item>, x: Item, id: int)
    requires Meaning(x.frame, id).None?
    ensures Controls(Enqueue(q, x), id) == Controls(q, id)
  {
    if q == [] || Before(x, q[0]) {
      assert ([x] + q)[1..] == q;
    } else {
      EnqueueOther(q[1..], x, id);
      assert Enqueue(q, x)[1..] == Enqueue(q[1..], x);
    }
  }

  /** Queueing one that does. */
  lemma {:induction false} EnqueueControl(q: seq<Item>, x: Item, id: int)
    requires Meaning(x.frame, id).Some?
    ensures multiset(Controls(Enqueue(q, x), id)) == multiset(Controls(q, id)) + multiset{Meaning(x.frame, id).value}
  {
    if q == [] || Before(x, q[0]) {
      assert ([x] + q)[1..] == q;
    } else {
      EnqueueControl(q[1..], x, id);
      assert Enqueue(q, x)[1..] == Enqueue(q[1..], x);
    }
  }

  /** Credit does not disturb the SETTINGS frames. */
  lemma {:induction false} EnqueueCredit(q: seq<Item>, x: Item, id: int)
    requires x.frame.WindowUpdate? && Meaning(x.frame, id).Some?
    ensures SettingsOf(Controls(Enqueue(q, x), id)) == SettingsOf(Controls(q, id))
  {
    var c := Meaning(x.frame, id).value;
    if q == [] || Before(x, q[0]) {
      assert ([x] + q)[1..] == q;
      SettingsConcat([c], Controls(q, id));
    } else {
      EnqueueCredit(q[1..], x, id);
      assert Enqueue(q, x)[1..] == Enqueue(q[1..], x);
      SettingsConcat(AsSeq(Meaning(q[0].frame, id)), Controls(q[1..], id));
      SettingsConcat(AsSeq(Meaning(q[0].frame, id)), Controls(Enqueue(q[1..], x), id));
    }
  }

  /** Behind a frame of a later kind no SETTINGS frame waits. */
  lemma {:induction false} NoSettings(q: seq<Item>, id: int)
    requires forall y <- q :: ItemOk(y) && y.pri > -1
    ensures SettingsOf(Controls(q, id)) == []
  {
    if q != [] {
      assert q[0] in q;
      NoSettings(q[1..], id);
      SettingsConcat(AsSeq(Meaning(q[0].frame, id)), Controls(q[1..], id));
    }
  }

  /** A new SETTINGS frame goes behind those that wait. */
  lemma {:induction false} EnqueueSetting(q: seq<Item>, x: Item, id: int)
    requires Sorted(q) && (forall y <- q :: ItemOk(y) && y.num < x.num)
    requires x.frame.Settings? && x.pri == -1 && Meaning(x.frame, id).Some?
    ensures SettingsOf(Controls(Enqueue(q, x), id)) == SettingsOf(Controls(q, id)) + [Meaning(x.frame, id).value.value]
  {
    var c := Meaning(x.frame, id).value;
    assert SettingsOf([c]) == [c.value] by { assert [c][1..] == []; }
    if q == [] || Before(x, q[0]) {
      assert ([x] + q)[1..] == q;
      assert q != [] ==> q[0] in q;
      NoSettings(q, id);
      SettingsConcat([c], Controls(q, id));
    } else {
      EnqueueSetting(q[1..], x, id);
      assert Enqueue(q, x)[1..] == Enqueue(q[1..], x);
      SettingsConcat(AsSeq(Meaning(q[0].frame, id)), Controls(q[1..], id));
      SettingsConcat(AsSeq(Meaning(q[0].frame, id)), Controls(Enqueue(q[1..], x), id));
    }
  }

  // ---------- operations that are about something else ----------

  /** Nothing that the flow control of `id` sees has moved. */
  ghost predicate Still(s: Session, r: Session, id: int) {
    && r.flowControl == s.flowControl && r.active == s.active
    && r.cfg == s.cfg.(lastPing := r.cfg.lastPing)
    && Controls(r.obPq, id) == Controls(s.obPq, id)
    && (Stays(s, r, id) ==> SameWindows(s, r, id))
  }

  /** The stream has not been closed. */
  predicate Stays(s: Session, r: Session, id: int) {
    id in s.streams ==> id in r.streams
  }

  /** The send window of a stream, or what it will be when the stream is opened. */
  function WindowOf(s: Session, id: int): int {
    if id in s.streams then s.streams[id].window else ToInt32(s.cfg.remoteInit)
  }

  /** What has been received on a stream and not credited. */
  function RecvOf(s: Session, id: int): int {
    if id in s.streams then s.streams[id].recvWindow else 0
  }

  predicate SameWindows(s: Session, r: Session, id: int) {
    WindowOf(r, id) == WindowOf(s, id) && RecvOf(r, id) == RecvOf(s, id)
  }

  lemma AddFrameStill(s: Session, f: Frame, id: int)
    requires Meaning(f, id).None?
    ensures Still(s, AddFrame(s, f), id)
  {
    EnqueueOther(s.obPq, Item(s.nextSeq, Priority(s, f), f), id);
  }

  lemma WakeStill(s: Session, j: int, id: int)
    requires j in s.streams && s.streams[j].deferred.Some? && s.streams[j].deferred.value.frame.Data?
    ensures Still(s, Wake(s, j), id)
  {
    EnqueueOther(s.obPq, s.streams[j].deferred.value, id);
  }

  lemma ShutStill(s: Session, j: int, rd: bool, wr: bool, id: int)
    requires j in s.streams
    ensures Still(s, Shut(s, j, rd, wr), id)
  {
  }

  lemma FinStill(s: Session, j: int, id: int)
    requires j in s.streams && s.receiving.None?
    ensures Still(s, AcceptFin(s, j), id)
  {
    ShutStill(s, j, true, false, id);
  }

  lemma FailStill(s: Session, id: int)
    ensures Still(s, FailSession(s), id)
  {
    AddFrameStill(s.(goaway := s.goaway.(failOnSend := true)), Goaway(s.lastRecvStreamId), id);
  }

  lemma SynStreamStill(s: Session, j: StreamId, fin: bool, uni: bool, assoc: StreamId, pri: nat, versionOk: bool, id: int)
    requires s.receiving.None?
    ensures Still(s, OnSynStream(s, j, fin, uni, assoc, pri, versionOk), id)
  {
    if s.goaway.Any() {
    } else if s.lastRecvStreamId == j {
      AddFrameStill(s, RstStream(j, PROTOCOL_ERROR), id);
    } else if !IsNewPeerId(s, j) {
      FailStill(s, id);
    } else {
      var s1 := s.(lastRecvStreamId := j);
      var status := SynStreamStatus(s1, uni, assoc, versionOk);
      if status != 0 {
        AddFrameStill(s1, RstStream(j, status), id);
      } else if !(fin && uni) {
        AcceptStill(s, j, fin, uni, pri, id);
      }
    }
  }

  lemma AcceptStill(s: Session, j: StreamId, fin: bool, uni: bool, pri: nat, id: int)
    requires IsNewPeerId(s, j) && s.receiving.None? && !(fin && uni) && !s.goaway.Any()
    ensures Still(s, AcceptSynStream(s, j, fin, uni, pri), id)
  {
    var s1 := OpenStream(s.(lastRecvStreamId := j), j, pri, Opening);
    if j !in s.streams {
      ShutStill(s1, j, false, uni, id);
      var s2 := Shut(s1, j, false, uni);
      if fin {
        FinStill(s2, j, id);
      }
    }
  }

  lemma SynReplyStill(s: Session, j: StreamId, fin: bool, id: int)
    requires s.receiving.None?
    ensures Still(s, OnSynReply(s, j, fin), id)
  {
    if j !in s.streams || s.streams[j].shutRd || !IsMine(s.server, j) {
      AddFrameStill(s, RstStream(j, PROTOCOL_ERROR), id);
    } else if s.streams[j].state.Opening? {
      OpenedStill(s, j, fin, id);
    } else {
      AddFrameStill(s, RstStream(j, if s.flowControl then STREAM_IN_USE else PROTOCOL_ERROR), id);
    }
  }

  lemma OpenedStill(s: Session, j: StreamId, fin: bool, id: int)
    requires s.receiving.None? && j in s.streams && !s.streams[j].shutRd && IsMine(s.server, j) && s.streams[j].state.Opening?
    ensures Still(s, OnSynReply(s, j, fin), id)
  {
    if fin {
      FinStill(PutStream(s, j, s.streams[j].(state := Opened)), j, id);
    }
  }

  lemma HeadersStill(s: Session, j: StreamId, fin: bool, id: int)
    requires s.receiving.None?
    ensures Still(s, OnHeaders(s, j, fin), id)
  {
    AddFrameStill(s, RstStream(j, PROTOCOL_ERROR), id);
    if j in s.streams && fin {
      FinStill(s, j, id);
    }
  }

  lemma DataStill(s: Session, j: int, fin: bool, id: int)
    requires s.receiving.None?
    ensures Still(s, OnData(s, j, fin), id)
  {
    AddFrameStill(s, RstStream(j, PROTOCOL_ERROR), id);
    AddFrameStill(s, RstStream(j, INVALID_STREAM), id);
    if j in s.streams && fin {
      FinStill(s, j, id);
    }
  }

  lemma PingStill(s: Session, u: int, id: int)
    ensures Still(s, OnPing(s, u), id)
  {
    AddFrameStill(s, Ping(u), id);
  }

  lemma ResumeStill(s: Session, j: StreamId, id: int)
    requires Inv(s)
    ensures Still(s, OnResumeData(s, j), id)
  {
    if j in s.streams && s.streams[j].deferred.Some? {
      assert StreamOk(j, s.streams[j]);
      WakeStill(s, j, id);
    }
  }

  // ---------- credit and received bytes of another stream ----------

  lemma CountStill(s: Session, j: int, n: nat, id: int)
    requires j != id
    ensures Still(s, CountReceived(s, j, n), id)
  {
    if j in s.streams {
      var total := Counted(s.streams[j].recvWindow, n);
      AddFrameStill(PutStream(s, j, s.streams[j].(recvWindow := 0)), WindowUpdate(j, total), id);
    }
  }

  lemma CreditStill(s: Session, j: StreamId, delta: int, id: int)
    requires j != id
    ensures Still(s, OnSubmitWindowUpdate(s, j, delta), id)
  {
    if delta > 0 && j in s.streams {
      var left := Uncounted(s.streams[j].recvWindow, delta);
      AddFrameStill(PutStream(s, j, s.streams[j].(recvWindow := left)), WindowUpdate(j, delta), id);
    }
  }

  lemma BytesStill(s: Session, n: nat, id: int)
    requires s.receiving.Some? && n <= s.receiving.value.remaining && s.receiving.value.id != id
    ensures Still(s, DataBytes(s, n), id)
  {
    var b := s.receiving.value;
    var s1 := if b.ignored then s else s.(log := s.log + [Chunk(b.id, n)]);
    CountStill(s1, b.id, n, id);
    var s2 := if s.flowControl && !b.ignored && n > 0 && (b.remaining - n > 0 || !b.fin) then CountReceived(s1, b.id, n) else s1;
    if b.remaining == n {
      EndStill(s, s2, b.id, b.fin, id);
    }
  }

  /** The end of a frame of another stream. */
  lemma EndStill(s: Session, s2: Session, j: int, fin: bool, id: int)
    requires Still(s, s2, id) && (id in s2.streams <==> id in s.streams) && j != id
    ensures Still(s, OnData(s2.(receiving := None), j, fin), id)
  {
    DataStill(s2.(receiving := None), j, fin, id);
    DataKeeps(s2.(receiving := None), j, fin, id);
  }

  lemma DataKeeps(s: Session, j: int, fin: bool, id: int)
    requires s.receiving.None? && j != id
    ensures id in OnData(s, j, fin).streams <==> id in s.streams
  {
  }

  // ---------- WINDOW_UPDATE and SETTINGS received ----------

  /** The receiving side and the frames under way have not moved. */
  ghost predicate InStill(s: Session, r: Session, id: int) {
    && r.flowControl == s.flowControl && r.active == s.active && r.receiving == s.receiving
    && Controls(r.obPq, id) == Controls(s.obPq, id) && r.streams.Keys == s.streams.Keys
    && RecvOf(r, id) == RecvOf(s, id)
    && r.cfg.localInit == s.cfg.localInit && r.cfg.noAutoWindowUpdate == s.cfg.noAutoWindowUpdate
  }

  lemma SetWindowStill(s: Session, j: int, window: int, credited: int, id: int)
    requires Inv(s) && j in s.streams
    ensures InStill(s, SetWindow(s, j, window, credited), id)
    ensures j != id ==> Still(s, SetWindow(s, j, window, credited), id)
  {
    assert StreamOk(j, s.streams[j]);
    if s.streams[j].deferred.Some? {
      WakeStill(s, j, id);
    }
  }

  lemma UpdateStill(s: Session, j: StreamId, delta: StreamId, id: int)
    requires Inv(s)
    ensures InStill(s, OnWindowUpdate(s, j, delta), id)
    ensures j != id ==> Still(s, OnWindowUpdate(s, j, delta), id)
  {
    if s.flowControl && j in s.streams {
      if INT32_MAX - delta < s.streams[j].window {
        AddFrameStill(s, RstStream(j, FLOW_CONTROL_ERROR), id);
      } else {
        SetWindowStill(s, j, s.streams[j].window + delta, s.streams[j].credited + delta, id);
      }
    }
  }

  lemma {:induction false} AdjustStill(s: Session, ids: set<int>, value: int, was: int, id: int)
    requires Inv(s) && ids <= s.streams.Keys
    ensures InStill(s, AdjustWindows(s, ids, value, was), id)
    decreases |ids|
  {
    if Inhabited(ids) {
      var least := Least(ids);
      var s1 := Adjusted(s, least, value, was);
      SetWindowStill(s, least, value - (was - s.streams[least].window), s.streams[least].credited, id);
      AdjustStill(s1, ids - {least}, value, was, id);
    }
  }

  /** What one setting does to the sending side of a stream, and to the settings. */
  ghost predicate SettingDone(s: Session, r: Session, id: int, has: bool, v: int) {
    && InStill(s, r, id)
    && r.cfg == s.cfg.(remoteMax := r.cfg.remoteMax, remoteInit := if has then v else s.cfg.remoteInit,
                       oversized := s.cfg.oversized || (has && v > INT32_MAX))
    && (id in s.streams || (s.flowControl && (has ==> v <= INT32_MAX)) ==>
          WindowOf(r, id) - WindowOf(s, id)
            == if has && s.flowControl && v <= INT32_MAX then v - ToInt32(s.cfg.remoteInit) else 0)
  }

  lemma OneSettingDone(s: Session, sid: int, v: int, id: int)
    requires Inv(s)
    ensures SettingDone(s, OneSetting(s, sid, v), id, sid == SETTINGS_INITIAL_WINDOW_SIZE, v)
  {
    if sid == SETTINGS_INITIAL_WINDOW_SIZE && s.flowControl && v <= INT32_MAX {
      AdjustStill(s, s.streams.Keys, v, ToInt32(s.cfg.remoteInit), id);
    }
  }

  /** The first value of the initial window size counts, the other entries do not matter. */
  lemma {:induction false} SettingsDone(s: Session, entries: seq<(int, int)>, seen: set<int>, id: int)
    requires Inv(s)
    ensures SettingDone(s, OnSettings(s, entries, seen), id,
      HasWindow(entries) && SETTINGS_INITIAL_WINDOW_SIZE !in seen, Lookup(entries, SETTINGS_INITIAL_WINDOW_SIZE, 0))
    decreases |entries|
  {
    if entries != [] {
      var (sid, v) := entries[0];
      var counts := 0 < sid <= SETTINGS_MAX && sid !in seen;
      var s1 := if counts then OneSetting(s, sid, v) else s;
      if counts {
        OneSettingDone(s, sid, v, id);
      }
      SettingsDone(s1, entries[1..], seen + {sid}, id);
      HasWindowCons(entries);
      SettingThen(s, s1, OnSettings(s1, entries[1..], seen + {sid}), entries, seen, id);
    }
  }

  lemma HasWindowCons(entries: seq<(int, int)>)
    requires entries != []
    ensures HasWindow(entries) <==> entries[0].0 == SETTINGS_INITIAL_WINDOW_SIZE || HasWindow(entries[1..])
  {
    assert forall e :: e in entries <==> e == entries[0] || e in entries[1..];
  }

  lemma SettingThen(s: Session, s1: Session, r: Session, entries: seq<(int, int)>, seen: set<int>, id: int)
    requires entries != []
    requires var (sid, v) := entries[0];
      if 0 < sid <= SETTINGS_MAX && sid !in seen then SettingDone(s, s1, id, sid == SETTINGS_INITIAL_WINDOW_SIZE, v) else s1 == s
    requires SettingDone(s1, r, id, HasWindow(entries[1..]) && SETTINGS_INITIAL_WINDOW_SIZE !in seen + {entries[0].0},
      Lookup(entries[1..], SETTINGS_INITIAL_WINDOW_SIZE, 0))
    requires HasWindow(entries) <==> entries[0].0 == SETTINGS_INITIAL_WINDOW_SIZE || HasWindow(entries[1..])
    ensures SettingDone(s, r, id, HasWindow(entries) && SETTINGS_INITIAL_WINDOW_SIZE !in seen, Lookup(entries, SETTINGS_INITIAL_WINDOW_SIZE, 0))
  {
  }

  // ---------- sending ----------

  /** Apart from the frame buffer, nothing that the flow control of `id` sees has moved. */
  ghost predicate Calm(s: Session, r: Session, id: int) {
    && r.flowControl == s.flowControl && r.receiving == s.receiving
    && r.cfg == s.cfg.(lastPing := r.cfg.lastPing, overSent := r.cfg.overSent)
    && Controls(r.obPq, id) == Controls(s.obPq, id)
    && (id in r.streams ==> id in s.streams) && (Stays(s, r, id) ==> SameWindows(s, r, id))
  }

  lemma AddFrameCalm(s: Session, f: Frame, id: int)
    requires Meaning(f, id).None?
    ensures Calm(s, AddFrame(s, f), id)
  {
    AddFrameStill(s, f, id);
  }

  lemma SynSentCalm(s: Session, j: int, state: StreamState, rd: bool, wr: bool, hasData: bool, id: int)
    requires j in s.streams && (Inv(s) ==> StateOk(s, j, state))
    ensures Calm(s, SynSent(s, j, state, rd, wr, hasData), id)
  {
    var s1 := SetState(s, j, state);
    ShutStill(s1, j, rd, wr, id);
    AddFrameCalm(Shut(s1, j, rd, wr), Data(j, true, false), id);
  }

  lemma ShutCalm(s: Session, j: int, rd: bool, wr: bool, id: int)
    requires j in s.streams
    ensures Calm(s, Shut(s, j, rd, wr), id)
  {
    ShutStill(s, j, rd, wr, id);
  }

  lemma CloseCalm(s: Session, j: int, id: int)
    ensures Calm(s, CloseStream(s, j), id)
  {
  }

  lemma EffectsCalm(s: Session, id: int)
    requires s.active.Some?
    ensures Calm(s, SentEffects(s), id)
  {
    var f := s.active.value.item.frame;
    if f.Begins() && f.id in s.streams {
      BeginsCalm(s, id);
    } else if f.Headers? && f.id in s.streams {
      ShutCalm(s, f.id, false, f.fin, id);
    } else if f.Data? && f.id in s.streams {
      ShutCalm(s, f.id, false, true, id);
    } else if f.RstStream? {
      CloseCalm(s, f.id, id);
    }
  }

  lemma BeginsCalm(s: Session, id: int)
    requires s.active.Some? && s.active.value.item.frame.Begins() && s.active.value.item.frame.id in s.streams
    ensures Calm(s, SentEffects(s), id)
  {
    BeginningOk(s);
    var f := s.active.value.item.frame;
    SynSentCalm(s, f.id, if f.SynStream? then Opening else Opened, f.SynStream? && f.uni, f.fin, f.hasData, id);
  }

  /** What a DATA item can become: a DATA frame of its stream, or nothing. */
  predicate Packed(s: Session, r: Session, j: int) {
    r.active.Some? ==>
      && j in s.streams && r.active.value.item.frame.Data? && r.active.value.item.frame.id == j
      && 8 <= r.active.value.length <= 8 + NextDataRead(s, s.streams[j]) && NextDataRead(s, s.streams[j]) > 0
      && r.active.value.offset == 0 && r.active.value.calls == 0
  }

  lemma PackCalm(s: Session, max: int, read: ReadResult, id: int)
    requires s.hand.Some? && s.active.None? && s.hand.value.frame.Data?
    requires DataSendError(s, s.hand.value.frame.id) == 0
    requires 0 < max <= NextDataRead(s, s.streams[s.hand.value.frame.id])
    ensures Calm(s, PackData(s, max, read), id) && Packed(s, PackData(s, max, read), s.hand.value.frame.id)
  {
    if read.ReadTemporalFailure? {
      AddFrameCalm(s, RstStream(s.hand.value.frame.id, INTERNAL_ERROR), id);
    } else if read.ReadDeferred? {
      DeferCalm(s, id);
    } else {
      BytesCalm(s, max, read, id);
    }
  }

  lemma DeferCalm(s: Session, id: int)
    requires s.hand.Some? && s.active.None? && s.hand.value.frame.Data? && DataSendError(s, s.hand.value.frame.id) == 0
    ensures Calm(s, Defer(s, s.hand.value.frame.id, false), id)
  {
  }

  lemma BytesCalm(s: Session, max: int, read: ReadResult, id: int)
    requires s.hand.Some? && s.active.None? && s.hand.value.frame.Data?
    requires DataSendError(s, s.hand.value.frame.id) == 0 && (read.ReadBytes? || read.ReadFailure?)
    requires 0 < max <= NextDataRead(s, s.streams[s.hand.value.frame.id])
    ensures Calm(s, PackData(s, max, read), id) && Packed(s, PackData(s, max, read), s.hand.value.frame.id)
  {
  }

  lemma PrepDataCalm(s: Session, read: ReadResult, id: int)
    requires s.hand.Some? && s.active.None? && s.hand.value.frame.Data?
    ensures Calm(s, PrepData(s, read), id) && Packed(s, PrepData(s, read), s.hand.value.frame.id)
  {
    var j := s.hand.value.frame.id;
    if DataSendError(s, j) == 0 && NextDataRead(s, s.streams[j]) != 0 {
      PackCalm(s, NextDataRead(s, s.streams[j]), read, id);
    }
  }

  lemma PutBackCalm(s: Session, id: int)
    requires s.hand.Some? && s.hand.value.frame.Data?
    ensures Calm(s, PutBack(s), id)
  {
    EnqueueOther(s.obPq, s.hand.value, id);
  }

  lemma AgainCalm(s: Session, read: ReadResult, id: int)
    requires s.hand.Some? && s.active.None? && s.hand.value.frame.Data? && DataSendError(s, s.hand.value.frame.id) == 0
    ensures Calm(s, ReadAgain(s, read), id) && Packed(s, ReadAgain(s, read), s.hand.value.frame.id)
  {
    var max := NextDataRead(s, s.streams[s.hand.value.frame.id]);
    PutBackCalm(s, id);
    if max != 0 {
      PackCalm(s, max, read, id);
    }
  }

  lemma CompleteCalm(s: Session, id: int)
    requires s.active.Some? && s.hand.None?
    ensures Calm(s, Complete(s), id)
  {
    EffectsCalm(s, id);
  }

  lemma CalmThen(s: Session, s1: Session, r: Session, id: int)
    requires Calm(s, s1, id) && Calm(s1, r, id)
    ensures Calm(s, r, id)
  {
  }

  /** What a stream may read depends on its window only. */
  lemma PackedThen(s: Session, s1: Session, r: Session, j: int)
    requires Calm(s, s1, j) && Packed(s1, r, j)
    ensures Packed(s, r, j)
  {
  }

  /** After a frame is out: a DATA item may have been packed again, and nothing else has moved. */
  lemma AfterCalm(s: Session, read: ReadResult, id: int)
    requires s.active.Some? && s.hand.None?
    ensures Calm(s, AfterFrameSent(s, read), id)
    ensures AfterFrameSent(s, read).active.Some? ==>
      s.active.value.item.frame.Data? && Packed(s, AfterFrameSent(s, read), s.active.value.item.frame.id)
  {
    var f, s1, r := s.active.value.item.frame, Complete(s), AfterFrameSent(s, read);
    CompleteCalm(s, id);
    if f.Data? && !f.eof && DataSendError(s1, f.id) == 0 {
      CompleteCalm(s, f.id);
      AgainCalm(s1, read, id);
      PackedThen(s, s1, r, f.id);
      CalmThen(s, s1, r, id);
    } else {
      assert Calm(s1, r, id) && r.active.None?;
      CalmThen(s, s1, r, id);
    }
  }

  /** Taking an item from a queue. */
  lemma PopWaits(s: Session, id: int)
    requires Inv(s) && s.hand.None? && s.active.None? && PopNext(s).hand.Some?
    ensures var s1 := PopNext(s); Controls(s.obPq, id) == AsSeq(Meaning(s1.hand.value.frame, id)) + Controls(s1.obPq, id)
  {
    if s.obSsPq != [] {
      assert s.obSsPq[0] in s.obSsPq;
    }
  }

  /** The frame about to be prepared concerns `id` and can be sent. */
  predicate Sendable(s: Session, length: Option<nat>, id: int)
    requires s.hand.Some?
  {
    Meaning(s.hand.value.frame, id).Some? ==> length.Some? && ControlSendError(s, s.hand.value.frame) == 0
  }

  /** One frame to send: nothing moves but the frame buffer, which may get a DATA frame within
      the window, or the next of the waiting control frames. */
  ghost predicate Pulled(s: Session, r: Session, id: int) {
    && r.flowControl == s.flowControl && r.receiving == s.receiving
    && r.cfg == s.cfg.(lastPing := r.cfg.lastPing, overSent := r.cfg.overSent)
    && (Stays(s, r, id) ==> SameWindows(s, r, id))
    && (r.active.Some? && r.active.value.item.frame.Data? ==> Packed(s, r, r.active.value.item.frame.id))
  }

  lemma PrepControlPulls(s: Session, length: Option<nat>, id: int)
    requires s.hand.Some? && s.active.None? && !s.hand.value.frame.SynStream? && !s.hand.value.frame.Data?
    ensures Pulled(s, PrepControl(s, length), id)
    ensures Sendable(s, length, id) ==>
      Waiting(PrepControl(s, length), id) == AsSeq(Meaning(s.hand.value.frame, id)) + Controls(s.obPq, id)
  {
  }

  lemma PrepSynPulls(s: Session, length: Option<nat>, id: int)
    requires s.hand.Some? && s.active.None? && s.hand.value.frame.SynStream?
    ensures Pulled(s, PrepSynStream(s, length), id) && Waiting(PrepSynStream(s, length), id) == Controls(s.obPq, id)
  {
    if SynStreamSendError(s, s.hand.value.frame.assoc) == 0 && length.Some? {
      StartPulls(s, s.hand.value.frame, length.value, id);
    }
  }

  lemma StartPulls(s: Session, f: Frame, length: nat, id: int)
    requires s.hand.Some? && s.active.None? && f.SynStream? && f == s.hand.value.frame && s.nextStreamId <= INT32_MAX && !s.goaway.Any()
    ensures Pulled(s, StartStream(s, f, length), id) && Waiting(StartStream(s, f, length), id) == Controls(s.obPq, id)
  {
  }

  lemma PrepDataPulls(s: Session, read: ReadResult, id: int)
    requires s.hand.Some? && s.active.None? && s.hand.value.frame.Data?
    ensures Pulled(s, PrepData(s, read), id) && Waiting(PrepData(s, read), id) == Controls(s.obPq, id)
  {
    PrepDataCalm(s, read, id);
  }

  lemma PullDone(s: Session, read: ReadResult, length: Option<nat>, id: int)
    requires Inv(s) && s.hand.None? && s.active.None?
    ensures Pulled(s, Pull(s, read, length), id)
    ensures (PopNext(s).hand.Some? ==> Sendable(PopNext(s), length, id)) ==> Waiting(Pull(s, read, length), id) == Waiting(s, id)
  {
    var s1 := PopNext(s);
    if s1.hand.Some? {
      PopWaits(s, id);
      PrepDone(s1, read, length, id);
      PulledThen(s, s1, Pull(s, read, length), id);
    }
  }

  /** The frame in hand is prepared. */
  lemma PrepDone(s: Session, read: ReadResult, length: Option<nat>, id: int)
    requires s.hand.Some? && s.active.None?
    ensures var f := s.hand.value.frame;
      var r := if f.SynStream? then PrepSynStream(s, length) else if f.Data? then PrepData(s, read) else PrepControl(s, length);
      && Pulled(s, r, id)
      && (Sendable(s, length, id) ==> Waiting(r, id) == AsSeq(Meaning(f, id)) + Controls(s.obPq, id))
  {
    if s.hand.value.frame.SynStream? {
      PrepSynPulls(s, length, id);
    } else if s.hand.value.frame.Data? {
      PrepDataPulls(s, read, id);
    } else {
      PrepControlPulls(s, length, id);
    }
  }

  lemma PulledThen(s: Session, s1: Session, r: Session, id: int)
    requires s1 == s.(hand := s1.hand, obPq := s1.obPq, obSsPq := s1.obSsPq) && Pulled(s1, r, id)
    ensures Pulled(s, r, id)
  {
  }

  // ---------- send callbacks ----------

  /** A successful send callback for a frame that is not out yet, or not of this stream. */
  lemma PushDone(s: Session, sent: nat, read: ReadResult, id: int)
    requires s.active.Some? && s.hand.None?
    ensures var r, a, s1 := Push(s, sent, read), s.active.value, Charge(s, sent);
      && s1.streams.Keys == s.streams.Keys && RecvOf(s1, id) == RecvOf(s, id)
      && WindowOf(s1, id) == WindowOf(s, id)
           - (if s.flowControl && a.item.frame.Data? && a.item.frame.id == id && id in s.streams then a.word else 0)
      && r.flowControl == s.flowControl && r.receiving == s.receiving
      && r.cfg == s.cfg.(lastPing := r.cfg.lastPing, overSent := r.cfg.overSent)
      && (id in r.streams ==> id in s.streams) && (Stays(s, r, id) ==> SameWindows(s1, r, id))
      && Controls(r.obPq, id) == Controls(s.obPq, id)
      && if a.offset + sent == a.length
         then r.active.Some? ==> a.item.frame.Data? && Packed(s1, r, a.item.frame.id)
         else r.active == Some(a.(offset := a.offset + sent, calls := a.calls + 1))
  {
    var s1 := Charge(s, sent);
    if s1.active.value.offset == s1.active.value.length {
      AfterCalm(s1, read, id);
    }
  }

  // ---------- any other input ----------

  /** The inputs that are about windows or the frame buffer. */
  predicate Special(s: Session, i: Input, id: int) {
    match i
    case PullItem(_, _) => true
    case PushBytes(_, _) => true
    case SubmitSettings(_) => true
    case SetNoAutoWindowUpdate(_) => true
    case SubmitWindowUpdate(j, _) => j == id
    case RecvWindowUpdate(j, _) => j == id
    case RecvSettings(_) => true
    case RecvDataHead(j, _, _) => j == id
    case RecvDataBytes(_) => s.receiving.Some? && s.receiving.value.id == id
    case _ => false
  }

  lemma CallStill(s: Session, i: Input, id: int)
    requires Inv(s) && s.hand.None? && !Special(s, i, id) && IsCall(i)
    ensures Still(s, Step(s, i), id) && Step(s, i).receiving == s.receiving
  {
    if i.SubmitSynStream? {
      AddFrameStill(s, SynStream(0, i.fin, i.uni, if s.server then i.assoc else 0, i.pri, i.hasData), id);
    } else if i.SubmitWindowUpdate? {
      CreditStill(s, i.id, i.amount, id);
    } else if i.ResumeData? {
      ResumeStill(s, i.id, id);
    } else {
      FrameStill(s, i, id);
    }
  }

  /** A call that just queues a frame. */
  lemma FrameStill(s: Session, i: Input, id: int)
    requires s.hand.None? && !Special(s, i, id) && IsCall(i) && !i.SubmitSynStream? && !i.SubmitWindowUpdate? && !i.ResumeData?
    ensures Still(s, Step(s, i), id) && Step(s, i).receiving == s.receiving
  {
    match i
    case SubmitSynReply(j, fin, hasData) => AddFrameStill(s, SynReply(j, fin, hasData), id);
    case SubmitHeaders(j, fin) => AddFrameStill(s, Headers(j, fin), id);
    case SubmitData(j, fin) => AddFrameStill(s, Data(j, fin, false), id);
    case SubmitRstStream(j, status) => AddFrameStill(s, RstStream(j, status), id);
    case SubmitPing(u) => AddFrameStill(s, Ping(u), id);
    case SubmitGoaway => AddFrameStill(s, Goaway(s.lastRecvStreamId), id);
  }

  lemma ReceiveStill(s: Session, i: Input, id: int)
    requires Inv(s) && s.hand.None? && s.receiving.None? && !Special(s, i, id)
    ensures Still(s, Receive(s, i), id)
    ensures Receive(s, i).receiving.Some? ==> Receive(s, i).receiving.value.id != id
  {
    if i.RecvSynStream? || i.RecvSynReply? || i.RecvHeaders? || i.RecvRstStream? {
      StreamFrameStill(s, i, id);
    } else if i.RecvPing? {
      PingStill(s, i.uniqueId, id);
    } else if i.RecvWindowUpdate? {
      UpdateStill(s, i.id, i.delta, id);
    } else if i.RecvInvalidBlock? {
      AddFrameStill(s, RstStream(i.id, i.status), id);
    } else if i.RecvMalformed? {
      FailStill(s, id);
    } else if i.RecvDataHead? {
      HeadStill(s, i.id, i.fin, i.length, id);
    }
  }

  lemma StreamFrameStill(s: Session, i: Input, id: int)
    requires Inv(s) && s.hand.None? && s.receiving.None?
    requires i.RecvSynStream? || i.RecvSynReply? || i.RecvHeaders? || i.RecvRstStream?
    ensures Still(s, Receive(s, i), id) && Receive(s, i).receiving.None?
  {
    if i.RecvSynStream? {
      SynStreamStill(s, i.id, i.fin, i.uni, i.assoc, i.pri, i.versionOk, id);
    } else if i.RecvSynReply? {
      SynReplyStill(s, i.id, i.fin, id);
    } else if i.RecvHeaders? {
      HeadersStill(s, i.id, i.fin, id);
    } else {
      assert Receive(s, i) == OnRstStream(s, i.id);
    }
  }

  lemma HeadStill(s: Session, j: StreamId, fin: bool, length: nat, id: int)
    requires s.receiving.None? && j != id
    ensures Still(s, DataHead(s, j, fin, length), id)
    ensures DataHead(s, j, fin, length).receiving.Some? ==> DataHead(s, j, fin, length).receiving.value.id != id
  {
    var s1 := s.(receiving := Some(Inbound(j, fin, !DataAllowed(s, j), length)));
    if length == 0 {
      BytesStill(s1, 0, id);
    }
  }

  /** How much of a DATA frame of `id` has still to be received. */
  function Started(s: Session, id: int): seq<nat> {
    if s.receiving.Some? && s.receiving.value.id == id then [s.receiving.value.remaining] else []
  }

  /** An input that is not about windows or the frame buffer moves nothing of this. */
  lemma StepStill(s: Session, i: Input, id: int)
    requires Inv(s) && s.hand.None? && !Special(s, i, id)
    ensures Still(s, Step(s, i), id)
    ensures s.receiving == Step(s, i).receiving || (Started(s, id) == [] && Started(Step(s, i), id) == [])
  {
    if IsCall(i) {
      CallStill(s, i, id);
    } else if s.receiving.None? {
      ReceiveStill(s, i, id);
    } else if i.RecvDataBytes? && i.count <= s.receiving.value.remaining {
      BytesStill(s, i.count, id);
      BytesReceiving(s, i.count);
    }
  }

  lemma BytesReceiving(s: Session, n: nat)
    requires s.receiving.Some? && n <= s.receiving.value.remaining
    ensures var b := s.receiving.value;
      DataBytes(s, n).receiving == if n < b.remaining then Some(b.(remaining := b.remaining - n)) else None
  {
  }
}
