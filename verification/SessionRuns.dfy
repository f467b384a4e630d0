/** Whole runs of a session: any sequence of application calls, send-loop iterations and
    received frames, and what holds throughout. */
module SessionRuns {
  import opened Base
  import opened SessionTypes
  import opened SessionInvariant
  import opened SessionMoves
  import opened SessionCore
  import opened SessionSend
  import opened SessionReceive

  datatype Input =
    // application calls
    | SubmitSynStream(fin: bool, uni: bool, assoc: StreamId, pri: nat, hasData: bool)
    | SubmitSynReply(id: StreamId, fin: bool, hasData: bool)
    | SubmitHeaders(id: StreamId, fin: bool)
    | SubmitData(id: StreamId, fin: bool)
    | SubmitRstStream(id: StreamId, status: int)
    | SubmitPing(uniqueId: int)
    | SubmitGoaway
    | SubmitSettings(entries: seq<(int, int)>)
    | SubmitWindowUpdate(id: StreamId, amount: int)
    | ResumeData(id: StreamId)
    | SetNoAutoWindowUpdate(value: bool)            // spdylay_session_set_option
    // iterations of spdylay_session_send
    | PullItem(read: ReadResult, packed: Option<nat>)
    | PushBytes(sent: nat, read: ReadResult)
    // frames received
    | RecvSynStream(id: StreamId, fin: bool, uni: bool, assoc: StreamId, pri: nat, versionOk: bool)
    | RecvSynReply(id: StreamId, fin: bool)
    | RecvRstStream(id: StreamId)
    | RecvSettings(entries: seq<(int, int)>)
    | RecvPing(uniqueId: int)
    | RecvGoaway
    | RecvHeaders(id: StreamId, fin: bool)
    | RecvWindowUpdate(id: StreamId, delta: StreamId)
    | RecvInvalidBlock(id: StreamId, status: int)   // header block invalid or too large
    | RecvMalformed                                 // any other unpacking error
    | RecvDataHead(id: StreamId, fin: bool, length: nat)
    | RecvDataBytes(count: nat)

  /** An application call. */
  predicate IsCall(i: Input) {
    i.SubmitSynStream? || i.SubmitSynReply? || i.SubmitHeaders? || i.SubmitData? || i.SubmitRstStream? || i.SubmitPing?
    || i.SubmitGoaway? || i.SubmitSettings? || i.SubmitWindowUpdate? || i.ResumeData? || i.SetNoAutoWindowUpdate?
  }

  /** spdylay_session_client_new and spdylay_session_server_new. */
  function Init(server: bool, flowControl: bool): Session {
    Session(server, flowControl, if server then 2 else 1, 0, map[], 0, 0, 0, [], [], None, None,
            GoawayFlags(false, false, false),
            Config(250, 1024 * 1024, 250, 1024 * 1024, false, 0, false, false), None, [])
  }

  // ---------- application calls ----------

  function OnSubmitSynStream(s: Session, fin: bool, uni: bool, assoc: StreamId, pri: nat, hasData: bool): (r: Session)
    ensures Moves(s, r) && r.hand == s.hand && r.receiving == s.receiving
  {
    if pri > LowestPriority(s) then s
    else if assoc != 0 && s.server && IsMine(s.server, assoc) then s
    else AddFrame(s, SynStream(0, fin, uni, if s.server then assoc else 0, pri, hasData))
  }

  predicate ValidSettings(entries: seq<(int, int)>) {
    && (forall e <- entries :: 0 < e.0 <= SETTINGS_MAX)
    && forall i, j :: 0 <= i < j < |entries| ==> entries[i].0 != entries[j].0
  }

  function Lookup(entries: seq<(int, int)>, sid: int, current: int): int {
    if entries == [] then current
    else if entries[0].0 == sid then entries[0].1
    else Lookup(entries[1..], sid, current)
  }

  /** spdylay_submit_settings with spdylay_session_update_local_settings. */
  function OnSubmitSettings(s: Session, entries: seq<(int, int)>): (r: Session)
    ensures Moves(s, r) && r.hand == s.hand && r.receiving == s.receiving
  {
    if !ValidSettings(entries) then s
    else
      var s1 := AddFrame(s, Settings(entries));
      var c := s1.cfg.(localMax := Lookup(entries, SETTINGS_MAX_CONCURRENT_STREAMS, s1.cfg.localMax),
                       localInit := Lookup(entries, SETTINGS_INITIAL_WINDOW_SIZE, s1.cfg.localInit));
      ConfigKeeps(s1, c);
      s1.(cfg := c)
  }

  /** `delta` bytes fewer, down to none. */
  function Uncounted(got: int, delta: int): int {
    got - if delta < got then delta else got
  }

  /** spdylay_submit_window_update. */
  function OnSubmitWindowUpdate(s: Session, id: StreamId, delta: int): (r: Session)
    ensures Moves(s, r) && r.hand == s.hand && r.receiving == s.receiving
  {
    if delta <= 0 || id !in s.streams then s
    else
      var left := Uncounted(s.streams[id].recvWindow, delta);
      RecvKeeps(s, id, left);
      AddFrame(PutStream(s, id, s.streams[id].(recvWindow := left)), WindowUpdate(id, delta))
  }

  /** spdylay_session_resume_data. */
  function OnResumeData(s: Session, id: StreamId): (r: Session)
    ensures Moves(s, r) && r.hand == s.hand && r.receiving == s.receiving
  {
    if id !in s.streams || s.streams[id].deferred.None? || s.streams[id].deferredFlow then s else Wake(s, id)
  }

  /** spdylay_session_set_option with SPDYLAY_OPT_NO_AUTO_WINDOW_UPDATE. */
  function OnSetOption(s: Session, value: bool): (r: Session)
    ensures Moves(s, r) && r.hand == s.hand && r.receiving == s.receiving
  {
    ConfigKeeps(s, s.cfg.(noAutoWindowUpdate := value));
    s.(cfg := s.cfg.(noAutoWindowUpdate := value))
  }

  // ---------- runs ----------

  /** One input.  Bytes of a DATA frame are not interrupted by another frame. */
  ghost function Step(s: Session, i: Input): (r: Session)
    requires s.hand.None?
    ensures Moves(s, r) && r.hand.None?
  {
    match i
    case SubmitSynStream(fin, uni, assoc, pri, hasData) => OnSubmitSynStream(s, fin, uni, assoc, pri, hasData)
    case SubmitSynReply(id, fin, hasData) => AddFrame(s, SynReply(id, fin, hasData))
    case SubmitHeaders(id, fin) => AddFrame(s, Headers(id, fin))
    case SubmitData(id, fin) => AddFrame(s, Data(id, fin, false))
    case SubmitRstStream(id, status) => AddFrame(s, RstStream(id, status))
    case SubmitPing(u) => AddFrame(s, Ping(u))
    case SubmitGoaway => AddFrame(s, Goaway(s.lastRecvStreamId))
    case SubmitSettings(entries) => OnSubmitSettings(s, entries)
    case SubmitWindowUpdate(id, delta) => OnSubmitWindowUpdate(s, id, delta)
    case ResumeData(id) => OnResumeData(s, id)
    case SetNoAutoWindowUpdate(value) => OnSetOption(s, value)
    case PullItem(read, length) => if s.active.None? then Pull(s, read, length) else s
    case PushBytes(sent, read) =>
      if s.active.Some? && s.active.value.offset + sent <= s.active.value.length then Push(s, sent, read) else s
    case _ => Receive(s, i)
  }

  ghost function Receive(s: Session, i: Input): (r: Session)
    requires s.hand.None?
    ensures Moves(s, r) && r.hand.None?
  {
    if s.receiving.Some? then
      if i.RecvDataBytes? && i.count <= s.receiving.value.remaining then DataBytes(s, i.count) else s
    else
      match i
      case RecvSynStream(id, fin, uni, assoc, pri, versionOk) => OnSynStream(s, id, fin, uni, assoc, pri, versionOk)
      case RecvSynReply(id, fin) => OnSynReply(s, id, fin)
      case RecvRstStream(id) => OnRstStream(s, id)
      case RecvSettings(entries) => OnSettings(s, entries, {})
      case RecvPing(u) => OnPing(s, u)
      case RecvGoaway => OnGoaway(s)
      case RecvHeaders(id, fin) => OnHeaders(s, id, fin)
      case RecvWindowUpdate(id, delta) => OnWindowUpdate(s, id, delta)
      case RecvInvalidBlock(id, status) => HandleInvalid(s, id, status)
      case RecvMalformed => FailSession(s)
      case RecvDataHead(id, fin, length) => DataHead(s, id, fin, length)
      case _ => s
  }

  ghost function Run(s: Session, inputs: seq<Input>): (r: Session)
    requires s.hand.None?
    ensures Moves(s, r) && r.hand.None?
    decreases inputs
  {
    if inputs == [] then s else Run(Step(s, inputs[0]), inputs[1..])
  }

  lemma {:induction false} RunSnoc(s: Session, steps: seq<Input>, i: Input)
    requires s.hand.None?
    ensures Run(s, steps + [i]) == Step(Run(s, steps), i)
    decreases steps
  {
    if steps == [] {
      assert [i][1..] == [];
    } else {
      RunSnoc(Step(s, steps[0]), steps[1..], i);
      assert (steps + [i])[1..] == steps[1..] + [i];
    }
  }

  lemma StepPull(s: Session, read: ReadResult, packed: Option<nat>)
    requires s.hand.None? && s.active.None?
    ensures Step(s, PullItem(read, packed)) == Pull(s, read, packed)
  {
  }

  lemma StepPush(s: Session, sent: nat, read: ReadResult)
    requires s.hand.None? && s.active.Some? && s.active.value.offset + sent <= s.active.value.length
    ensures Step(s, PushBytes(sent, read)) == Push(s, sent, read)
  {
  }

  lemma StepSettings(s: Session, entries: seq<(int, int)>)
    requires s.hand.None? && s.receiving.None?
    ensures Step(s, RecvSettings(entries)) == OnSettings(s, entries, {})
  {
  }

  lemma StepWindowUpdate(s: Session, id: StreamId, delta: StreamId)
    requires s.hand.None? && s.receiving.None?
    ensures Step(s, RecvWindowUpdate(id, delta)) == OnWindowUpdate(s, id, delta)
  {
  }

  /** While a DATA frame is being received, only its bytes matter. */
  lemma StepBytes(s: Session, i: Input)
    requires s.hand.None? && s.receiving.Some? && (i.RecvDataBytes? || i.RecvSettings? || i.RecvWindowUpdate?)
    ensures Step(s, i) == if i.RecvDataBytes? && i.count <= s.receiving.value.remaining then DataBytes(s, i.count) else s
  {
  }

  lemma StepHead(s: Session, id: StreamId, fin: bool, length: nat)
    requires s.hand.None? && s.receiving.None?
    ensures Step(s, RecvDataHead(id, fin, length)) == DataHead(s, id, fin, length)
  {
  }

  lemma InitOk(server: bool, flowControl: bool)
    ensures Inv(Init(server, flowControl)) && Funded(Init(server, flowControl))
  {
    var s := Init(server, flowControl);
    forall n: nat ensures Holders(s, n) == 0 {
      assert Deferring(s.streams, n) == {};
    }
    assert Own(server, s.streams, true) == {} && Own(server, s.streams, false) == {};
  }

  ghost predicate Reachable(s: Session, server: bool, flowControl: bool, inputs: seq<Input>) {
    s == Run(Init(server, flowControl), inputs)
  }

  /** Every reachable session is in order. */
  lemma Reached(s: Session, server: bool, flowControl: bool, inputs: seq<Input>)
    requires Reachable(s, server, flowControl, inputs)
    ensures Inv(s) && Funded(s) && s.hand.None?
  {
    InitOk(server, flowControl);
  }
}
