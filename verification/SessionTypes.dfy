/** The data of a SPDY session: streams, outbound items, the two outbound queues and the log
    of what the outside world sees. */
module SessionTypes {
  import opened Base

  /** Stream IDs on the wire are 31 bits wide. */
  type StreamId = i: int | 0 <= i < 0x8000_0000

  // Status codes of RST_STREAM frames.
  const PROTOCOL_ERROR: int := 1
  const INVALID_STREAM: int := 2
  const REFUSED_STREAM: int := 3
  const UNSUPPORTED_VERSION: int := 4
  const INTERNAL_ERROR: int := 6
  const FLOW_CONTROL_ERROR: int := 7
  const STREAM_IN_USE: int := 8

  // Setting IDs.
  const SETTINGS_MAX_CONCURRENT_STREAMS: int := 4
  const SETTINGS_INITIAL_WINDOW_SIZE: int := 7
  const SETTINGS_MAX: int := 8

  datatype StreamState = Initial | Opening | Opened | Closing

  /** An outbound frame.  A SYN_STREAM gets its ID when it is prepared; a DATA frame stands
      for the chain of frames read from one data provider, the last of which has `eof`. */
  datatype Frame =
    | SynStream(id: int, fin: bool, uni: bool, assoc: int, pri: nat, hasData: bool)
    | SynReply(id: int, fin: bool, hasData: bool)
    | RstStream(id: int, status: int)
    | Settings(entries: seq<(int, int)>)
    | Ping(uniqueId: int)
    | Headers(id: int, fin: bool)
    | WindowUpdate(id: int, delta: int)
    | Goaway(lastGood: int)
    | Data(id: int, fin: bool, eof: bool)
  {
    /** The frame, as sent, has the FIN flag. */
    predicate CarriesFin() {
      match this
      case SynStream(_, f, _, _, _, _) => f
      case SynReply(_, f, _) => f
      case Headers(_, f) => f
      case Data(_, f, eof) => f && eof
      case _ => false
    }

    /** SYN_REPLY, HEADERS or DATA: what half-closing a stream forbids. */
    predicate OnStream() { SynReply? || Headers? || Data? }

    /** The frame with which a side of a stream begins. */
    predicate Begins() { SynStream? || SynReply? }

    /** HEADERS or DATA: what must come later. */
    predicate Follows() { Headers? || Data? }
  }

  /** spdylay_outbound_item; `num` (its sequence number) is unique, so it names the item for good. */
  datatype Item = Item(num: nat, pri: int, frame: Frame)

  /** The active outbound item with its frame buffer.  `word` is what the length word of a
      DATA frame takes off the window, `calls` how many send callbacks succeeded so far. */
  datatype Active = Active(item: Item, length: nat, offset: nat, word: nat, calls: nat)

  datatype Stream = Stream(
    pri: nat, state: StreamState, shutRd: bool, shutWr: bool,
    deferred: Option<Item>, deferredFlow: bool,
    window: int, recvWindow: int,
    /** History: payload of the DATA frames sent or being sent, and WINDOW_UPDATE deltas accepted. */
    charged: int, credited: int)

  /** What the application and the wire observe, and which items have been freed. */
  datatype Event =
    | Enter(id: int)              // a stream entered the map
    | Sent(frame: Frame)             // a frame went out completely
    | Closed(id: int)                // on_stream_close_callback
    | PeerFin(id: int)               // a FIN from the peer was accepted
    | Chunk(id: int, length: nat)    // on_data_chunk_recv_callback
    | Freed(num: nat)                // an outbound item was deallocated

  datatype GoawayFlags = GoawayFlags(sent: bool, received: bool, failOnSend: bool) {
    predicate Any() { sent || received || failOnSend }
  }

  /** A DATA frame whose header has been received and whose payload is not complete;
      `ignored` is RECV_PAYLOAD_IGN. */
  datatype Inbound = Inbound(id: int, fin: bool, ignored: bool, remaining: nat)

  datatype Config = Config(
    remoteMax: int, remoteInit: int, localMax: int, localInit: int, noAutoWindowUpdate: bool,
    lastPing: int,
    /** History: an INITIAL_WINDOW_SIZE of 2^31 or more was received; a DATA frame was packed
        that took a stream past what the peer had granted, as `Granted` reads the grant. */
    oversized: bool, overSent: bool)

  datatype Session = Session(
    server: bool, flowControl: bool,
    nextStreamId: int, lastRecvStreamId: int,
    streams: map<int, Stream>, numOutgoing: int, numIncoming: int,
    nextSeq: nat, obPq: seq<Item>, obSsPq: seq<Item>,
    active: Option<Active>,
    /** The item that spdylay_session_send holds in a local variable. */
    hand: Option<Item>,
    goaway: GoawayFlags,
    cfg: Config,
    receiving: Option<Inbound>,
    log: seq<Event>)

  // ---------- the outbound queues ----------

  /** spdylay_outbound_item_compar. */
  predicate Before(a: Item, b: Item) { a.pri < b.pri || (a.pri == b.pri && a.num < b.num) }

  /** A priority queue as its drain order; `PriorityQueue` shows that the heap drains so. */
  function Enqueue(q: seq<Item>, x: Item): seq<Item> {
    if q == [] || Before(x, q[0]) then [x] + q else [q[0]] + Enqueue(q[1..], x)
  }

  function CountItem(q: seq<Item>, n: nat): nat {
    if q == [] then 0 else (if q[0].num == n then 1 else 0) + CountItem(q[1..], n)
  }

  lemma {:induction false} EnqueueCounts(q: seq<Item>, x: Item, n: nat)
    ensures CountItem(Enqueue(q, x), n) == CountItem(q, n) + if x.num == n then 1 else 0
  {
    if q == [] || Before(x, q[0]) {
      assert ([x] + q)[1..] == q;
    } else {
      EnqueueCounts(q[1..], x, n);
      assert ([q[0]] + Enqueue(q[1..], x))[1..] == Enqueue(q[1..], x);
    }
  }

  predicate Sorted(q: seq<Item>) {
    forall i, j :: 0 <= i < j < |q| ==> Before(q[i], q[j])
  }

  lemma {:induction false} EnqueueSorted(q: seq<Item>, x: Item)
    requires Sorted(q) && forall y <- q :: y.num != x.num
    ensures Sorted(Enqueue(q, x)) && multiset(Enqueue(q, x)) == multiset(q) + multiset{x}
  {
    if !(q == [] || Before(x, q[0])) {
      EnqueueSorted(q[1..], x);
      var r := Enqueue(q[1..], x);
      assert q == [q[0]] + q[1..];
      forall k | 0 <= k < |r| ensures Before(q[0], r[k]) {
        assert r[k] in multiset(r);
        assert r[k] == x || r[k] in multiset(q[1..]);
        assert q[0] in q;
      }
    }
  }

  lemma {:induction false} EnqueueMembers(q: seq<Item>, x: Item)
    ensures forall y :: y in Enqueue(q, x) <==> y == x || y in q
  {
    if !(q == [] || Before(x, q[0])) {
      EnqueueMembers(q[1..], x);
      assert forall y :: y in q <==> y == q[0] || y in q[1..];
    }
  }

  lemma {:induction false} CountZero(q: seq<Item>, n: nat)
    ensures CountItem(q, n) == 0 <==> forall y <- q :: y.num != n
  {
    if q != [] {
      CountZero(q[1..], n);
      assert forall y :: y in q <==> y == q[0] || y in q[1..];
    }
  }

  // ---------- deferred items ----------

  ghost function Deferring(m: map<int, Stream>, n: nat): set<int> {
    set id <- m | m[id].deferred.Some? && m[id].deferred.value.num == n
  }

  ghost function Holds(st: Stream, n: nat): nat {
    if st.deferred.Some? && st.deferred.value.num == n then 1 else 0
  }

  lemma DeferringUpdate(m: map<int, Stream>, id: int, st: Stream, n: nat)
    requires id in m
    ensures |Deferring(m[id := st], n)| == |Deferring(m, n)| - Holds(m[id], n) + Holds(st, n)
  {
    assert m[id := st] == (m - {id})[id := st];
    DeferringRemove(m, id, n);
    DeferringInsert(m - {id}, id, st, n);
  }

  lemma DeferringInsert(m: map<int, Stream>, id: int, st: Stream, n: nat)
    requires id !in m
    ensures |Deferring(m[id := st], n)| == |Deferring(m, n)| + Holds(st, n)
  {
    assert Deferring(m[id := st], n) == Deferring(m, n) + if Holds(st, n) == 1 then {id} else {};
  }

  lemma DeferringRemove(m: map<int, Stream>, id: int, n: nat)
    requires id in m
    ensures |Deferring(m - {id}, n)| == |Deferring(m, n)| - Holds(m[id], n)
  {
    assert Deferring(m - {id}, n) == Deferring(m, n) - {id};
    assert Deferring(m, n) == (Deferring(m, n) - {id}) + if Holds(m[id], n) == 1 then {id} else {};
  }

  lemma DeferringHas(m: map<int, Stream>, id: int)
    requires id in m && m[id].deferred.Some?
    ensures |Deferring(m, m[id].deferred.value.num)| >= 1
  {
    assert id in Deferring(m, m[id].deferred.value.num);
  }

  // ---------- the log ----------

  function CountFreed(log: seq<Event>, n: nat): nat {
    if log == [] then 0
    else CountFreed(log[..|log| - 1], n) + if log[|log| - 1] == Freed(n) then 1 else 0
  }

  lemma CountFreedAppend(log: seq<Event>, e: Event, n: nat)
    ensures CountFreed(log + [e], n) == CountFreed(log, n) + if e == Freed(n) then 1 else 0
  {
    assert (log + [e])[..|log|] == log;
  }

  /** What may come later in a log than `a`. */
  predicate MayFollow(a: Event, b: Event) {
    && (a.Closed? && b.Closed? ==> a.id != b.id)
    && (a.Sent? && a.frame.CarriesFin() && b.Sent? && b.frame.OnStream() ==> a.frame.id != b.frame.id)
    && (a.PeerFin? && b.Chunk? ==> a.id != b.id)
    && (a.Sent? && a.frame.Goaway? ==> !(b.Sent? && b.frame.Goaway?) && !b.Enter?)
    && (a.Sent? && (a.frame.Begins() || a.frame.Follows()) && b.Sent? && b.frame.Begins() ==> a.frame.id != b.frame.id)
    && (a.Enter? && b.Enter? && a.id % 2 == b.id % 2 ==> a.id < b.id)
  }

  /** Our side of the stream has begun. */
  predicate HasBegun(log: seq<Event>, id: int) {
    exists e <- log :: e.Sent? && e.frame.Begins() && e.frame.id == id
  }

  /** Nothing follows on a side that has not begun. */
  predicate LogBegun(log: seq<Event>) {
    forall e <- log :: e.Sent? && e.frame.Follows() ==> HasBegun(log, e.frame.id)
  }

  predicate Resets(e: Event, id: int) {
    e.Sent? && e.frame.RstStream? && e.frame.id == id
  }

  /** The stream has entered, and no reset of it was sent since. */
  predicate InLog(log: seq<Event>, id: int) {
    log != [] && var n := |log| - 1; log[n] == Enter(id) || (!Resets(log[n], id) && InLog(log[..n], id))
  }

  lemma InLogAppend(log: seq<Event>, e: Event, id: int)
    ensures InLog(log + [e], id) <==> e == Enter(id) || (!Resets(e, id) && InLog(log, id))
  {
    assert (log + [e])[..|log|] == log;
  }

  ghost predicate LogOrdered(log: seq<Event>) {
    forall i, j :: 0 <= i < j < |log| ==> MayFollow(log[i], log[j])
  }

  lemma LogAppend(log: seq<Event>, e: Event)
    requires LogOrdered(log)
    requires forall a <- log :: MayFollow(a, e)
    ensures LogOrdered(log + [e])
  {
    assert forall i :: 0 <= i < |log| ==> log[i] in log;
  }
}
