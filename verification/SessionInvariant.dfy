/** What holds of a session between any two steps, in every run. */
module SessionInvariant {
  import opened Base
  import opened SessionTypes

  /** spdylay_session_is_my_stream_id. */
  predicate IsMine(server: bool, id: int) {
    id != 0 && id % 2 == if server then 0 else 1
  }

  /** The ID has been taken, by us or by the peer, and can never be opened again. */
  predicate Used(s: Session, id: int) {
    0 < id <= INT32_MAX && if IsMine(s.server, id) then id < s.nextStreamId else id <= s.lastRecvStreamId
  }

  predicate IdsOk(s: Session) {
    && 0 < s.nextStreamId <= INT32_MAX + 2 && s.nextStreamId % 2 == (if s.server then 0 else 1)
    && 0 <= s.lastRecvStreamId <= INT32_MAX
    && forall id <- s.streams :: Used(s, id)
  }

  ghost function Own(server: bool, m: map<int, Stream>, mine: bool): set<int> {
    set id <- m | IsMine(server, id) == mine
  }

  /** num_outgoing_streams and num_incoming_streams are exact. */
  ghost predicate CountsOk(s: Session) {
    && s.numOutgoing == |Own(s.server, s.streams, true)|
    && s.numIncoming == |Own(s.server, s.streams, false)|
  }

  /** Never shut both ways; a deferred item is a DATA item of this very stream; one deferred
      for flow control means there is no window. */
  predicate StreamOk(id: int, st: Stream) {
    && !(st.shutRd && st.shutWr)
    && (st.deferred.Some? ==> st.deferred.value.frame.Data? && st.deferred.value.frame.id == id && ItemOk(st.deferred.value))
    && (st.deferred.Some? && st.deferredFlow ==> st.window <= 0)
  }

  predicate StreamsOk(s: Session) {
    forall id <- s.streams :: StreamOk(id, s.streams[id])
  }

  /** How many times item `n` occurs anywhere: in a queue, as the active item, in a local
      variable, deferred in a stream, or among the freed ones. */
  ghost function Holders(s: Session, n: nat): nat {
    CountItem(s.obPq, n) + CountItem(s.obSsPq, n)
      + (if s.active.Some? && s.active.value.item.num == n then 1 else 0)
      + (if s.hand.Some? && s.hand.value.num == n then 1 else 0)
      + |Deferring(s.streams, n)| + CountFreed(s.log, n)
  }

  /** Every item ever accepted is in exactly one place, or has been freed exactly once. */
  ghost predicate OwnedOnce(s: Session) {
    forall n: nat :: Holders(s, n) == if n < s.nextSeq then 1 else 0
  }

  /** What a logged event still means for the session. */
  predicate EventOk(s: Session, e: Event) {
    match e
    case Enter(id) => Used(s, id)
    case Closed(id) => Used(s, id) && id !in s.streams
    case PeerFin(id) => Used(s, id) && (id in s.streams ==> s.streams[id].shutRd)
    case Sent(f) =>
      && (f.CarriesFin() ==> f.id in s.streams ==> s.streams[f.id].shutWr)
      && (f.Begins() || f.Follows() ==> Used(s, f.id))
      && (f.Goaway? ==> s.goaway.sent)
    case _ => true
  }

  predicate EventsOk(s: Session) {
    forall e <- s.log :: EventOk(s, e)
  }

  predicate FinSent(log: seq<Event>, id: int) {
    exists e <- log :: e.Sent? && e.frame.CarriesFin() && e.frame.id == id
  }

  /** What was checked when the active frame was packed is still true. */
  predicate ActiveOk(s: Session) {
    s.active.Some? ==>
      var f := s.active.value.item.frame;
      && (f.OnStream() ==> !FinSent(s.log, f.id))
      && (f.Goaway? ==> !s.goaway.sent)
      && (f.Data? && f.id in s.streams ==> s.streams[f.id].deferred.None?)
      && (f.SynStream? || f.OnStream() ==> Used(s, f.id))
      && (f.Begins() ==> !HasBegun(s.log, f.id) && (f.SynStream? <==> IsMine(s.server, f.id)))
      && (f.Follows() ==> HasBegun(s.log, f.id))
  }

  /** The frame with which our side of the stream begins is being sent. */
  predicate Beginning(a: Option<Active>, id: int) {
    a.Some? && a.value.item.frame.Begins() && a.value.item.frame.id == id
  }

  /** Our own streams have begun or are beginning, the peer's once they are Opened and not
      while they are Opening. */
  predicate StateOk(s: Session, id: int, state: StreamState) {
    && (IsMine(s.server, id) || state.Opened? ==> HasBegun(s.log, id) || Beginning(s.active, id))
    && (!IsMine(s.server, id) && state.Opening? ==> !HasBegun(s.log, id))
  }

  predicate HistoryOk(s: Session) {
    LogBegun(s.log) && forall id <- s.streams :: InLog(s.log, id) && StateOk(s, id, s.streams[id].state)
  }

  predicate ReceivingOk(s: Session) {
    s.receiving.Some? && !s.receiving.value.ignored ==> PeerFin(s.receiving.value.id) !in s.log
  }

  /** Conversion of a `uint32_t` setting to the `int32_t` window. */
  function ToInt32(v: int): int { if v <= INT32_MAX then v else v - 0x1_0000_0000 }

  /** Everything the peer has allowed on a stream so far. An initial window of 2^31 or more
      counts as the sender reads it, as a negative number: see `Oversized`. */
  function Granted(s: Session, id: int): int
    requires id in s.streams
  {
    ToInt32(s.cfg.remoteInit) + s.streams[id].credited
  }

  /** The window never promises more than the grant leaves, and no frame has exceeded it. */
  predicate Funded(s: Session) {
    s.flowControl && !s.cfg.oversized ==>
      && !s.cfg.overSent && s.cfg.remoteInit <= INT32_MAX
      && forall id <- s.streams :: s.streams[id].window + s.streams[id].charged <= Granted(s, id)
  }

  /** PING goes before SETTINGS, and both before what has the priority of a stream. */
  predicate ItemOk(x: Item) {
    if x.frame.Ping? then x.pri == -10
    else if x.frame.Settings? then x.pri == -1
    else 0 <= x.pri && (x.frame.SynStream? ==> x.pri == x.frame.pri)
  }

  /** SYN_STREAM frames have a queue of their own. */
  predicate NotSyn(x: Item) {
    ItemOk(x) && !x.frame.SynStream?
  }

  /** The queues are in order. */
  predicate QueuesOk(s: Session) {
    && Sorted(s.obPq) && Sorted(s.obSsPq) && (forall x <- s.obPq :: NotSyn(x))
    && (forall x <- s.obSsPq :: x.frame.SynStream? && ItemOk(x))
    && (s.hand.Some? ==> ItemOk(s.hand.value)) && (s.active.Some? ==> ItemOk(s.active.value.item))
  }

  ghost predicate Inv(s: Session) {
    && IdsOk(s) && CountsOk(s) && StreamsOk(s) && OwnedOnce(s) && QueuesOk(s)
    && EventsOk(s) && LogOrdered(s.log) && HistoryOk(s) && ActiveOk(s) && ReceivingOk(s)
  }

  // ---------- counting streams ----------

  lemma OwnInsert(server: bool, m: map<int, Stream>, id: int, st: Stream, mine: bool)
    requires id !in m
    ensures |Own(server, m[id := st], mine)| ==
            |Own(server, m, mine)| + if IsMine(server, id) == mine then 1 else 0
  {
    assert Own(server, m[id := st], mine) ==
           Own(server, m, mine) + if IsMine(server, id) == mine then {id} else {};
  }

  lemma OwnRemove(server: bool, m: map<int, Stream>, id: int, mine: bool)
    requires id in m
    ensures |Own(server, m - {id}, mine)| ==
            |Own(server, m, mine)| - if IsMine(server, id) == mine then 1 else 0
  {
    assert Own(server, m - {id}, mine) == Own(server, m, mine) - {id};
  }

  // ---------- moving a log along ----------

  /** Used IDs stay used, known streams only shut further, and no used ID comes back. */
  predicate Evolves(s: Session, r: Session) {
    && r.server == s.server && s.nextStreamId <= r.nextStreamId && s.lastRecvStreamId <= r.lastRecvStreamId
    && (s.goaway.sent ==> r.goaway.sent)
    && forall id <- r.streams ::
         if id in s.streams
         then (s.streams[id].shutRd ==> r.streams[id].shutRd) && (s.streams[id].shutWr ==> r.streams[id].shutWr)
         else !Used(s, id)
  }

  lemma EventsEvolve(s: Session, r: Session)
    requires EventsOk(s) && Evolves(s, r)
    ensures forall e <- s.log :: EventOk(r, e)
  {
    forall e | e in s.log
      ensures EventOk(r, e)
    {
      assert EventOk(s, e);
    }
  }
}
